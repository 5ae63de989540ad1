/**
 * The breadcrumb trail (components/BreadcrumbNav.tsx): the path is cut into
 * its non-empty segments, and each segment becomes a link to the path up to
 * and including it, labelled with a readable name.
 */
module Breadcrumbs {
  import opened Wrappers
  import opened Seqs
  import opened Text

  /** One item of the trail; `caption` is the source's `label` field. */
  datatype Crumb = Crumb(href: string, caption: string, isLast: bool)

  /** `pathname.split("/").filter(Boolean)`. */
  function Segments(pathname: string): (segments: seq<string>)
    ensures forall i :: 0 <= i < |segments| ==> segments[i] != "" && '/' !in segments[i]
  {
    ParseList(pathname, '/')
  }

  /** `"/" + pathSegments.slice(0, index + 1).join("/")`. */
  function Href(segments: seq<string>, index: nat): string
    requires index < |segments|
  {
    "/" + Join(segments[..index + 1], "/")
  }

  /**
   * `formatSegment`: four segments have fixed names; any other has its first
   * character upper-cased and the rest kept as it is.
   */
  function FormatSegment(seg: string): string
  {
    match seg
    case "issues" => "Issues"
    case "assigned" => "My Issues"
    case "auth" => "Authentication"
    case "signin" => "Sign In"
    case _ => if seg == "" then "" else [UpperChar(seg[0])] + seg[1..]
  }

  /** The trail: nothing on the home page `/`, otherwise one crumb per segment. */
  function Trail(pathname: string): (trail: Option<seq<Crumb>>)
    ensures trail.None? <==> pathname == "/"
    ensures trail.Some? ==> |trail.value| == |Segments(pathname)|
  {
    if pathname == "/" then None
    else
      var segments := Segments(pathname);
      Some(seq(|segments|, i requires 0 <= i < |segments| =>
        Crumb(Href(segments, i), FormatSegment(segments[i]), i == |segments| - 1)))
  }

  /** The four segments with fixed names. */
  predicate IsNamedSegment(seg: string)
  {
    seg == "issues" || seg == "assigned" || seg == "auth" || seg == "signin"
  }

  /**
   * Any other segment only changes letter case: it reads the same once
   * lower-cased, and it no longer starts with a lower-case letter.
   */
  lemma FormatSegmentChangesCaseOnly(seg: string)
    requires !IsNamedSegment(seg)
    ensures |FormatSegment(seg)| == |seg|
    ensures Lower(FormatSegment(seg)) == Lower(seg)
    ensures |seg| > 0 ==> !('a' <= FormatSegment(seg)[0] <= 'z')
  {
    if seg != "" {
      var caption := FormatSegment(seg);
      assert caption == [UpperChar(seg[0])] + seg[1..];
      forall i | 0 <= i < |seg|
        ensures Lower(caption)[i] == Lower(seg)[i]
      {
        if i > 0 {
          assert caption[i] == seg[i];
        }
      }
    }
  }

  /** Formatting a caption again leaves it as it is. */
  lemma FormatSegmentIdempotent(seg: string)
    ensures FormatSegment(FormatSegment(seg)) == FormatSegment(seg)
  {
    var caption := FormatSegment(seg);
    if IsNamedSegment(seg) {
      assert caption[0] == UpperChar(caption[0]) && !IsNamedSegment(caption);
      assert FormatSegment(caption) == [caption[0]] + caption[1..];
    } else if seg != "" {
      FormatSegmentChangesCaseOnly(seg);
      assert caption[0] != 'i' && caption[0] != 'a' && caption[0] != 's';
      assert !IsNamedSegment(caption);
      assert FormatSegment(caption) == [UpperChar(caption[0])] + caption[1..];
    }
  }

  /**
   * Along the trail, each link is a prefix of the next and only the final
   * crumb is marked last; the final link cuts up into the path's own
   * segments.
   */
  lemma TrailLinks(pathname: string)
    requires pathname != "/"
    ensures var trail := Trail(pathname).value;
            && (forall i :: 0 <= i < |trail| - 1 ==> !trail[i].isLast && trail[i].href <= trail[i + 1].href)
            && (|trail| > 0 ==> trail[|trail| - 1].isLast && Segments(trail[|trail| - 1].href) == Segments(pathname))
  {
    var segments := Segments(pathname);
    forall i | 0 <= i < |segments| - 1
      ensures Href(segments, i) <= Href(segments, i + 1)
    {
      HrefIsPrefix(segments, i);
    }
    if |segments| > 0 {
      LastHrefIsNormalisedPath(pathname);
    }
  }

  /** Each crumb's link extends the previous one by a slash and the next segment. */
  lemma HrefExtends(segments: seq<string>, i: nat)
    requires i + 1 < |segments|
    ensures Href(segments, i + 1) == Href(segments, i) + "/" + segments[i + 1]
  {
    assert segments[..i + 2] == segments[..i + 1] + [segments[i + 1]];
    JoinSnoc(segments[..i + 1], segments[i + 1], "/");
  }

  /** Each crumb's link is a prefix of the next one's. */
  lemma HrefIsPrefix(segments: seq<string>, i: nat)
    requires i + 1 < |segments|
    ensures Href(segments, i) <= Href(segments, i + 1)
  {
    HrefExtends(segments, i);
  }

  /** The last crumb's link is the path with empty segments dropped: cutting it up again gives the same segments. */
  lemma LastHrefIsNormalisedPath(pathname: string)
    requires |Segments(pathname)| > 0
    ensures var segments := Segments(pathname);
            Segments(Href(segments, |segments| - 1)) == segments
  {
    var segments := Segments(pathname);
    assert segments[..|segments|] == segments;
    var joined := Join(segments, "/");
    SplitJoin(segments, '/');
    var h := "/" + joined;
    assert h[0] == '/' && h[1..] == joined;
    assert Split(h, '/') == [""] + segments;
    FilterKeepsAll(segments, NonEmpty);
    assert Filter([""] + segments, NonEmpty) == Filter(segments, NonEmpty);
  }
}
