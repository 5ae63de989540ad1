/**
 * The JavaScript string operations the source relies on, over `string`
 * (a sequence of Unicode code points): `split` with a one-character
 * separator, `join`, `filter(Boolean)`, `toLowerCase`/`toUpperCase`
 * restricted to ASCII, `includes`, decimal rendering of a count, and the
 * code-point order that stands in for `localeCompare`.
 */
module Text {
  import opened Seqs

  /** `s.split(sep)`: the pieces of `s` between occurrences of `sep`; never empty. */
  function Split(s: string, sep: char): (parts: seq<string>)
    ensures |parts| >= 1
    ensures forall i :: 0 <= i < |parts| ==> sep !in parts[i]
    decreases |s|
  {
    if |s| == 0 then [""]
    else
      var rest := Split(s[1..], sep);
      if s[0] == sep then [""] + rest
      else [[s[0]] + rest[0]] + rest[1..]
  }

  /** `parts.join(sep)`. */
  function Join(parts: seq<string>, sep: string): string
  {
    if |parts| == 0 then ""
    else if |parts| == 1 then parts[0]
    else parts[0] + sep + Join(parts[1..], sep)
  }

  /** The test `Boolean(s)` for a string. */
  function NonEmpty(s: string): bool
  {
    s != ""
  }

  /** `s.split(sep).filter(Boolean)`: the non-empty pieces of a separated list. */
  function ParseList(s: string, sep: char): (items: seq<string>)
    ensures forall i :: 0 <= i < |items| ==> items[i] != "" && sep !in items[i]
  {
    Filter(Split(s, sep), NonEmpty)
  }

  /** Splitting and re-joining with the same separator gives back the input. */
  lemma {:induction false} JoinSplit(s: string, sep: char)
    ensures Join(Split(s, sep), [sep]) == s
    decreases |s|
  {
    if |s| > 0 {
      var rest := Split(s[1..], sep);
      JoinSplit(s[1..], sep);
      assert s == [s[0]] + s[1..];
    }
  }

  lemma {:induction false} SplitWithoutSeparator(x: string, t: string, sep: char)
    requires sep !in x
    ensures Split(x + t, sep) == [x + Split(t, sep)[0]] + Split(t, sep)[1..]
    decreases |x|
  {
    if x == [] {
      var parts := Split(t, sep);
      assert x + t == t;
      assert x + parts[0] == parts[0];
      assert parts == [parts[0]] + parts[1..];
    } else {
      var u := x + t;
      assert u[0] == x[0] && u[0] != sep;
      assert u[1..] == x[1..] + t;
      SplitWithoutSeparator(x[1..], t, sep);
      var rest := Split(u[1..], sep);
      assert Split(u, sep) == [[u[0]] + rest[0]] + rest[1..];
      assert [x[0]] + (x[1..] + Split(t, sep)[0]) == x + Split(t, sep)[0];
    }
  }

  /** Joining pieces that do not contain the separator and splitting again gives back the pieces. */
  lemma {:induction false} SplitJoin(items: seq<string>, sep: char)
    requires |items| >= 1
    requires forall i :: 0 <= i < |items| ==> sep !in items[i]
    ensures Split(Join(items, [sep]), sep) == items
  {
    if |items| == 1 {
      SplitWithoutSeparator(items[0], "", sep);
      assert items[0] + "" == items[0];
    } else {
      var tail := Join(items[1..], [sep]);
      SplitJoin(items[1..], sep);
      SplitWithoutSeparator(items[0], [sep] + tail, sep);
      assert items[0] + [sep] + tail == items[0] + ([sep] + tail);
      var u := [sep] + tail;
      assert u[1..] == tail;
      assert Split(u, sep) == [""] + items[1..];
      assert Split(u, sep)[0] == "" && Split(u, sep)[1..] == items[1..];
      assert items[0] + "" == items[0];
      assert Join(items, [sep]) == items[0] + [sep] + tail;
      assert items == [items[0]] + items[1..];
    }
  }

  /** A list of non-empty items free of the separator survives being joined and parsed back. */
  lemma ParseListJoin(items: seq<string>, sep: char)
    requires forall i :: 0 <= i < |items| ==> items[i] != "" && sep !in items[i]
    ensures ParseList(Join(items, [sep]), sep) == items
  {
    if items == [] {
      assert Split("", sep) == [""];
    } else {
      SplitJoin(items, sep);
      FilterKeepsAll(items, NonEmpty);
    }
  }

  /** Appending one piece to a non-empty join adds the separator and the piece. */
  lemma {:induction false} JoinSnoc(items: seq<string>, x: string, sep: string)
    requires |items| >= 1
    ensures Join(items + [x], sep) == Join(items, sep) + sep + x
  {
    if |items| == 1 {
    } else {
      JoinSnoc(items[1..], x, sep);
      assert (items + [x])[1..] == items[1..] + [x];
    }
  }

  /** Joining a list cut in two: the two joins with one more separator between them. */
  lemma {:induction false} JoinConcat(a: seq<string>, b: seq<string>, sep: string)
    requires |a| >= 1 && |b| >= 1
    ensures Join(a + b, sep) == Join(a, sep) + sep + Join(b, sep)
  {
    if |a| == 1 {
      assert (a + b)[1..] == b;
    } else {
      JoinConcat(a[1..], b, sep);
      assert (a + b)[1..] == a[1..] + b;
    }
  }

  /** Joining a list cut in two non-empty parts: the two joins around one separator. */
  lemma JoinAt(s: seq<string>, n: int, sep: string)
    requires 0 < n < |s|
    ensures Join(s, sep) == Join(s[..n], sep) + sep + Join(s[n..], sep)
  {
    assert s == s[..n] + s[n..];
    JoinConcat(s[..n], s[n..], sep);
  }

  /** `toLowerCase` on one ASCII character; everything else is left as it is. */
  function LowerChar(c: char): char
  {
    if 'A' <= c <= 'Z' then (c as int + 32) as char else c
  }

  /** `toUpperCase` on one ASCII character; everything else is left as it is. */
  function UpperChar(c: char): char
  {
    if 'a' <= c <= 'z' then (c as int - 32) as char else c
  }

  function Lower(s: string): (r: string)
    ensures |r| == |s|
    ensures forall i :: 0 <= i < |s| ==> r[i] == LowerChar(s[i])
  {
    seq(|s|, i requires 0 <= i < |s| => LowerChar(s[i]))
  }

  /** `needle` occurs in `hay` starting at index `i`. */
  ghost predicate OccursAt(hay: string, needle: string, i: int)
  {
    0 <= i && i + |needle| <= |hay| && hay[i..i + |needle|] == needle
  }

  /** `hay.includes(needle)`. */
  function Contains(hay: string, needle: string): bool
    decreases |hay|
  {
    if |needle| > |hay| then false
    else if hay[..|needle|] == needle then true
    else Contains(hay[1..], needle)
  }

  /** A slice of the tail is the slice of the haystack one position further on. */
  lemma TailSlice(hay: string, i: int, n: nat)
    requires 1 <= i && i + n <= |hay|
    ensures hay[1..][i - 1..i - 1 + n] == hay[i..i + n]
  {
  }

  /** A needle found by `includes` occurs at some position. */
  lemma {:induction false} ContainsOccurs(hay: string, needle: string) returns (i: int)
    requires Contains(hay, needle)
    ensures OccursAt(hay, needle, i)
    decreases |hay|
  {
    if hay[..|needle|] == needle {
      i := 0;
    } else {
      var j := ContainsOccurs(hay[1..], needle);
      i := j + 1;
      assert hay[i..i + |needle|] == hay[1..][j..j + |needle|];
    }
  }

  /** A needle occurring at some position is found by `includes`. */
  lemma {:induction false} OccursContains(hay: string, needle: string, i: int)
    requires OccursAt(hay, needle, i)
    ensures Contains(hay, needle)
    decreases i
  {
    if i > 0 && hay[..|needle|] != needle {
      TailSlice(hay, i, |needle|);
      OccursContains(hay[1..], needle, i - 1);
    }
  }

  /** `includes` holds exactly when the needle occurs at some position of the haystack. */
  lemma ContainsMeansOccurs(hay: string, needle: string)
    ensures Contains(hay, needle) <==> exists i :: OccursAt(hay, needle, i)
  {
    if Contains(hay, needle) {
      var i := ContainsOccurs(hay, needle);
    }
    forall i | OccursAt(hay, needle, i)
      ensures Contains(hay, needle)
    {
      OccursContains(hay, needle, i);
    }
  }

  /** Every string includes the empty string. */
  lemma ContainsEmpty(hay: string)
    ensures Contains(hay, "")
  {
    assert hay[..0] == "";
  }

  /** The decimal digit for `d`. */
  function Digit(d: nat): char
    requires d < 10
  {
    "0123456789"[d]
  }

  /** `String(n)` for a non-negative integer. */
  function Decimal(n: nat): (s: string)
    ensures |s| >= 1
    ensures forall i :: 0 <= i < |s| ==> '0' <= s[i] <= '9'
  {
    if n < 10 then [Digit(n)] else Decimal(n / 10) + [Digit(n % 10)]
  }

  /** The value of a string of decimal digits. */
  function DecimalValue(s: string): nat
    requires forall i :: 0 <= i < |s| ==> '0' <= s[i] <= '9'
  {
    if s == [] then 0 else 10 * DecimalValue(s[..|s| - 1]) + (s[|s| - 1] as int - '0' as int)
  }

  /** Rendering a count in decimal loses nothing: reading the digits back gives the count. */
  lemma {:induction false} DecimalRoundTrip(n: nat)
    ensures DecimalValue(Decimal(n)) == n
  {
    if n < 10 {
      DigitValue(n);
      assert Decimal(n) == [] + [Digit(n)];
      DecimalValueSnoc([], Digit(n));
    } else {
      var q, d := n / 10, n % 10;
      assert n == 10 * q + d;
      DigitValue(d);
      DecimalRoundTrip(q);
      assert Decimal(n) == Decimal(q) + [Digit(d)];
      DecimalValueSnoc(Decimal(q), Digit(d));
    }
  }

  /** Appending a digit multiplies the value by ten and adds the digit. */
  lemma DecimalValueSnoc(s: string, c: char)
    requires forall i :: 0 <= i < |s| ==> '0' <= s[i] <= '9'
    requires '0' <= c <= '9'
    ensures DecimalValue(s + [c]) == 10 * DecimalValue(s) + (c as int - '0' as int)
  {
    assert (s + [c])[..|s|] == s;
  }

  /** The digit for `d` reads back as `d`. */
  lemma DigitValue(d: nat)
    requires d < 10
    ensures Digit(d) as int - '0' as int == d
  {
  }

  /**
   * Code-point lexicographic order on strings, standing in for
   * `localeCompare`: `a` sorts no later than `b`.
   */
  predicate LexLe(a: string, b: string)
  {
    |a| == 0 || (|b| > 0 && (a[0] < b[0] || (a[0] == b[0] && LexLe(a[1..], b[1..]))))
  }

  lemma {:induction false} LexLeTotal(a: string, b: string)
    ensures LexLe(a, b) || LexLe(b, a)
  {
    if |a| > 0 && |b| > 0 && a[0] == b[0] {
      LexLeTotal(a[1..], b[1..]);
    }
  }

  lemma {:induction false} LexLeAntisymmetric(a: string, b: string)
    requires LexLe(a, b) && LexLe(b, a)
    ensures a == b
  {
    if |a| > 0 && |b| > 0 {
      LexLeAntisymmetric(a[1..], b[1..]);
      assert a == [a[0]] + a[1..] && b == [b[0]] + b[1..];
    }
  }

  lemma {:induction false} LexLeTransitive(a: string, b: string, c: string)
    requires LexLe(a, b) && LexLe(b, c)
    ensures LexLe(a, c)
  {
    if |a| > 0 && a[0] == b[0] && b[0] == c[0] {
      LexLeTransitive(a[1..], b[1..], c[1..]);
    }
  }
}
