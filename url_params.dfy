/**
 * `URLSearchParams` as the components use it: an ordered list of name/value
 * pairs with the WHATWG URL Standard's `get`, `set`, `delete` and `append`.
 * The pure functions give the meaning of each operation; the class is the
 * mutable object that `new URLSearchParams(...)` creates and the components
 * then edit in place.
 */
module UrlParams {
  import opened Wrappers
  import opened Seqs

  type Pair = (string, string)

  function NameIs(name: string): Pair -> bool
  {
    (p: Pair) => p.0 == name
  }

  function NameIsNot(name: string): Pair -> bool
  {
    (p: Pair) => p.0 != name
  }

  /** `get(name)`: the value of the first pair called `name`, or null. */
  function Lookup(pairs: seq<Pair>, name: string): (r: Option<string>)
    ensures r.None? <==> forall i :: 0 <= i < |pairs| ==> pairs[i].0 != name
    ensures r.Some? ==> (name, r.value) in pairs
  {
    if pairs == [] then None
    else if pairs[0].0 == name then Some(pairs[0].1)
    else Lookup(pairs[1..], name)
  }

  /** `get` finds the pair at `i` when no earlier pair has that name. */
  lemma {:induction false} LookupFirstAt(pairs: seq<Pair>, name: string, i: int)
    requires 0 <= i < |pairs| && pairs[i].0 == name
    requires forall k :: 0 <= k < i ==> pairs[k].0 != name
    ensures Lookup(pairs, name) == Some(pairs[i].1)
  {
    if i > 0 {
      LookupFirstAt(pairs[1..], name, i - 1);
    }
  }

  /** `delete(name)`: every pair called `name` removed, the others kept in order. */
  function Without(pairs: seq<Pair>, name: string): seq<Pair>
  {
    Filter(pairs, NameIsNot(name))
  }

  /** The first pair called `name` gets `value`; the later ones are removed. */
  function ReplaceFirst(pairs: seq<Pair>, name: string, value: string): seq<Pair>
    requires Lookup(pairs, name).Some?
  {
    if pairs[0].0 == name then [(name, value)] + Without(pairs[1..], name)
    else [pairs[0]] + ReplaceFirst(pairs[1..], name, value)
  }

  /** `set(name, value)`: replace the first pair called `name` and drop the rest, or append. */
  function SetPair(pairs: seq<Pair>, name: string, value: string): seq<Pair>
  {
    if Lookup(pairs, name).Some? then ReplaceFirst(pairs, name, value) else pairs + [(name, value)]
  }

  lemma {:induction false} LookupWithout(pairs: seq<Pair>, name: string, other: string)
    ensures Lookup(Without(pairs, name), name) == None
    ensures other != name ==> Lookup(Without(pairs, name), other) == Lookup(pairs, other)
  {
    if pairs != [] {
      LookupWithout(pairs[1..], name, other);
    }
  }

  /** Two lists that agree once `name` is removed answer `get` alike for every other name. */
  lemma LookupAgreesOffName(a: seq<Pair>, b: seq<Pair>, name: string, other: string)
    requires Without(a, name) == Without(b, name) && other != name
    ensures Lookup(a, other) == Lookup(b, other)
  {
    LookupWithout(a, name, other);
    LookupWithout(b, name, other);
  }

  lemma {:induction false} WithoutTwice(pairs: seq<Pair>, name: string)
    ensures Without(Without(pairs, name), name) == Without(pairs, name)
  {
    FilterKeepsAll(Without(pairs, name), NameIsNot(name));
  }

  lemma {:induction false} ReplaceFirstFacts(pairs: seq<Pair>, name: string, value: string)
    requires Lookup(pairs, name).Some?
    ensures Lookup(ReplaceFirst(pairs, name, value), name) == Some(value)
    ensures Without(ReplaceFirst(pairs, name, value), name) == Without(pairs, name)
    ensures Filter(ReplaceFirst(pairs, name, value), NameIs(name)) == [(name, value)]
  {
    var r := ReplaceFirst(pairs, name, value);
    if pairs[0].0 == name {
      var rest := Without(pairs[1..], name);
      WithoutTwice(pairs[1..], name);
      FilterDropsAll(rest, NameIs(name));
      assert r[1..] == rest;
    } else {
      ReplaceFirstFacts(pairs[1..], name, value);
      assert r[1..] == ReplaceFirst(pairs[1..], name, value);
    }
  }

  /** After `set`, `get` answers the new value. */
  lemma SetThenLookup(pairs: seq<Pair>, name: string, value: string)
    ensures Lookup(SetPair(pairs, name, value), name) == Some(value)
  {
    if Lookup(pairs, name).Some? {
      ReplaceFirstFacts(pairs, name, value);
    } else {
      var r := pairs + [(name, value)];
      assert r[|pairs|].0 == name;
      SetAppendLookup(pairs, name, value);
    }
  }

  lemma {:induction false} SetAppendLookup(pairs: seq<Pair>, name: string, value: string)
    requires Lookup(pairs, name).None?
    ensures Lookup(pairs + [(name, value)], name) == Some(value)
  {
    if pairs != [] {
      SetAppendLookup(pairs[1..], name, value);
      assert (pairs + [(name, value)])[1..] == pairs[1..] + [(name, value)];
    }
  }

  /** `set` leaves every pair with another name where it was, and keeps exactly one pair called `name`. */
  lemma SetKeepsOthers(pairs: seq<Pair>, name: string, value: string)
    ensures Without(SetPair(pairs, name, value), name) == Without(pairs, name)
    ensures Filter(SetPair(pairs, name, value), NameIs(name)) == [(name, value)]
  {
    if Lookup(pairs, name).Some? {
      ReplaceFirstFacts(pairs, name, value);
    } else {
      FilterConcat(pairs, [(name, value)], NameIsNot(name));
      FilterConcat(pairs, [(name, value)], NameIs(name));
      FilterDropsAll(pairs, NameIs(name));
    }
  }

  /** After `set(name, value)` every other parameter reads as before. */
  lemma SetLeavesOthers(pairs: seq<Pair>, name: string, value: string)
    ensures Lookup(SetPair(pairs, name, value), name) == Some(value)
    ensures forall k :: k != name ==> Lookup(SetPair(pairs, name, value), k) == Lookup(pairs, k)
  {
    SetThenLookup(pairs, name, value);
    SetKeepsOthers(pairs, name, value);
    forall k | k != name
      ensures Lookup(SetPair(pairs, name, value), k) == Lookup(pairs, k)
    {
      LookupAgreesOffName(SetPair(pairs, name, value), pairs, name, k);
    }
  }

  /** After `delete(name)` the parameter is gone and every other parameter reads as before. */
  lemma DeleteLeavesOthers(pairs: seq<Pair>, name: string)
    ensures Lookup(Without(pairs, name), name) == None
    ensures forall k :: k != name ==> Lookup(Without(pairs, name), k) == Lookup(pairs, k)
  {
    forall k
      ensures Lookup(Without(pairs, name), name) == None
      ensures k != name ==> Lookup(Without(pairs, name), k) == Lookup(pairs, k)
    {
      LookupWithout(pairs, name, k);
    }
  }

  /** The mutable `URLSearchParams` object. */
  class SearchParams {
    var pairs: seq<Pair>

    /** `new URLSearchParams(...)` from an initial list (or from another object's `toString()`). */
    constructor (init: seq<Pair>)
      ensures pairs == init
    {
      pairs := init;
    }

    function Get(name: string): Option<string>
      reads this
    {
      Lookup(pairs, name)
    }

    method Set(name: string, value: string)
      modifies this
      ensures pairs == SetPair(old(pairs), name, value)
      ensures Get(name) == Some(value)
      ensures Without(pairs, name) == Without(old(pairs), name)
    {
      SetThenLookup(pairs, name, value);
      SetKeepsOthers(pairs, name, value);
      pairs := SetPair(pairs, name, value);
    }

    method Delete(name: string)
      modifies this
      ensures pairs == Without(old(pairs), name)
      ensures Get(name) == None
      ensures Without(pairs, name) == Without(old(pairs), name)
    {
      LookupWithout(pairs, name, name);
      WithoutTwice(pairs, name);
      pairs := Without(pairs, name);
    }

    method Append(name: string, value: string)
      modifies this
      ensures pairs == old(pairs) + [(name, value)]
    {
      pairs := pairs + [(name, value)];
    }
  }
}
