/** The list operations the session handlers build their new values from:
    the first-match search `find`, `filter` by one value, `filter` by
    membership in another list, and the duplicate-free copy made by
    `[...new Set(xs)]`. */
module Lists {

  import opened Types

  /** `xs.find(matches)`: the first element that matches, or none when no
      element does. */
  function Find<T(==)>(xs: seq<T>, matches: T -> bool): (r: Option<T>)
    ensures r.None? <==> forall i :: 0 <= i < |xs| ==> !matches(xs[i])
    ensures r.Some? ==> exists k :: 0 <= k < |xs| && xs[k] == r.value && matches(r.value)
                                    && forall j :: 0 <= j < k ==> !matches(xs[j])
  {
    if xs == [] then None
    else if matches(xs[0]) then Some(xs[0])
    else
      var r := Find(xs[1..], matches);
      assert r.Some? ==> exists k :: 0 <= k < |xs| && xs[k] == r.value && matches(r.value)
                                      && forall j :: 0 <= j < k ==> !matches(xs[j]) by {
        if r.Some? {
          var k :| 0 <= k < |xs[1..]| && xs[1..][k] == r.value && matches(r.value)
                   && forall j :: 0 <= j < k ==> !matches(xs[1..][j]);
          assert xs[k + 1] == r.value;
          assert forall j :: 1 <= j < k + 1 ==> xs[j] == xs[1..][j - 1];
        }
      }
      r
  }

  /** No value occurs twice in `s`. */
  predicate NoDup(s: seq<RegionId>)
  {
    forall i, j :: 0 <= i < j < |s| ==> s[i] != s[j]
  }

  /** The tail of a duplicate-free list is duplicate-free and misses the head. */
  lemma NoDupSplit(xs: seq<RegionId>)
    requires NoDup(xs) && xs != []
    ensures NoDup(xs[1..]) && xs[0] !in xs[1..]
  {
    forall k | 0 <= k < |xs| - 1 ensures xs[1..][k] != xs[0] {
      assert xs[1..][k] == xs[k + 1];
    }
  }

  /** Prepending a value absent from a duplicate-free list keeps it so. */
  lemma NoDupCons(a: RegionId, r: seq<RegionId>)
    requires NoDup(r) && a !in r
    ensures NoDup([a] + r)
  {
    forall i, j | 0 <= i < j < |[a] + r| ensures ([a] + r)[i] != ([a] + r)[j] {
      assert ([a] + r)[j] == r[j - 1];
      if i > 0 { assert ([a] + r)[i] == r[i - 1]; }
    }
  }

  /** `xs.filter(y => y !== x)`. */
  function Remove(xs: seq<RegionId>, x: RegionId): (r: seq<RegionId>)
    ensures forall y :: y in r <==> y in xs && y != x
    ensures x !in xs ==> r == xs
    ensures NoDup(xs) ==> NoDup(r)
  {
    if xs == [] then []
    else if xs[0] == x then Remove(xs[1..], x)
    else
      var rest := Remove(xs[1..], x);
      assert NoDup(xs) ==> NoDup([xs[0]] + rest) by {
        if NoDup(xs) { NoDupSplit(xs); NoDupCons(xs[0], rest); }
      }
      [xs[0]] + rest
  }

  /** `xs.filter(y => !ys.includes(y))`. */
  function RemoveAll(xs: seq<RegionId>, ys: seq<RegionId>): (r: seq<RegionId>)
    ensures forall y :: y in r <==> y in xs && y !in ys
    ensures NoDup(xs) ==> NoDup(r)
  {
    if xs == [] then []
    else if xs[0] in ys then RemoveAll(xs[1..], ys)
    else
      var rest := RemoveAll(xs[1..], ys);
      assert NoDup(xs) ==> NoDup([xs[0]] + rest) by {
        if NoDup(xs) { NoDupSplit(xs); NoDupCons(xs[0], rest); }
      }
      [xs[0]] + rest
  }

  /** `[...new Set(xs)]`: each value once, at the place of its first
      occurrence. */
  function Dedup(xs: seq<RegionId>): (r: seq<RegionId>)
    ensures forall y :: y in r <==> y in xs
    ensures NoDup(r)
  {
    if xs == [] then []
    else
      var d := Dedup(xs[..|xs| - 1]);
      var last := xs[|xs| - 1];
      assert forall y :: y in xs <==> y in xs[..|xs| - 1] || y == last by {
        assert xs == xs[..|xs| - 1] + [last];
      }
      if last in d then d else d + [last]
  }

  /** Removing a value that was just appended gives back the list it was
      appended to: a claim followed by an unclaim. */
  lemma {:induction false} RemoveAppended(xs: seq<RegionId>, x: RegionId)
    requires x !in xs
    ensures Remove(xs + [x], x) == xs
  {
    if xs != [] {
      assert (xs + [x])[1..] == xs[1..] + [x];
      RemoveAppended(xs[1..], x);
    } else {
      assert [x][1..] == [];
    }
  }
}
