/** The PHP list primitives the observer uses on its lists: `array_search` (first index),
    removing one element followed by `array_values`, and `array_unique` (keep the first
    occurrence). Comparison is strict equality. */
module Lists {

  import opened Wrappers

  ghost predicate DupFree<T>(s: seq<T>)
  {
    forall i, j :: 0 <= i < j < |s| ==> s[i] != s[j]
  }

  /** `array_search`: the first position holding `x`. */
  function Find<T(==)>(s: seq<T>, x: T): (r: Option<nat>)
    ensures r.None? <==> x !in s
    ensures r.Some? ==> r.value < |s| && s[r.value] == x && x !in s[..r.value]
  {
    if s == [] then None
    else if s[0] == x then Some(0)
    else
      match Find(s[1..], x)
      case None => None
      case Some(i) =>
        assert s[1..][..i] == s[1..i + 1];
        Some(i + 1)
  }

  /** `unset($s[$i])` followed by `array_values`: drop the element at `i`, keep the order. */
  function RemoveAt<T>(s: seq<T>, i: nat): (r: seq<T>)
    requires i < |s|
    ensures |r| == |s| - 1
    ensures forall j :: 0 <= j < i ==> r[j] == s[j]
    ensures forall j :: i <= j < |r| ==> r[j] == s[j + 1]
  {
    s[..i] + s[i + 1..]
  }

  /** In a duplicate-free list, removing the element at `i` removes exactly that value. */
  lemma {:induction false} RemoveAtDupFree<T>(s: seq<T>, i: nat)
    requires i < |s| && DupFree(s)
    ensures DupFree(RemoveAt(s, i))
    ensures forall y :: y in RemoveAt(s, i) <==> y in s && y != s[i]
  {
    var r := RemoveAt(s, i);
    forall y ensures y in r <==> y in s && y != s[i] {
      if y in r {
        var j :| 0 <= j < |r| && r[j] == y;
        if j < i { assert s[j] == y; } else { assert s[j + 1] == y; }
      }
      if y in s && y != s[i] {
        var j :| 0 <= j < |s| && s[j] == y;
        if j < i { assert r[j] == y; } else { assert j > i && r[j - 1] == y; }
      }
    }
  }

  /** Appending an element leaves the first position of every value already present alone, and
      gives a new value the last position. */
  lemma FindAppend<T>(s: seq<T>, a: T, x: T)
    ensures Find(s + [a], x) == if x in s then Find(s, x) else if x == a then Some(|s|) else None
  {
    var t := s + [a];
    match Find(t, x)
    case None =>
    case Some(p) =>
      assert t[..p] == if p <= |s| then s[..p] else s;
  }

  /** The elements of `r`, all of them in `s`, come in the order of their first positions in `s`. */
  ghost predicate InFirstOrder<T>(r: seq<T>, s: seq<T>)
  {
    forall i, j :: 0 <= i < j < |r| ==> r[i] in s && r[j] in s && Find(s, r[i]).value < Find(s, r[j]).value
  }

  /** `array_unique` followed by `array_values`: keep the first occurrence of each value. */
  function Dedup<T(==,!new)>(s: seq<T>): (r: seq<T>)
    ensures DupFree(r)
    ensures forall y :: y in r <==> y in s
    ensures |r| <= |s|
  {
    if s == [] then []
    else
      var d := Dedup(s[..|s| - 1]);
      assert forall y :: y in s <==> y in s[..|s| - 1] || y == s[|s| - 1] by {
        assert s == s[..|s| - 1] + [s[|s| - 1]];
      }
      if s[|s| - 1] in d then d else d + [s[|s| - 1]]
  }

  /** The kept values come in the order of their first occurrences. */
  lemma {:induction false} DedupInFirstOrder<T(!new)>(s: seq<T>)
    ensures InFirstOrder(Dedup(s), s)
  {
    if s != [] {
      var init, last := s[..|s| - 1], s[|s| - 1];
      assert s == init + [last];
      DedupInFirstOrder(init);
      var d := Dedup(init);
      forall y | y in init ensures Find(s, y) == Find(init, y) {
        FindAppend(init, last, y);
      }
      if last !in d {
        FindAppend(init, last, last);
        var r := d + [last];
        forall i, j | 0 <= i < j < |r|
          ensures r[i] in s && r[j] in s && Find(s, r[i]).value < Find(s, r[j]).value
        {
          if j < |d| { assert r[i] == d[i] && r[j] == d[j]; }
          else { assert r[i] == d[i] && r[i] in init; }
        }
      }
    }
  }

  /** `array_unique` does nothing to a list that already has no duplicates. */
  lemma {:induction false} DedupOfDupFree<T(!new)>(s: seq<T>)
    requires DupFree(s)
    ensures Dedup(s) == s
  {
    if s != [] {
      var init, last := s[..|s| - 1], s[|s| - 1];
      assert s == init + [last];
      assert DupFree(init);
      DedupOfDupFree(init);
      assert last !in init;
    }
  }
}
