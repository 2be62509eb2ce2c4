/**
  Order-preserving de-duplication, the effect of `dict.fromkeys(items)`
  on a list and of `dict.setdefault` on a dict's key order: every item
  kept once, at its first occurrence.
*/
module Seqs {

  /** No item occurs twice. */
  predicate NoDup<T(==)>(s: seq<T>) {
    forall i, j :: 0 <= i < j < |s| ==> s[i] != s[j]
  }

  /** The position of the first occurrence of `x`. */
  function FirstPos<T(==)>(s: seq<T>, x: T): (i: nat)
    requires x in s
    ensures i < |s| && s[i] == x && x !in s[..i]
  {
    if s[0] == x then 0
    else
      var j := FirstPos(s[1..], x);
      assert s[1..][..j] == s[1..j + 1];
      j + 1
  }

  /** An occurrence with no earlier occurrence is the first one. */
  lemma FirstPosUnique<T>(s: seq<T>, x: T, i: nat)
    requires i < |s| && s[i] == x && x !in s[..i]
    ensures FirstPos(s, x) == i
  {
  }

  /** The distinct items of `s`, each at its first occurrence (defined by extending a prefix). */
  function Dedup<T(==,!new)>(s: seq<T>): (d: seq<T>)
    ensures |d| <= |s|
    ensures forall x :: x in d <==> x in s
    ensures NoDup(d)
  {
    if s == [] then []
    else
      var prev := Dedup(s[..|s| - 1]);
      assert forall x :: x in s <==> x in s[..|s| - 1] || x == s[|s| - 1];
      if s[|s| - 1] in prev then prev else prev + [s[|s| - 1]]
  }

  /** The first occurrence of an item of a prefix lies within that prefix. */
  lemma FirstPosPrefix<T>(s: seq<T>, k: nat, x: T)
    requires k <= |s| && x in s[..k]
    ensures FirstPos(s, x) == FirstPos(s[..k], x)
  {
    var i := FirstPos(s[..k], x);
    assert s[..k][..i] == s[..i];
    FirstPosUnique(s, x, i);
  }

  /** Kept items appear in the order of their first occurrences. */
  lemma {:induction false} DedupKeepsFirstOrder<T(!new)>(s: seq<T>)
    ensures forall i, j :: 0 <= i < j < |Dedup(s)| ==> FirstPos(s, Dedup(s)[i]) < FirstPos(s, Dedup(s)[j])
  {
    if s != [] {
      var n := |s| - 1;
      var p := s[..n];
      var prev := Dedup(p);
      DedupKeepsFirstOrder(p);
      forall x | x in prev
        ensures FirstPos(s, x) == FirstPos(p, x) < n
      {
        FirstPosPrefix(s, n, x);
      }
      if s[n] !in prev {
        assert s[n] !in p;
        assert s[..n] == p;
        FirstPosUnique(s, s[n], n);
      }
      var d := Dedup(s);
      forall i, j | 0 <= i < j < |d|
        ensures FirstPos(s, d[i]) < FirstPos(s, d[j])
      {
        assert d[i] in prev;
        if j < |prev| {
          assert d[j] in prev;
        }
      }
    }
  }

  /** Adding an item already present changes nothing; a new one is appended. */
  lemma DedupSnoc<T(!new)>(s: seq<T>, x: T)
    ensures Dedup(s + [x]) == if x in Dedup(s) then Dedup(s) else Dedup(s) + [x]
  {
    assert (s + [x])[..|s|] == s;
  }
}
