/**
 * Sequence operations shared by the model: `Array.prototype.filter` and the
 * de-duplication done by `Array.from(new Set(...))`.
 */
module Seqs {

  predicate NoDups<T(==)>(s: seq<T>)
  {
    forall i, j :: 0 <= i < j < |s| ==> s[i] != s[j]
  }

  /** `s.filter(p)`: the elements satisfying `p`, in their original order. */
  function Keep<T>(s: seq<T>, p: T -> bool): (r: seq<T>)
    ensures |r| <= |s|
    ensures forall x :: x in r ==> x in s && p(x)
  {
    if s == [] then []
    else Keep(s[..|s| - 1], p) + (if p(s[|s| - 1]) then [s[|s| - 1]] else [])
  }

  /** The positions of `s` whose elements `Keep(s, p)` retains. */
  function KeptIndices<T>(s: seq<T>, p: T -> bool): (r: seq<nat>)
    ensures |r| == |Keep(s, p)|
  {
    if s == [] then []
    else KeptIndices(s[..|s| - 1], p) + (if p(s[|s| - 1]) then [|s| - 1] else [])
  }

  /**
   * `Keep(s, p)` is an order-preserving subsequence of `s` that retains
   * exactly the elements satisfying `p`: the kept positions are strictly
   * increasing, they are exactly the positions whose element satisfies `p`,
   * and the k-th kept element is the element at the k-th kept position.
   */
  lemma {:induction false} KeepIsSubsequence<T>(s: seq<T>, p: T -> bool)
    ensures forall k :: 0 <= k < |KeptIndices(s, p)| ==>
      KeptIndices(s, p)[k] < |s| && Keep(s, p)[k] == s[KeptIndices(s, p)[k]]
    ensures forall k, l :: 0 <= k < l < |KeptIndices(s, p)| ==> KeptIndices(s, p)[k] < KeptIndices(s, p)[l]
    ensures forall i :: 0 <= i < |s| ==> (i in KeptIndices(s, p) <==> p(s[i]))
  {
    if s != [] {
      var s', n := s[..|s| - 1], |s| - 1;
      KeepIsSubsequence(s', p);
      var r', k' := KeptIndices(s', p), Keep(s', p);
      var r, kept := KeptIndices(s, p), Keep(s, p);
      assert r == r' + (if p(s[n]) then [n] else []);
      assert kept == k' + (if p(s[n]) then [s[n]] else []);
      forall k | 0 <= k < |r| ensures r[k] < |s| && kept[k] == s[r[k]] {
        if k < |r'| {
          assert s'[r'[k]] == s[r'[k]];
        }
      }
      forall i | 0 <= i < |s| ensures i in r <==> p(s[i]) {
        if i < n {
          assert s'[i] == s[i];
          assert i in r <==> i in r';
        } else {
          assert n !in r';
        }
      }
    }
  }

  /** A predicate every element satisfies keeps the whole sequence. */
  lemma {:induction false} KeepAll<T>(s: seq<T>, p: T -> bool)
    requires forall x :: x in s ==> p(x)
    ensures Keep(s, p) == s
  {
    if s != [] {
      KeepAll(s[..|s| - 1], p);
      assert s == s[..|s| - 1] + [s[|s| - 1]];
    }
  }

  /** A predicate that fails at position `k` alone keeps the sequence with that position cut out. */
  lemma {:induction false} KeepCutOne<T>(s: seq<T>, p: T -> bool, k: nat)
    requires k < |s| && !p(s[k])
    requires forall i :: 0 <= i < |s| && i != k ==> p(s[i])
    ensures Keep(s, p) == s[..k] + s[k + 1..]
  {
    var init := s[..|s| - 1];
    if k == |s| - 1 {
      KeepAll(init, p);
      assert s[..k] + s[k + 1..] == init;
    } else {
      KeepCutOne(init, p, k);
      assert s[..k] + s[k + 1..] == (init[..k] + init[k + 1..]) + [s[|s| - 1]];
    }
  }

  /** Keeping with a predicate no element satisfies gives the empty sequence. */
  lemma KeepNone<T>(s: seq<T>, p: T -> bool)
    requires forall x :: x in s ==> !p(x)
    ensures Keep(s, p) == []
  {
  }

  /** Keeping preserves the absence of duplicates. */
  lemma KeepNoDups<T>(s: seq<T>, p: T -> bool)
    requires NoDups(s)
    ensures NoDups(Keep(s, p))
  {
    KeepIsSubsequence(s, p);
    var r, idx := Keep(s, p), KeptIndices(s, p);
    forall k, l | 0 <= k < l < |r| ensures r[k] != r[l] {
      assert idx[k] < idx[l];
    }
  }

  /** Two sequences that agree wherever `p` holds of either of them keep the same elements. */
  lemma {:induction false} KeepAgree<T>(s: seq<T>, t: seq<T>, p: T -> bool)
    requires |s| == |t|
    requires forall i :: 0 <= i < |s| ==> s[i] == t[i] || (!p(s[i]) && !p(t[i]))
    ensures Keep(s, p) == Keep(t, p)
  {
    if s != [] {
      KeepAgree(s[..|s| - 1], t[..|t| - 1], p);
    }
  }

  /** The distinct elements of `s`, each once. */
  function Dedup<T(==)>(s: seq<T>): (r: seq<T>)
    ensures NoDups(r)
    ensures forall i :: 0 <= i < |r| ==> r[i] in s
    ensures forall i :: 0 <= i < |s| ==> s[i] in r
  {
    if s == [] then []
    else
      var d := Dedup(s[..|s| - 1]);
      assert forall i :: 0 <= i < |s| - 1 ==> s[i] == s[..|s| - 1][i];
      if s[|s| - 1] in d then d else d + [s[|s| - 1]]
  }
}
