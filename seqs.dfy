/** Sequence vocabulary shared by the notifier's components: duplicate-freedom,
    first occurrence, selection by positions and concatenation of batches. */
module Seqs {

  /** No element occurs twice in `s`. */
  ghost predicate NoDuplicates<T>(s: seq<T>) {
    forall i, j :: 0 <= i < j < |s| ==> s[i] != s[j]
  }

  /** Strictly ascending positions: the shape of a subsequence selection. */
  ghost predicate Ascending(idx: seq<nat>) {
    forall i, j :: 0 <= i < j < |idx| ==> idx[i] < idx[j]
  }

  /** Position of the first occurrence of `x` in `s`. */
  function FirstIndex<T(==)>(s: seq<T>, x: T): (k: nat)
    requires x in s
    ensures k < |s| && s[k] == x
    ensures forall j :: 0 <= j < k ==> s[j] != x
  {
    if s[0] == x then 0 else 1 + FirstIndex(s[1..], x)
  }

  /** Every element of `s` occurs in `names`, and `s` lists them in the order of
      their first occurrence in `names`. */
  ghost predicate FirstSeenOrder<T>(s: seq<T>, names: seq<T>) {
    && (forall x :: x in s ==> x in names)
    && forall i, j :: 0 <= i < j < |s| ==> FirstIndex(names, s[i]) < FirstIndex(names, s[j])
  }

  /** The elements of `s` at the positions `idx`, in the order of `idx`. */
  function Pick<T>(s: seq<T>, idx: seq<nat>): seq<T>
    requires forall k :: 0 <= k < |idx| ==> idx[k] < |s|
  {
    seq(|idx|, k requires 0 <= k < |idx| => s[idx[k]])
  }

  /** The batches of `ss` concatenated, batch after batch. */
  function Flatten<T>(ss: seq<seq<T>>): seq<T> {
    if ss == [] then [] else Flatten(ss[..|ss| - 1]) + ss[|ss| - 1]
  }

  /** The sum of the lengths of the batches of `ss`. */
  function TotalLength<T>(ss: seq<seq<T>>): nat {
    if ss == [] then 0 else TotalLength(ss[..|ss| - 1]) + |ss[|ss| - 1]|
  }

  /** Concatenation neither drops nor invents elements: its length is the sum
      of the batch lengths (duplicates included). */
  lemma {:induction false} FlattenLength<T>(ss: seq<seq<T>>)
    ensures |Flatten(ss)| == TotalLength(ss)
  {
    if ss != [] {
      FlattenLength(ss[..|ss| - 1]);
    }
  }

  /** An element is in the concatenation exactly when it is in some batch. */
  lemma {:induction false} FlattenMember<T>(ss: seq<seq<T>>, x: T)
    ensures x in Flatten(ss) <==> exists k :: 0 <= k < |ss| && x in ss[k]
  {
    if ss != [] {
      var init := ss[..|ss| - 1];
      FlattenMember(init, x);
      assert forall k :: 0 <= k < |init| ==> init[k] == ss[k];
    }
  }

  /** Concatenating two runs of batches concatenates their flattenings: the
      batches may be fetched and joined in any grouping. */
  lemma {:induction false} FlattenAppend<T>(a: seq<seq<T>>, b: seq<seq<T>>)
    ensures Flatten(a + b) == Flatten(a) + Flatten(b)
  {
    if b == [] {
      assert a + b == a;
    } else {
      var init := b[..|b| - 1];
      assert (a + b)[..|a + b| - 1] == a + init;
      FlattenAppend(a, init);
    }
  }
}
