/** Facts about Python lists viewed as sequences. */
module Sequences {

  /** No element occurs twice. */
  predicate NoDuplicates<T(==)>(s: seq<T>) {
    forall i, j :: 0 <= i < j < |s| ==> s[i] != s[j]
  }

  /** `if x not in s: s.append(x)` */
  function AppendIfAbsent<T(==)>(s: seq<T>, x: T): (r: seq<T>)
    ensures x in r
    ensures |s| <= |r| <= |s| + 1 && r[..|s|] == s
    ensures multiset(r) == if x in s then multiset(s) else multiset(s) + multiset{x}
    ensures NoDuplicates(s) ==> NoDuplicates(r)
  {
    if x in s then s else s + [x]
  }

  /** The position of the first occurrence of `x`. */
  function FirstIndex<T(==)>(s: seq<T>, x: T): (p: nat)
    requires x in s
    ensures p < |s| && s[p] == x
    ensures forall j :: 0 <= j < p ==> s[j] != x
  {
    if s[0] == x then 0 else 1 + FirstIndex(s[1..], x)
  }

  /** In a list without duplicates, the first occurrence is the only one. */
  lemma FirstIndexUnique<T>(s: seq<T>, i: int)
    requires NoDuplicates(s) && 0 <= i < |s|
    ensures FirstIndex(s, s[i]) == i
  {
  }

  /** Python's `s.remove(x)`: drops the first occurrence of `x`. */
  function RemoveFirst<T(==)>(s: seq<T>, x: T): (r: seq<T>)
    requires x in s
    ensures |r| == |s| - 1
    ensures r == s[..FirstIndex(s, x)] + s[FirstIndex(s, x) + 1..]
  {
    if s[0] == x then s[1..]
    else
      var rest := RemoveFirst(s[1..], x);
      assert s == [s[0]] + s[1..];
      [s[0]] + rest
  }

  /** Dropping one position keeps a list free of duplicates. */
  lemma NoDuplicatesRemoveAt<T>(s: seq<T>, p: int)
    requires NoDuplicates(s) && 0 <= p < |s|
    ensures NoDuplicates(s[..p] + s[p + 1..])
  {
    var r := s[..p] + s[p + 1..];
    forall i, j | 0 <= i < j < |r|
      ensures r[i] != r[j]
    {
      var i' := if i < p then i else i + 1;
      var j' := if j < p then j else j + 1;
      assert r[i] == s[i'] && r[j] == s[j'];
    }
  }

  /** `pos` lists, in increasing order, the positions of `b` that `a` is made of. */
  ghost predicate Embeds<T>(a: seq<T>, b: seq<T>, pos: seq<int>) {
    && |pos| == |a|
    && (forall t :: 0 <= t < |pos| ==> 0 <= pos[t] < |b| && a[t] == b[pos[t]])
    && (forall t, u :: 0 <= t < u < |pos| ==> pos[t] < pos[u])
  }

  /** `a` is `b` with some elements left out, the rest in their order. */
  ghost predicate IsSubsequence<T>(a: seq<T>, b: seq<T>) {
    exists pos :: Embeds(a, b, pos)
  }

  /** Every sequence embeds into itself position by position. */
  lemma EmbedsSelf<T>(s: seq<T>) returns (pos: seq<int>)
    ensures Embeds(s, s, pos)
    ensures forall q :: 0 <= q < |s| ==> q in pos
  {
    pos := seq(|s|, q => q);
    forall q | 0 <= q < |s|
      ensures q in pos
    {
      assert pos[q] == q;
    }
  }

  /** Removing one element of `a` removes exactly its position from the embedding. */
  lemma EmbedsRemoveAt<T>(a: seq<T>, b: seq<T>, pos: seq<int>, p: int)
    requires Embeds(a, b, pos) && 0 <= p < |a|
    ensures Embeds(a[..p] + a[p + 1..], b, pos[..p] + pos[p + 1..])
    ensures forall q :: q in pos && q !in pos[..p] + pos[p + 1..] ==> q == pos[p]
  {
    var pos' := pos[..p] + pos[p + 1..];
    forall q | q in pos && q != pos[p]
      ensures q in pos'
    {
      var t :| 0 <= t < |pos| && pos[t] == q;
      if t < p {
        assert pos'[t] == q;
      } else {
        assert pos'[t - 1] == q;
      }
    }
  }

  /** A sequence embedded into one without duplicates has none either. */
  lemma EmbedsNoDuplicates<T>(a: seq<T>, b: seq<T>, pos: seq<int>)
    requires Embeds(a, b, pos) && NoDuplicates(b)
    ensures NoDuplicates(a)
  {
    forall i, j | 0 <= i < j < |a|
      ensures a[i] != a[j]
    {
      assert pos[i] < pos[j];
    }
  }
}
