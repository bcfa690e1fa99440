/** Facts about sequences, stated where the verifier should not have to find them. */
module Sequences {

  lemma Regroup<T>(a: seq<T>, b: seq<T>, c: seq<T>)
    ensures a + b + c == a + (b + c)
  {
  }

  lemma RegroupFour<T>(a: seq<T>, b: seq<T>, c: seq<T>, d: seq<T>)
    ensures a + b + c + d == a + (b + (c + d))
  {
  }

  /** Element i of the part is the one s further on in the whole. */
  ghost predicate AgreeAt<T>(w: seq<T>, s: nat, part: seq<T>, i: nat) {
    i < |part| && s + i < |w| && w[s + i] == part[i]
  }

  lemma SliceIs<T>(w: seq<T>, s: nat, e: nat, part: seq<T>)
    requires s <= e <= |w| && |part| == e - s && forall i: nat :: i < |part| ==> AgreeAt(w, s, part, i)
    ensures w[s..e] == part
  {
    forall i | 0 <= i < |part|
      ensures w[s..e][i] == part[i]
    {
      assert AgreeAt(w, s, part, i);
    }
  }

  lemma SliceJoin<T>(ls: seq<T>, a: nat, b: nat, c: nat)
    requires a <= b <= c <= |ls|
    ensures ls[a..b] + ls[b..c] == ls[a..c]
  {
  }
}
