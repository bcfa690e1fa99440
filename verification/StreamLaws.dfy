/** When two streams of documents are rewritten alike, and when rewriting again changes nothing. */
module StreamLaws {
  import opened Sequences
  import opened DocumentStream

  /** The two streams have separators and blank lines at the same places. */
  ghost predicate SameShape<T(!new)>(r: Rules<T>, a: seq<T>, b: seq<T>) {
    |a| == |b| && forall k: nat :: k < |a| ==> SameKindAt(r, a, b, k)
  }

  ghost predicate SameKindAt<T(!new)>(r: Rules<T>, a: seq<T>, b: seq<T>, k: nat)
    requires k < |a| && k < |b|
  {
    r.isSeparator(a[k]) == r.isSeparator(b[k]) && r.isBlank(a[k]) == r.isBlank(b[k])
  }

  lemma SameKinds<T(!new)>(r: Rules<T>, a: seq<T>, b: seq<T>)
    requires SameShape(r, a, b)
    ensures forall k :: 0 <= k < |a| ==> r.isSeparator(a[k]) == r.isSeparator(b[k]) && r.isBlank(a[k]) == r.isBlank(b[k])
  {
    forall k: nat | k < |a|
      ensures r.isSeparator(a[k]) == r.isSeparator(b[k]) && r.isBlank(a[k]) == r.isBlank(b[k])
    {
      assert SameKindAt(r, a, b, k);
    }
  }

  lemma SameBounds<T(!new)>(r: Rules<T>, a: seq<T>, b: seq<T>, k: nat)
    requires SameShape(r, a, b) && k <= |a|
    ensures DocStart(r, a, k) == DocStart(r, b, k) && DocEnd(r, a, k) == DocEnd(r, b, k)
  {
    SameKinds(r, a, b);
    DocStartIs(r, a, k, DocStart(r, b, k));
    DocEndIs(r, a, k, DocEnd(r, b, k));
  }

  lemma SameEnding<T(!new)>(r: Rules<T>, a: seq<T>, b: seq<T>)
    requires Proper(r) && SameShape(r, a, b)
    ensures EndsInSeparator(r, a) == EndsInSeparator(r, b)
  {
    SameKinds(r, a, b);
    EndsInSeparatorIff(r, a);
    EndsInSeparatorIff(r, b);
    if i :| BlankAfter(r, a, i) {
      assert BlankAfter(r, b, i);
    }
    if i :| BlankAfter(r, b, i) {
      assert BlankAfter(r, a, i);
    }
  }

  /** Lines of one document have the same lines around them. */
  lemma SameDoc<T(!new)>(r: Rules<T>, ls: seq<T>, k: nat, m: nat)
    requires k < |ls| && !r.isSeparator(ls[k]) && DocStart(r, ls, k) <= m < DocEnd(r, ls, k)
    ensures DocAround(r, ls, m) == DocAround(r, ls, k) && !r.isSeparator(ls[m])
  {
    DocStartIs(r, ls, m, DocStart(r, ls, k));
    DocEndIs(r, ls, m, DocEnd(r, ls, k));
  }

  /** Line k is rewritten alike in both streams. */
  ghost predicate AlikeAt<T(!new)>(r: Rules<T>, a: seq<T>, b: seq<T>, k: nat)
    requires k < |a| && k < |b|
  {
    if r.isSeparator(a[k]) then a[k] == b[k]
    else r.rewrite(DocAround(r, a, k), a[k]) == r.rewrite(DocAround(r, b, k), b[k])
         && r.terminates(DocAround(r, a, k), a[k]) == r.terminates(DocAround(r, b, k), b[k])
  }

  lemma AlikeLine<T(!new)>(r: Rules<T>, a: seq<T>, b: seq<T>, k: nat)
    requires k < |a| == |b| && SameKindAt(r, a, b, k) && AlikeAt(r, a, b, k)
    ensures RewriteAt(r, a, k) == RewriteAt(r, b, k) && TerminatesAt(r, a, k) == TerminatesAt(r, b, k)
  {
  }

  lemma AlikeRewritten<T(!new)>(r: Rules<T>, a: seq<T>, b: seq<T>)
    requires SameShape(r, a, b) && forall k: nat :: k < |a| ==> AlikeAt(r, a, b, k)
    ensures Rewritten(r, a) == Rewritten(r, b)
  {
    forall k: nat | k < |a|
      ensures Rewritten(r, a)[k] == Rewritten(r, b)[k]
    {
      AlikeLine(r, a, b, k);
    }
  }

  lemma AlikeLast<T(!new)>(r: Rules<T>, a: seq<T>, b: seq<T>)
    requires SameShape(r, a, b) && forall k: nat :: k < |a| ==> AlikeAt(r, a, b, k)
    ensures LastTerminates(r, a) == LastTerminates(r, b)
  {
    if a != [] {
      AlikeLine(r, a, b, |a| - 1);
    }
  }

  lemma AlikeStreams<T(!new)>(r: Rules<T>, a: seq<T>, b: seq<T>)
    requires BlindToBlanks(r) && SameShape(r, a, b) && forall k: nat :: k < |a| ==> AlikeAt(r, a, b, k)
    ensures RewriteParts(r, Split(r, a)) == RewriteParts(r, Split(r, b))
  {
    RewriteClosedForm(r, a);
    RewriteClosedForm(r, b);
    SameEnding(r, a, b);
    AlikeRewritten(r, a, b);
    AlikeLast(r, a, b);
  }

  // ---------- Rewriting again ----------

  /** Rewriting keeps separators and blank lines apart from text, and is settled by one pass. */
  ghost predicate Settles<T(!new)>(r: Rules<T>) {
    && (forall doc, l :: KeepsKind(r, doc, l))
    && (forall doc, l, more :: AllBlank(r, more) ==> Settled(r, doc, l, more))
  }

  ghost predicate KeepsKind<T(!new)>(r: Rules<T>, doc: seq<T>, l: T) {
    && r.isBlank(r.rewrite(doc, l)) == r.isBlank(l)
    && (!r.isSeparator(l) ==> !r.isSeparator(r.rewrite(doc, l)))
    && (r.terminates(doc, l) || r.rewrite(doc, l) == l)
  }

  /** In the rewritten document, with blank lines after it, a rewritten line stays as it is. */
  ghost predicate Settled<T(!new)>(r: Rules<T>, doc: seq<T>, l: T, more: seq<T>) {
    var doc' := RewriteAll(r, doc, doc) + more;
    && r.rewrite(doc', r.rewrite(doc, l)) == r.rewrite(doc, l)
    && (!r.terminates(doc, l) ==> !r.terminates(doc', l))
  }

  /** The stream without the newline it gained has the shape of the original. */
  lemma RewrittenShape<T(!new)>(r: Rules<T>, ls: seq<T>)
    requires BlindToBlanks(r) && Settles(r)
    ensures SameShape(r, ls, Rewritten(r, ls))
  {
    forall k: nat | k < |ls|
      ensures SameKindAt(r, ls, Rewritten(r, ls), k)
    {
      assert KeepsKind(r, DocAround(r, ls, k), ls[k]);
    }
  }

  lemma LongerBounds<T(!new)>(r: Rules<T>, ls: seq<T>, l: T, k: nat)
    requires k < |ls| && !r.isSeparator(l)
    ensures DocStart(r, ls + [l], k) == DocStart(r, ls, k)
    ensures DocEnd(r, ls + [l], k) == if DocEnd(r, ls, k) == |ls| then |ls| + 1 else DocEnd(r, ls, k)
  {
    assert forall m :: 0 <= m < |ls| ==> (ls + [l])[m] == ls[m];
    DocStartIs(r, ls + [l], k, DocStart(r, ls, k));
    DocEndIs(r, ls + [l], k, if DocEnd(r, ls, k) == |ls| then |ls| + 1 else DocEnd(r, ls, k));
  }

  lemma RewrittenBounds<T(!new)>(r: Rules<T>, ls: seq<T>, k: nat)
    requires BlindToBlanks(r) && Settles(r) && k < |ls|
    ensures DocStart(r, Rewritten(r, ls), k) == DocStart(r, ls, k) && DocEnd(r, Rewritten(r, ls), k) == DocEnd(r, ls, k)
    ensures r.isSeparator(Rewritten(r, ls)[k]) == r.isSeparator(ls[k])
  {
    RewrittenShape(r, ls);
    SameBounds(r, ls, Rewritten(r, ls), k);
    assert SameKindAt(r, ls, Rewritten(r, ls), k);
  }

  /** The lines around a rewritten line are the rewritten lines around it. */
  lemma RewrittenAround<T(!new)>(r: Rules<T>, ls: seq<T>, k: nat)
    requires BlindToBlanks(r) && Settles(r) && k < |ls| && !r.isSeparator(ls[k])
    ensures DocAround(r, Rewritten(r, ls), k) == RewriteAll(r, DocAround(r, ls, k), DocAround(r, ls, k))
  {
    RewrittenBounds(r, ls, k);
    var s, e, doc, w := DocStart(r, ls, k), DocEnd(r, ls, k), DocAround(r, ls, k), Rewritten(r, ls);
    forall i: nat | i < |doc|
      ensures AgreeAt(w, s, RewriteAll(r, doc, doc), i)
    {
      LineOfDoc(r, ls, k, i);
    }
    SliceIs(w, s, e, RewriteAll(r, doc, doc));
  }

  lemma LineOfDoc<T(!new)>(r: Rules<T>, ls: seq<T>, k: nat, i: nat)
    requires k < |ls| && !r.isSeparator(ls[k]) && i < |DocAround(r, ls, k)|
    ensures var m := DocStart(r, ls, k) + i;
            m < |ls| && ls[m] == DocAround(r, ls, k)[i] && RewriteAt(r, ls, m) == r.rewrite(DocAround(r, ls, k), ls[m])
  {
    SameDoc(r, ls, k, DocStart(r, ls, k) + i);
  }

  lemma AroundWithEmpty<T(!new)>(r: Rules<T>, w: seq<T>, k: nat) returns (more: seq<T>)
    requires Proper(r) && r.isBlank(r.empty) && k < |w|
    ensures AllBlank(r, more) && DocAround(r, w + [r.empty], k) == DocAround(r, w, k) + more
  {
    LongerBounds(r, w, r.empty, k);
    var s, e := DocStart(r, w, k), DocEnd(r, w, k);
    more := if e == |w| then [r.empty] else [];
    assert (w + [r.empty])[s..if e == |w| then e + 1 else e] == w[s..e] + more;
  }

  lemma AroundInOutput<T(!new)>(r: Rules<T>, ls: seq<T>, gained: bool, k: nat) returns (more: seq<T>)
    requires BlindToBlanks(r) && Settles(r) && k < |ls| && !r.isSeparator(ls[k])
    ensures var doc := DocAround(r, ls, k);
            AllBlank(r, more) && DocAround(r, Rewritten(r, ls) + Newline(r, gained), k) == RewriteAll(r, doc, doc) + more
  {
    RewrittenAround(r, ls, k);
    if gained {
      more := AroundWithEmpty(r, Rewritten(r, ls), k);
    } else {
      more := [];
      assert Rewritten(r, ls) + [] == Rewritten(r, ls);
    }
  }

  lemma OutputLineSettled<T(!new)>(r: Rules<T>, ls: seq<T>, gained: bool, k: nat)
    requires BlindToBlanks(r) && Settles(r) && k < |ls|
    ensures var out := Rewritten(r, ls) + Newline(r, gained);
            && RewriteAt(r, out, k) == out[k]
            && (!r.isSeparator(ls[k]) && !r.terminates(DocAround(r, ls, k), ls[k]) ==> !r.terminates(DocAround(r, out, k), out[k]))
  {
    RewrittenBounds(r, ls, k);
    if !r.isSeparator(ls[k]) {
      assert KeepsKind(r, DocAround(r, ls, k), ls[k]);
      var more := AroundInOutput(r, ls, gained, k);
      assert Settled(r, DocAround(r, ls, k), ls[k], more);
    }
  }

  lemma BlankLineKeepsEnding<T(!new)>(r: Rules<T>, w: seq<T>, l: T)
    requires Proper(r) && r.isBlank(l)
    ensures EndsInSeparator(r, w + [l]) == EndsInSeparator(r, w)
  {
    var out := w + [l];
    EndsInSeparatorIff(r, w);
    EndsInSeparatorIff(r, out);
    if i :| BlankAfter(r, w, i) {
      assert BlankAfter(r, out, i);
    }
    if i :| BlankAfter(r, out, i) {
      assert out[|w|] == l && i < |w|;
      assert forall k :: i < k < |w| ==> w[k] == out[k];
      assert BlankAfter(r, w, i);
    }
  }

  lemma OutputEnding<T(!new)>(r: Rules<T>, ls: seq<T>, gained: bool)
    requires BlindToBlanks(r) && Settles(r)
    ensures EndsInSeparator(r, Rewritten(r, ls) + Newline(r, gained)) == EndsInSeparator(r, ls)
  {
    var w := Rewritten(r, ls);
    RewrittenShape(r, ls);
    SameEnding(r, ls, w);
    if gained {
      BlankLineKeepsEnding(r, w, r.empty);
    } else {
      assert w + [] == w;
    }
  }

  lemma OutputSettled<T(!new)>(r: Rules<T>, ls: seq<T>, gained: bool)
    requires BlindToBlanks(r) && Settles(r)
    ensures var out := Rewritten(r, ls) + Newline(r, gained);
            Rewritten(r, out) == out
  {
    var out := Rewritten(r, ls) + Newline(r, gained);
    forall k: nat | k < |out|
      ensures RewriteAt(r, out, k) == out[k]
    {
      if k < |ls| {
        OutputLineSettled(r, ls, gained, k);
      } else {
        assert LeavesAlone(r, DocAround(r, out, k), out[k]);
      }
    }
  }

  lemma OutputLastSettled<T(!new)>(r: Rules<T>, ls: seq<T>, gained: bool)
    requires BlindToBlanks(r) && Settles(r) && (LastTerminates(r, ls) ==> gained)
    ensures !LastTerminates(r, Rewritten(r, ls) + Newline(r, gained))
  {
    var out := Rewritten(r, ls) + Newline(r, gained);
    if gained {
      assert out[|out| - 1] == r.empty;
      assert LeavesAlone(r, DocAround(r, out, |out| - 1), r.empty);
    } else if ls != [] {
      RewrittenBounds(r, ls, |ls| - 1);
      OutputLineSettled(r, ls, gained, |ls| - 1);
      assert out[|ls| - 1] == Rewritten(r, ls)[|ls| - 1];
    }
  }

  /**
   Rewriting the output again leaves it as it is exactly when the stream does not end in
   a separator; otherwise each pass adds one more newline.
   */
  lemma RewritingAgain<T(!new)>(r: Rules<T>, ls: seq<T>)
    requires BlindToBlanks(r) && Settles(r)
    ensures var out := RewriteParts(r, Split(r, ls));
            RewriteParts(r, Split(r, out)) == out + Newline(r, EndsInSeparator(r, ls))
  {
    var gained := GainsNewline(r, ls);
    var out := Rewritten(r, ls) + Newline(r, gained);
    RewriteClosedForm(r, ls);
    RewriteClosedForm(r, out);
    OutputEnding(r, ls, gained);
    OutputSettled(r, ls, gained);
    OutputLastSettled(r, ls, gained);
  }
}
