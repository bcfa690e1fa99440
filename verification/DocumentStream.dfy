/**
 A stream of documents with separators between them, whatever its lines are: how it
 is split, joined again, and rewritten document by document. A separator takes the
 blank lines after it. The last line of a stream is the unterminated one; `empty` is
 the line that a final newline leaves there.
 */
module DocumentStream {
  import opened Sequences

  /** How lines are read and rewritten. */
  datatype Rules<!T(!new)> = Rules(
    isSeparator: T -> bool,
    isBlank: T -> bool,
    empty: T,
    rewrite: (seq<T>, T) -> T,       // a line, given the document it is in
    terminates: (seq<T>, T) -> bool) // whether rewriting the line ends it with a newline

  datatype Part<T> = Doc(lines: seq<T>) | Sep(lines: seq<T>)

  function FirstSeparator<T(!new)>(r: Rules<T>, ls: seq<T>): (i: nat)
    ensures i <= |ls| && (forall k :: 0 <= k < i ==> !r.isSeparator(ls[k])) && (i < |ls| ==> r.isSeparator(ls[i]))
  {
    if ls == [] || r.isSeparator(ls[0]) then 0 else 1 + FirstSeparator(r, ls[1..])
  }

  function BlankRun<T(!new)>(r: Rules<T>, ls: seq<T>): (n: nat)
    ensures n <= |ls| && (forall k :: 0 <= k < n ==> r.isBlank(ls[k])) && (n < |ls| ==> !r.isBlank(ls[n]))
  {
    if ls == [] || !r.isBlank(ls[0]) then 0 else 1 + BlankRun(r, ls[1..])
  }

  /** Where the part after the separator at i begins. */
  function AfterSeparator<T(!new)>(r: Rules<T>, ls: seq<T>, i: nat): (j: nat)
    requires i < |ls|
    ensures i < j <= |ls| && (forall k :: i < k < j ==> r.isBlank(ls[k])) && (j < |ls| ==> !r.isBlank(ls[j]))
  {
    var n := BlankRun(r, ls[i + 1..]);
    assert forall k :: i < k < i + 1 + n ==> ls[k] == ls[i + 1..][k - i - 1];
    i + 1 + n
  }

  /** A separator whose blank lines reach the end of the stream gets a newline of its own. */
  function Split<T(!new)>(r: Rules<T>, ls: seq<T>): seq<Part<T>>
    decreases |ls|
  {
    var i := FirstSeparator(r, ls);
    if i == |ls| then [Doc(ls)]
    else
      var j := AfterSeparator(r, ls, i);
      [Doc(ls[..i]), Sep(ls[i..j])] + if j == |ls| then [Doc([r.empty])] else Split(r, ls[j..])
  }

  function Joined<T>(parts: seq<Part<T>>): seq<T> {
    if parts == [] then [] else parts[0].lines + Joined(parts[1..])
  }

  function RewriteAll<T(!new)>(r: Rules<T>, doc: seq<T>, ls: seq<T>): (out: seq<T>)
    ensures |out| == |ls| && forall k :: 0 <= k < |ls| ==> out[k] == r.rewrite(doc, ls[k])
  {
    seq(|ls|, k requires 0 <= k < |ls| => r.rewrite(doc, ls[k]))
  }

  /** A document rewritten; when its last line is the unterminated one, rewriting that line may end it. */
  function RewriteDoc<T(!new)>(r: Rules<T>, doc: seq<T>, last: bool): seq<T> {
    RewriteAll(r, doc, doc) + if last && doc != [] && r.terminates(doc, doc[|doc| - 1]) then [r.empty] else []
  }

  function RewriteParts<T(!new)>(r: Rules<T>, parts: seq<Part<T>>): seq<T> {
    if parts == [] then []
    else (if parts[0].Sep? then parts[0].lines else RewriteDoc(r, parts[0].lines, |parts| == 1)) + RewriteParts(r, parts[1..])
  }

  lemma SliceShift<T>(ls: seq<T>, j: nat, s: nat, e: nat)
    requires j <= |ls| && s <= e <= |ls| - j
    ensures ls[j..][s..e] == ls[j + s..j + e]
  {
  }

  method SplitDocuments<T(!new)>(r: Rules<T>, ls: seq<T>) returns (parts: seq<Part<T>>)
    ensures parts == Split(r, ls)
  {
    parts := [];
    var rest := ls;
    while true
      invariant parts + Split(r, rest) == Split(r, ls)
      decreases |rest|
    {
      var i := FirstSeparator(r, rest);
      if i == |rest| {
        parts := parts + [Doc(rest)];
        return;
      }
      var j := AfterSeparator(r, rest, i);
      var found := [Doc(rest[..i]), Sep(rest[i..j])];
      if j == |rest| {
        Regroup(parts, found, [Doc([r.empty])]);
        parts := parts + found + [Doc([r.empty])];
        return;
      }
      Regroup(parts, found, Split(r, rest[j..]));
      parts, rest := parts + found, rest[j..];
    }
  }

  // ---------- Splitting is lossless, exactly when ----------

  /** The last separator of the stream, with the blank lines it takes, reaches the end. */
  function EndsInSeparator<T(!new)>(r: Rules<T>, ls: seq<T>): bool
    decreases |ls|
  {
    var i := FirstSeparator(r, ls);
    i < |ls| && (AfterSeparator(r, ls, i) == |ls| || EndsInSeparator(r, ls[AfterSeparator(r, ls, i)..]))
  }

  /** A blank line is no separator. */
  ghost predicate Proper<T(!new)>(r: Rules<T>) {
    forall l :: r.isBlank(l) ==> !r.isSeparator(l)
  }

  ghost predicate BlankAfter<T(!new)>(r: Rules<T>, ls: seq<T>, i: int) {
    0 <= i < |ls| && r.isSeparator(ls[i]) && forall k :: i < k < |ls| ==> r.isBlank(ls[k])
  }

  /** In other words: some separator is followed by blank lines only. */
  lemma {:induction false} EndsInSeparatorIff<T(!new)>(r: Rules<T>, ls: seq<T>)
    requires Proper(r)
    ensures EndsInSeparator(r, ls) <==> exists i :: BlankAfter(r, ls, i)
    decreases |ls|
  {
    var i := FirstSeparator(r, ls);
    if i < |ls| {
      var j := AfterSeparator(r, ls, i);
      if j == |ls| {
        assert BlankAfter(r, ls, i);
      } else {
        EndsInSeparatorIff(r, ls[j..]);
        BlankAfterShifts(r, ls, j);
      }
    }
  }

  lemma BlankAfterShifts<T(!new)>(r: Rules<T>, ls: seq<T>, j: nat)
    requires Proper(r) && j < |ls| && !r.isBlank(ls[j])
    ensures (exists i :: BlankAfter(r, ls, i)) <==> (exists i :: BlankAfter(r, ls[j..], i))
  {
    if m :| BlankAfter(r, ls, m) {
      assert BlankAfter(r, ls[j..], m - j);
    }
    if m :| BlankAfter(r, ls[j..], m) {
      assert BlankAfter(r, ls, m + j);
    }
  }

  lemma JoinedCons<T>(part: Part<T>, parts: seq<Part<T>>)
    ensures Joined([part] + parts) == part.lines + Joined(parts)
  {
    assert ([part] + parts)[1..] == parts;
  }

  lemma JoinedTwo<T>(a: Part<T>, b: Part<T>, parts: seq<Part<T>>)
    ensures Joined([a, b] + parts) == a.lines + b.lines + Joined(parts)
  {
    JoinedCons(b, parts);
    JoinedCons(a, [b] + parts);
    assert [a, b] + parts == [a] + ([b] + parts);
  }

  lemma JoinedOne<T>(a: Part<T>)
    ensures Joined([a]) == a.lines
  {
    assert [a][1..] == [];
  }

  lemma JoinedSplit<T(!new)>(r: Rules<T>, ls: seq<T>, j: nat)
    requires FirstSeparator(r, ls) < |ls| && j == AfterSeparator(r, ls, FirstSeparator(r, ls))
    ensures Joined(Split(r, ls)) == ls[..j] + if j == |ls| then [r.empty] else Joined(Split(r, ls[j..]))
  {
    var i := FirstSeparator(r, ls);
    SliceJoin(ls, 0, i, j);
    if j == |ls| {
      JoinedTwo(Doc(ls[..i]), Sep(ls[i..j]), [Doc([r.empty])]);
      JoinedOne(Doc([r.empty]));
    } else {
      JoinedTwo(Doc(ls[..i]), Sep(ls[i..j]), Split(r, ls[j..]));
    }
  }

  function Newline<T(!new)>(r: Rules<T>, gained: bool): seq<T> {
    if gained then [r.empty] else []
  }

  /**
   Splitting and joining again gives the stream back, except that a stream which ends
   in a separator, with nothing but blank lines after it, gains a newline.
   */
  lemma {:induction false} SplitIsLossless<T(!new)>(r: Rules<T>, ls: seq<T>)
    ensures Joined(Split(r, ls)) == ls + Newline(r, EndsInSeparator(r, ls))
    decreases |ls|
  {
    var i := FirstSeparator(r, ls);
    if i == |ls| {
      JoinedOne(Doc(ls));
    } else {
      var j := AfterSeparator(r, ls, i);
      JoinedSplit(r, ls, j);
      if j < |ls| {
        SplitIsLossless(r, ls[j..]);
        Regroup(ls[..j], ls[j..], Newline(r, EndsInSeparator(r, ls)));
        assert ls[..j] + ls[j..] == ls;
      }
    }
  }

  // ---------- The closed form ----------

  /** One past the last separator before line k, or 0. */
  function DocStart<T(!new)>(r: Rules<T>, ls: seq<T>, k: nat): (s: nat)
    requires k <= |ls|
    ensures s <= k && (forall m :: s <= m < k ==> !r.isSeparator(ls[m])) && (s > 0 ==> r.isSeparator(ls[s - 1]))
  {
    if k == 0 || r.isSeparator(ls[k - 1]) then k else DocStart(r, ls, k - 1)
  }

  /** The first separator at or after line k, or the end. */
  function DocEnd<T(!new)>(r: Rules<T>, ls: seq<T>, k: nat): (e: nat)
    requires k <= |ls|
    ensures k <= e <= |ls| && (forall m :: k <= m < e ==> !r.isSeparator(ls[m])) && (e < |ls| ==> r.isSeparator(ls[e]))
    decreases |ls| - k
  {
    if k == |ls| || r.isSeparator(ls[k]) then k else DocEnd(r, ls, k + 1)
  }

  /** The lines between the separators around line k. */
  function DocAround<T(!new)>(r: Rules<T>, ls: seq<T>, k: nat): seq<T>
    requires k < |ls|
  {
    ls[DocStart(r, ls, k)..DocEnd(r, ls, k)]
  }

  /** What becomes of line k, from the lines around it alone. */
  function RewriteAt<T(!new)>(r: Rules<T>, ls: seq<T>, k: nat): T
    requires k < |ls|
  {
    if r.isSeparator(ls[k]) then ls[k] else r.rewrite(DocAround(r, ls, k), ls[k])
  }

  function Rewritten<T(!new)>(r: Rules<T>, ls: seq<T>): (out: seq<T>)
    ensures |out| == |ls| && forall k :: 0 <= k < |ls| ==> out[k] == RewriteAt(r, ls, k)
  {
    seq(|ls|, k requires 0 <= k < |ls| => RewriteAt(r, ls, k))
  }

  /** A newline is gained after a final separator, and after a last line whose rewriting ends it. */
  ghost predicate GainsNewline<T(!new)>(r: Rules<T>, ls: seq<T>) {
    EndsInSeparator(r, ls) || LastTerminates(r, ls)
  }

  ghost predicate AllBlank<T(!new)>(r: Rules<T>, ls: seq<T>) {
    forall k :: 0 <= k < |ls| ==> r.isBlank(ls[k])
  }

  ghost predicate LeavesAlone<T(!new)>(r: Rules<T>, doc: seq<T>, l: T) {
    r.rewrite(doc, l) == l && !r.terminates(doc, l)
  }

  ghost predicate BlindTo<T(!new)>(r: Rules<T>, blanks: seq<T>, doc: seq<T>, l: T) {
    r.rewrite(blanks + doc, l) == r.rewrite(doc, l) && r.terminates(blanks + doc, l) == r.terminates(doc, l)
  }

  /** Leading blank lines do not change how a document is rewritten, and blank lines are left alone. */
  ghost predicate BlindToBlanks<T(!new)>(r: Rules<T>) {
    && Proper(r) && r.isBlank(r.empty)
    && (forall doc, l :: r.isBlank(l) ==> LeavesAlone(r, doc, l))
    && (forall blanks, doc, l :: AllBlank(r, blanks) ==> BlindTo(r, blanks, doc, l))
  }

  lemma DocStartIs<T(!new)>(r: Rules<T>, ls: seq<T>, k: nat, s: nat)
    requires s <= k <= |ls| && (forall m :: s <= m < k ==> !r.isSeparator(ls[m])) && (s > 0 ==> r.isSeparator(ls[s - 1]))
    ensures DocStart(r, ls, k) == s
  {
  }

  lemma DocEndIs<T(!new)>(r: Rules<T>, ls: seq<T>, k: nat, e: nat)
    requires k <= e <= |ls| && (forall m :: k <= m < e ==> !r.isSeparator(ls[m])) && (e < |ls| ==> r.isSeparator(ls[e]))
    ensures DocEnd(r, ls, k) == e
  {
  }

  /** No separator before i, and one at i unless the stream ends there. */
  ghost predicate FirstEnds<T(!new)>(r: Rules<T>, ls: seq<T>, i: nat) {
    i <= |ls| && (forall m :: 0 <= m < i ==> !r.isSeparator(ls[m])) && (i < |ls| ==> r.isSeparator(ls[i]))
  }

  /** A separator at i takes the blank lines up to j. */
  ghost predicate Gap<T(!new)>(r: Rules<T>, ls: seq<T>, i: nat, j: nat) {
    i < j <= |ls| && r.isSeparator(ls[i]) && forall m :: i < m < j ==> r.isBlank(ls[m]) && !r.isSeparator(ls[m])
  }

  /** In the first document the lines around k are all of it. */
  lemma FirstDocAround<T(!new)>(r: Rules<T>, ls: seq<T>, i: nat, k: nat)
    requires FirstEnds(r, ls, i) && k < i
    ensures DocAround(r, ls, k) == ls[..i]
  {
    DocStartIs(r, ls, k, 0);
    DocEndIs(r, ls, k, i);
  }

  lemma LaterEnd<T(!new)>(r: Rules<T>, ls: seq<T>, j: nat, k: nat)
    requires j <= k <= |ls|
    ensures DocEnd(r, ls, k) == j + DocEnd(r, ls[j..], k - j)
  {
    DocEndIs(r, ls, k, j + DocEnd(r, ls[j..], k - j));
  }

  lemma LaterStart<T(!new)>(r: Rules<T>, ls: seq<T>, i: nat, j: nat, k: nat)
    requires i < j <= k <= |ls| && r.isSeparator(ls[i]) && forall m :: i < m < j ==> !r.isSeparator(ls[m])
    ensures var s := DocStart(r, ls[j..], k - j);
            DocStart(r, ls, k) == if s > 0 then j + s else i + 1
  {
    var s := DocStart(r, ls[j..], k - j);
    DocStartIs(r, ls, k, if s > 0 then j + s else i + 1);
  }

  lemma LaterBounds<T(!new)>(r: Rules<T>, ls: seq<T>, i: nat, j: nat, k: nat)
    requires i < j <= k < |ls| && r.isSeparator(ls[i]) && forall m :: i < m < j ==> !r.isSeparator(ls[m])
    ensures var s := DocStart(r, ls[j..], k - j);
            DocAround(r, ls, k) == ls[if s > 0 then j + s else i + 1..j + DocEnd(r, ls[j..], k - j)]
  {
    LaterStart(r, ls, i, j, k);
    LaterEnd(r, ls, j, k);
  }

  /** After a separator the same lines are around k, unless they begin with the blank lines the separator takes. */
  lemma LaterDocAround<T(!new)>(r: Rules<T>, ls: seq<T>, i: nat, j: nat, k: nat) returns (extra: seq<T>)
    requires Gap(r, ls, i, j) && j <= k < |ls|
    ensures AllBlank(r, extra) && DocAround(r, ls, k) == extra + DocAround(r, ls[j..], k - j)
  {
    BlankSlice(r, ls, i + 1, j);
    LaterBounds(r, ls, i, j, k);
    extra := ExtraBlanks(r, ls, i + 1, j, k);
  }

  lemma ExtraBlanks<T(!new)>(r: Rules<T>, ls: seq<T>, i: nat, j: nat, k: nat) returns (extra: seq<T>)
    requires i <= j <= k < |ls| && AllBlank(r, ls[i..j])
    requires var s := DocStart(r, ls[j..], k - j);
             DocAround(r, ls, k) == ls[if s > 0 then j + s else i..j + DocEnd(r, ls[j..], k - j)]
    ensures AllBlank(r, extra) && DocAround(r, ls, k) == extra + DocAround(r, ls[j..], k - j)
  {
    var s, e := DocStart(r, ls[j..], k - j), DocEnd(r, ls[j..], k - j);
    SliceWithBlanks(ls, i, j, s, e);
    extra := if s > 0 then [] else ls[i..j];
  }

  lemma SliceWithBlanks<T>(ls: seq<T>, i: nat, j: nat, s: nat, e: nat)
    requires i <= j <= |ls| && s <= e <= |ls| - j
    ensures ls[if s > 0 then j + s else i..j + e] == (if s > 0 then [] else ls[i..j]) + ls[j..][s..e]
  {
    SliceShift(ls, j, s, e);
    SliceJoin(ls, i, j, j + e);
  }

  lemma BlankSlice<T(!new)>(r: Rules<T>, ls: seq<T>, s: nat, e: nat)
    requires s <= e <= |ls| && forall m :: s <= m < e ==> r.isBlank(ls[m])
    ensures AllBlank(r, ls[s..e])
  {
  }

  /** Line k is rewritten, and into a terminated line. */
  ghost predicate TerminatesAt<T(!new)>(r: Rules<T>, ls: seq<T>, k: nat)
    requires k < |ls|
  {
    !r.isSeparator(ls[k]) && r.terminates(DocAround(r, ls, k), ls[k])
  }

  lemma SameRewrite<T(!new)>(r: Rules<T>, ls: seq<T>, j: nat, k: nat, extra: seq<T>)
    requires BlindToBlanks(r) && j <= k < |ls| && AllBlank(r, extra)
    requires DocAround(r, ls, k) == extra + DocAround(r, ls[j..], k - j)
    ensures RewriteAt(r, ls, k) == RewriteAt(r, ls[j..], k - j) && TerminatesAt(r, ls, k) == TerminatesAt(r, ls[j..], k - j)
  {
    assert ls[j..][k - j] == ls[k];
    assert BlindTo(r, extra, DocAround(r, ls[j..], k - j), ls[k]);
  }

  lemma LaterRewrite<T(!new)>(r: Rules<T>, ls: seq<T>, i: nat, j: nat, k: nat)
    requires BlindToBlanks(r) && Gap(r, ls, i, j) && j <= k < |ls|
    ensures RewriteAt(r, ls, k) == RewriteAt(r, ls[j..], k - j) && TerminatesAt(r, ls, k) == TerminatesAt(r, ls[j..], k - j)
  {
    var extra := LaterDocAround(r, ls, i, j, k);
    SameRewrite(r, ls, j, k, extra);
  }

  lemma SeparatorPartUnchanged<T(!new)>(r: Rules<T>, ls: seq<T>, i: nat, j: nat, k: nat)
    requires BlindToBlanks(r) && Gap(r, ls, i, j) && i <= k < j
    ensures RewriteAt(r, ls, k) == ls[k]
  {
    if k > i {
      assert LeavesAlone(r, DocAround(r, ls, k), ls[k]);
    }
  }

  lemma RewriteCons<T(!new)>(r: Rules<T>, a: Part<T>, b: Part<T>, parts: seq<Part<T>>)
    requires a.Doc? && b.Sep? && parts != []
    ensures RewriteParts(r, [a, b] + parts) == RewriteDoc(r, a.lines, false) + b.lines + RewriteParts(r, parts)
  {
    assert ([a, b] + parts)[1..] == [b] + parts && ([b] + parts)[1..] == parts;
  }

  lemma RewriteOne<T(!new)>(r: Rules<T>, a: Part<T>)
    requires a.Doc?
    ensures RewriteParts(r, [a]) == RewriteDoc(r, a.lines, true)
  {
    assert [a][1..] == [];
  }

  lemma SplitNonEmpty<T(!new)>(r: Rules<T>, ls: seq<T>)
    ensures Split(r, ls) != []
  {
  }

  /**
   Splitting and rewriting part by part comes to this: every line is rewritten by the
   document around it, separators stay, and at most one newline is gained at the end.
   */
  lemma {:induction false} RewriteClosedForm<T(!new)>(r: Rules<T>, ls: seq<T>)
    requires BlindToBlanks(r)
    ensures RewriteParts(r, Split(r, ls)) == Rewritten(r, ls) + Newline(r, GainsNewline(r, ls))
    decreases |ls|
  {
    if FirstSeparator(r, ls) == |ls| {
      RewriteOne(r, Doc(ls));
      OneDocument(r, ls);
      OneDocumentGains(r, ls);
    } else {
      ClosedFormStep(r, ls);
    }
  }

  /** A stream without separators is one document. */
  lemma OneDocument<T(!new)>(r: Rules<T>, ls: seq<T>)
    requires FirstSeparator(r, ls) == |ls|
    ensures Rewritten(r, ls) == RewriteAll(r, ls, ls)
  {
    forall k: nat | k < |ls|
      ensures Rewritten(r, ls)[k] == RewriteAll(r, ls, ls)[k]
    {
      FirstDocAround(r, ls, |ls|, k);
      assert ls[..|ls|] == ls;
    }
  }

  lemma OneDocumentGains<T(!new)>(r: Rules<T>, ls: seq<T>)
    requires FirstSeparator(r, ls) == |ls|
    ensures GainsNewline(r, ls) <==> ls != [] && r.terminates(ls, ls[|ls| - 1])
  {
    if ls != [] {
      FirstDocAround(r, ls, |ls|, |ls| - 1);
      assert ls[..|ls|] == ls;
    }
  }

  lemma Assemble<T>(out: seq<T>, j: nat, end: seq<T>)
    requires j <= |out|
    ensures out[..j] + (out[j..] + end) == out + end
  {
  }

  lemma {:induction false} ClosedFormStep<T(!new)>(r: Rules<T>, ls: seq<T>)
    requires BlindToBlanks(r) && FirstSeparator(r, ls) < |ls|
    ensures RewriteParts(r, Split(r, ls)) == Rewritten(r, ls) + Newline(r, GainsNewline(r, ls))
    decreases |ls|, 0
  {
    var i := FirstSeparator(r, ls);
    var j := AfterSeparator(r, ls, i);
    HeadOfClosedForm(r, ls, i, j);
    Assemble(Rewritten(r, ls), j, Newline(r, GainsNewline(r, ls)));
    if j == |ls| {
      RewriteCons(r, Doc(ls[..i]), Sep(ls[i..j]), [Doc([r.empty])]);
      EmptyDocRewritten(r);
    } else {
      SplitNonEmpty(r, ls[j..]);
      RewriteCons(r, Doc(ls[..i]), Sep(ls[i..j]), Split(r, ls[j..]));
      RewriteClosedForm(r, ls[j..]);
      TailOfClosedForm(r, ls, i, j);
      EndsStep(r, ls, j);
      GainStep(r, ls, i, j);
    }
  }

  lemma EmptyDocRewritten<T(!new)>(r: Rules<T>)
    requires BlindToBlanks(r)
    ensures RewriteParts(r, [Doc([r.empty])]) == [r.empty]
  {
    RewriteOne(r, Doc([r.empty]));
    assert LeavesAlone(r, [r.empty], r.empty);
  }

  /** Line k becomes l. */
  ghost predicate Becomes<T(!new)>(r: Rules<T>, ls: seq<T>, k: nat, l: T) {
    k < |ls| && RewriteAt(r, ls, k) == l
  }

  /** A stretch of the output, line by line. */
  lemma OutputSlice<T(!new)>(r: Rules<T>, ls: seq<T>, s: nat, e: nat, part: seq<T>)
    requires s <= e <= |ls| && |part| == e - s && forall k: nat :: k < |part| ==> Becomes(r, ls, s + k, part[k])
    ensures Rewritten(r, ls)[s..e] == part
  {
    forall k: nat | k < |part|
      ensures AgreeAt(Rewritten(r, ls), s, part, k)
    {
      assert Becomes(r, ls, s + k, part[k]);
    }
    SliceIs(Rewritten(r, ls), s, e, part);
  }

  lemma FirstLineBecomes<T(!new)>(r: Rules<T>, ls: seq<T>, i: nat, k: nat)
    requires FirstEnds(r, ls, i) && k < i
    ensures Becomes(r, ls, k, RewriteAll(r, ls[..i], ls[..i])[k])
  {
    FirstDocAround(r, ls, i, k);
  }

  lemma FirstDocumentOutput<T(!new)>(r: Rules<T>, ls: seq<T>, i: nat)
    requires FirstEnds(r, ls, i)
    ensures Rewritten(r, ls)[0..i] == RewriteAll(r, ls[..i], ls[..i])
  {
    var doc := RewriteAll(r, ls[..i], ls[..i]);
    forall k: nat | k < |doc|
      ensures Becomes(r, ls, 0 + k, doc[k])
    {
      FirstLineBecomes(r, ls, i, k);
    }
    OutputSlice(r, ls, 0, i, doc);
  }

  lemma GapOutput<T(!new)>(r: Rules<T>, ls: seq<T>, i: nat, j: nat)
    requires BlindToBlanks(r) && Gap(r, ls, i, j)
    ensures Rewritten(r, ls)[i..j] == ls[i..j]
  {
    var gap := ls[i..j];
    forall k: nat | k < |gap|
      ensures Becomes(r, ls, i + k, gap[k])
    {
      SeparatorPartUnchanged(r, ls, i, j, i + k);
    }
    OutputSlice(r, ls, i, j, gap);
  }

  lemma HeadOfClosedForm<T(!new)>(r: Rules<T>, ls: seq<T>, i: nat, j: nat)
    requires BlindToBlanks(r) && FirstEnds(r, ls, i) && Gap(r, ls, i, j)
    ensures Rewritten(r, ls)[..j] == RewriteDoc(r, ls[..i], false) + ls[i..j]
  {
    FirstDocumentOutput(r, ls, i);
    GapOutput(r, ls, i, j);
    SliceJoin(Rewritten(r, ls), 0, i, j);
  }

  lemma TailLineBecomes<T(!new)>(r: Rules<T>, ls: seq<T>, i: nat, j: nat, k: nat)
    requires BlindToBlanks(r) && Gap(r, ls, i, j) && k < |ls| - j
    ensures Becomes(r, ls, j + k, Rewritten(r, ls[j..])[k])
  {
    LaterRewrite(r, ls, i, j, j + k);
    BecomesAsRest(r, ls, ls[j..], j + k, j + k - j);
  }

  lemma BecomesAsRest<T(!new)>(r: Rules<T>, ls: seq<T>, rest: seq<T>, m: nat, k: nat)
    requires m < |ls| && k < |rest| && RewriteAt(r, ls, m) == RewriteAt(r, rest, k)
    ensures Becomes(r, ls, m, Rewritten(r, rest)[k])
  {
  }

  lemma TailOfClosedForm<T(!new)>(r: Rules<T>, ls: seq<T>, i: nat, j: nat)
    requires BlindToBlanks(r) && Gap(r, ls, i, j) && j < |ls|
    ensures Rewritten(r, ls)[j..] == Rewritten(r, ls[j..])
  {
    var tail := Rewritten(r, ls[j..]);
    forall k: nat | k < |tail|
      ensures Becomes(r, ls, j + k, tail[k])
    {
      TailLineBecomes(r, ls, i, j, k);
    }
    OutputSlice(r, ls, j, |ls|, tail);
  }

  /** The last line is the unterminated one: is it rewritten into a terminated one? */
  ghost predicate LastTerminates<T(!new)>(r: Rules<T>, ls: seq<T>) {
    ls != [] && TerminatesAt(r, ls, |ls| - 1)
  }

  lemma EndsStep<T(!new)>(r: Rules<T>, ls: seq<T>, j: nat)
    requires FirstSeparator(r, ls) < |ls| && j == AfterSeparator(r, ls, FirstSeparator(r, ls)) < |ls|
    ensures EndsInSeparator(r, ls) == EndsInSeparator(r, ls[j..])
  {
  }

  lemma LastStep<T(!new)>(r: Rules<T>, ls: seq<T>, i: nat, j: nat)
    requires BlindToBlanks(r) && Gap(r, ls, i, j) && j < |ls|
    ensures LastTerminates(r, ls) <==> LastTerminates(r, ls[j..])
  {
    LaterRewrite(r, ls, i, j, |ls| - 1);
    assert |ls[j..]| - 1 == |ls| - 1 - j;
  }

  lemma GainStep<T(!new)>(r: Rules<T>, ls: seq<T>, i: nat, j: nat)
    requires BlindToBlanks(r) && Gap(r, ls, i, j) && j < |ls| && EndsInSeparator(r, ls) == EndsInSeparator(r, ls[j..])
    ensures GainsNewline(r, ls) <==> GainsNewline(r, ls[j..])
  {
    LastStep(r, ls, i, j);
  }
}
