/**
 The key extractor for Helm values files: an indentation stack over the lines
 that look like "key: value".
 */
module HelmValues {
  import opened Options
  import opened Text
  import opened Sequences

  predicate IsKeyChar(c: char) {
    'A' <= c <= 'Z' || 'a' <= c <= 'z' || '0' <= c <= '9' || c == '_' || c == '.' || c == '-'
  }

  predicate IsKey(s: string) {
    s != "" && forall i :: 0 <= i < |s| ==> IsKeyChar(s[i])
  }

  /** A line the extractor takes notice of. */
  datatype Row = Row(indent: nat, key: string, value: string)

  // ---------- Reading a line ----------

  function KeyRun(s: string): (n: nat)
    ensures n <= |s| && (forall i :: 0 <= i < n ==> IsKeyChar(s[i])) && (n < |s| ==> !IsKeyChar(s[n]))
  {
    if s == "" || !IsKeyChar(s[0]) then 0 else 1 + KeyRun(s[1..])
  }

  predicate Ignored(stripped: string) {
    stripped == "" || StartsWith(stripped, "#") || StartsWith(stripped, "- ")
  }

  /** Recogniser of the key pattern: white space, a run of key characters, a colon, anything. */
  function ParseLine(raw: string): Option<Row> {
    if Ignored(Strip(raw)) then None
    else
      var indent := LeadingSpace(raw);
      var rest := raw[indent..];
      var n := KeyRun(rest);
      if n == 0 || n == |rest| || rest[n] != ':' then None
      else Some(Row(indent, rest[..n], Strip(rest[n + 1..])))
  }

  function ParseLines(lines: seq<string>): seq<Row> {
    if lines == [] then []
    else (match ParseLine(lines[0]) case None => [] case Some(row) => [row]) + ParseLines(lines[1..])
  }

  // ---------- The stack ----------

  type Entry = (nat, string)

  function Popped(stack: seq<Entry>, indent: nat): seq<Entry> {
    if stack != [] && stack[|stack| - 1].0 >= indent then Popped(stack[..|stack| - 1], indent) else stack
  }

  function Keys(stack: seq<Entry>): seq<string> {
    if stack == [] then [] else Keys(stack[..|stack| - 1]) + [stack[|stack| - 1].1]
  }

  lemma KeysPush(stack: seq<Entry>, e: Entry)
    ensures Keys(stack + [e]) == Keys(stack) + [e.1]
  {
    assert (stack + [e])[..|stack|] == stack;
  }

  function Dotted(parts: seq<string>): string {
    if parts == [] then "" else if |parts| == 1 then parts[0] else parts[0] + "." + Dotted(parts[1..])
  }

  function Pushed(stack: seq<Entry>, row: Row): seq<Entry> {
    Popped(stack, row.indent) + [(row.indent, row.key)]
  }

  function Reported(stack: seq<Entry>, row: Row): seq<(string, string)> {
    if row.value == "" then [] else [(Dotted(Keys(Popped(stack, row.indent)) + [row.key]), row.value)]
  }

  /** What the stack holds, and what has been reported, after the rows. */
  function StackAfter(stack: seq<Entry>, rows: seq<Row>): seq<Entry>
    decreases |rows|
  {
    if rows == [] then stack else StackAfter(Pushed(stack, rows[0]), rows[1..])
  }

  function Report(stack: seq<Entry>, rows: seq<Row>): seq<(string, string)>
    decreases |rows|
  {
    if rows == [] then [] else Reported(stack, rows[0]) + Report(Pushed(stack, rows[0]), rows[1..])
  }

  lemma ParseAt(lines: seq<string>, i: nat)
    requires i < |lines|
    ensures var row, later := ParseLine(lines[i]), ParseLines(lines[i + 1..]);
            ParseLines(lines[i..]) == if row.None? then later else [row.value] + later
  {
    assert lines[i..][1..] == lines[i + 1..];
  }

  lemma ReportCons(rows: seq<(string, string)>, stack: seq<Entry>, row: Row, later: seq<Row>)
    ensures rows + Report(stack, [row] + later) == rows + Reported(stack, row) + Report(Pushed(stack, row), later)
  {
    assert ([row] + later)[1..] == later;
  }

  method PopTo(stack: seq<Entry>, indent: nat) returns (rest: seq<Entry>)
    ensures rest == Popped(stack, indent)
  {
    rest := stack;
    while rest != [] && rest[|rest| - 1].0 >= indent
      invariant Popped(rest, indent) == Popped(stack, indent)
      decreases |rest|
    {
      rest := rest[..|rest| - 1];
    }
  }

  method TakeRow(stack: seq<Entry>, rows: seq<(string, string)>, row: Row)
    returns (stack': seq<Entry>, rows': seq<(string, string)>)
    ensures stack' == Pushed(stack, row) && rows' == rows + Reported(stack, row)
  {
    stack' := PopTo(stack, row.indent);
    var path := Dotted(Keys(stack') + [row.key]);
    rows' := if row.value != "" then rows + [(path, row.value)] else rows;
    stack' := stack' + [(row.indent, row.key)];
  }

  method ExtractValues(text: string) returns (rows: seq<(string, string)>)
    ensures rows == Extracted(text)
  {
    var lines := SplitLines(text);
    var stack: seq<Entry> := [];
    rows := [];
    var i := 0;
    assert lines[0..] == lines;
    ghost var pending := ParseLines(lines);
    while i < |lines|
      invariant 0 <= i <= |lines| && pending == ParseLines(lines[i..])
      invariant rows + Report(stack, pending) == Extracted(text)
    {
      var row := ParseLine(lines[i]);
      ParseAt(lines, i);
      i := i + 1;
      if row.Some? {
        ReportCons(rows, stack, row.value, ParseLines(lines[i..]));
        stack, rows := TakeRow(stack, rows, row.value);
      }
      pending := ParseLines(lines[i..]);
    }
  }

  // ---------- The stack is the chain of nearest smaller indents ----------

  /** The nearest of the first k rows, from the end, that is indented less than x. */
  function Nearest(rows: seq<Row>, k: nat, x: nat): (p: Option<nat>)
    requires k <= |rows|
    ensures p.Some? ==> p.value < k && rows[p.value].indent < x
                        && forall j :: p.value < j < k ==> rows[j].indent >= x
    ensures p.None? ==> forall j :: 0 <= j < k ==> rows[j].indent >= x
  {
    if k == 0 then None
    else if rows[k - 1].indent < x then Some(k - 1)
    else Nearest(rows, k - 1, x)
  }

  /** Row i preceded by its nearest less indented row, that row's own one, and so on. */
  function Chain(rows: seq<Row>, i: nat): (chain: seq<Entry>)
    requires i < |rows|
    ensures chain != [] && chain[|chain| - 1] == (rows[i].indent, rows[i].key)
  {
    var parent := Nearest(rows, i, rows[i].indent);
    (if parent.None? then [] else Chain(rows, parent.value)) + [(rows[i].indent, rows[i].key)]
  }

  /** Along a chain the indents strictly increase. */
  lemma {:induction false} ChainAscends(rows: seq<Row>, i: nat)
    requires i < |rows|
    ensures forall a, b :: 0 <= a < b < |Chain(rows, i)| ==> Chain(rows, i)[a].0 < Chain(rows, i)[b].0
    decreases i
  {
    var parent := Nearest(rows, i, rows[i].indent);
    if parent.Some? {
      ChainAscends(rows, parent.value);
    }
  }

  function ChainTo(rows: seq<Row>, p: Option<nat>): seq<Entry>
    requires p.Some? ==> p.value < |rows|
  {
    if p.None? then [] else Chain(rows, p.value)
  }

  lemma {:induction false} NearestSkips(rows: seq<Row>, k: nat, low: nat, x: nat)
    requires low <= k <= |rows| && forall j :: low <= j < k ==> rows[j].indent >= x
    ensures Nearest(rows, k, x) == Nearest(rows, low, x)
    decreases k
  {
    if low < k {
      NearestSkips(rows, k - 1, low, x);
    }
  }

  lemma {:induction false} PoppedChain(rows: seq<Row>, k: nat, x: nat)
    requires k < |rows|
    ensures Popped(Chain(rows, k), x) == ChainTo(rows, Nearest(rows, k + 1, x))
    decreases k
  {
    if rows[k].indent >= x {
      var parent := Nearest(rows, k, rows[k].indent);
      var chain := Chain(rows, k);
      assert chain[..|chain| - 1] == ChainTo(rows, parent);
      NearestSkips(rows, k, if parent.None? then 0 else parent.value + 1, x);
      if parent.Some? {
        PoppedChain(rows, parent.value, x);
      }
    }
  }

  lemma {:induction false} StackSplit(stack: seq<Entry>, a: seq<Row>, b: seq<Row>)
    ensures StackAfter(stack, a + b) == StackAfter(StackAfter(stack, a), b)
    decreases |a|
  {
    if a == [] {
      assert a + b == b;
    } else {
      assert (a + b)[1..] == a[1..] + b;
      StackSplit(Pushed(stack, a[0]), a[1..], b);
    }
  }

  lemma {:induction false} ReportSplit(stack: seq<Entry>, a: seq<Row>, b: seq<Row>)
    ensures Report(stack, a + b) == Report(stack, a) + Report(StackAfter(stack, a), b)
    decreases |a|
  {
    if a == [] {
      assert a + b == b;
    } else {
      var here, pushed := Reported(stack, a[0]), Pushed(stack, a[0]);
      assert (a + b)[0] == a[0] && (a + b)[1..] == a[1..] + b;
      ReportSplit(pushed, a[1..], b);
      Regroup(here, Report(pushed, a[1..]), Report(StackAfter(pushed, a[1..]), b));
    }
  }

  lemma OneRow(stack: seq<Entry>, row: Row)
    ensures StackAfter(stack, [row]) == Pushed(stack, row) && Report(stack, [row]) == Reported(stack, row)
  {
    assert [row][1..] == [];
    assert StackAfter(Pushed(stack, row), []) == Pushed(stack, row);
  }

  lemma StackSnoc(stack: seq<Entry>, rows: seq<Row>, row: Row, all: seq<Row>)
    requires all == rows + [row]
    ensures StackAfter(stack, all) == Pushed(StackAfter(stack, rows), row)
  {
    StackSplit(stack, rows, [row]);
    OneRow(StackAfter(stack, rows), row);
  }

  lemma StackAt(rows: seq<Row>, i: nat)
    requires i < |rows|
    ensures StackAfter([], rows[..i + 1]) == Pushed(StackAfter([], rows[..i]), rows[i])
  {
    StackSnoc([], rows[..i], rows[i], rows[..i + 1]);
  }

  /**
   For any input, after each row the stack is that row's chain of nearest earlier
   rows with a smaller indent; its indents strictly increase.
   */
  lemma {:induction false} StackIsNearestChain(rows: seq<Row>, i: nat)
    requires i < |rows|
    ensures StackAfter([], rows[..i + 1]) == Chain(rows, i)
    decreases i
  {
    StackAt(rows, i);
    if i > 0 {
      StackIsNearestChain(rows, i - 1);
      PoppedChain(rows, i - 1, rows[i].indent);
    }
  }

  /** Row i is reported, if it has a value, under the dotted keys of its chain. */
  lemma ReportedUnderChain(rows: seq<Row>, i: nat)
    requires i < |rows|
    ensures Reported(StackAfter([], rows[..i]), rows[i])
         == if rows[i].value == "" then [] else [(Dotted(Keys(Chain(rows, i))), rows[i].value)]
  {
    StackIsNearestChain(rows, i);
    StackAt(rows, i);
    ReportedFromPushed(StackAfter([], rows[..i]), rows[i]);
  }

  /** A value is reported under the keys that are on the stack once its own row is pushed. */
  lemma ReportedFromPushed(stack: seq<Entry>, row: Row)
    ensures Reported(stack, row) == if row.value == "" then [] else [(Dotted(Keys(Pushed(stack, row))), row.value)]
  {
    KeysPush(Popped(stack, row.indent), (row.indent, row.key));
  }

  // ---------- Round trip ----------

  /** A mapping tree: each key leads to a scalar or to a nested mapping; keys keep their order. */
  datatype Node = Leaf(value: string) | Branch(below: Mapping)

  datatype Mapping = Empty | Entries(key: string, node: Node, rest: Mapping)

  predicate ValidNode(n: Node) {
    match n
    case Leaf(v) => v != "" && Trimmed(v) && OneLine(v)
    case Branch(below) => ValidMapping(below)
  }

  predicate ValidMapping(m: Mapping) {
    m.Empty? || (IsKey(m.key) && ValidNode(m.node) && ValidMapping(m.rest))
  }

  function Spaces(n: nat): (s: string)
    ensures |s| == n
  {
    seq(n, _ => ' ')
  }

  lemma SpacesAreBlank(n: nat)
    ensures Blank(Spaces(n)) && OneLine(Spaces(n))
  {
  }

  function PrintLine(indent: nat, key: string, n: Node): string {
    Spaces(indent) + (key + ":" + TailOf(n))
  }

  /** The usual block layout: one key per line, nested mappings indented by `step` more. */
  function Print(m: Mapping, indent: nat, step: nat): string {
    if m.Empty? then ""
    else PrintLine(indent, m.key, m.node) + "\n" + PrintBelow(m.node, indent, step) + Print(m.rest, indent, step)
  }

  function PrintBelow(n: Node, indent: nat, step: nat): string {
    match n case Leaf(_) => "" case Branch(below) => Print(below, indent + step, step)
  }

  /** The leaves in preorder, each with the dotted path from the root. */
  function Leaves(m: Mapping, path: seq<string>): seq<(string, string)> {
    if m.Empty? then [] else LeavesAt(m.node, path + [m.key]) + Leaves(m.rest, path)
  }

  function LeavesAt(n: Node, path: seq<string>): seq<(string, string)> {
    match n case Leaf(v) => [(Dotted(path), v)] case Branch(below) => Leaves(below, path)
  }

  function RowOf(indent: nat, key: string, n: Node): Row {
    Row(indent, key, if n.Leaf? then n.value else "")
  }

  function RowsOf(m: Mapping, indent: nat, step: nat): seq<Row> {
    if m.Empty? then []
    else [RowOf(indent, m.key, m.node)] + RowsBelow(m.node, indent, step) + RowsOf(m.rest, indent, step)
  }

  function RowsBelow(n: Node, indent: nat, step: nat): seq<Row> {
    match n case Leaf(_) => [] case Branch(below) => RowsOf(below, indent + step, step)
  }

  lemma KeyRunUnique(s: string, n: nat)
    requires n <= |s| && (forall i :: 0 <= i < n ==> IsKeyChar(s[i])) && (n < |s| ==> !IsKeyChar(s[n]))
    ensures KeyRun(s) == n
  {
    if s != "" && IsKeyChar(s[0]) {
      KeyRunUnique(s[1..], n - 1);
    }
  }

  lemma StripStart(blank: string, s: string)
    requires Blank(blank) && s != "" && !IsSpace(s[0])
    ensures StripLeft(blank + s) == s && |Strip(blank + s)| >= 1 && Strip(blank + s) <= s
  {
    assert forall i :: 0 <= i < |blank| ==> (blank + s)[i] == blank[i];
    LeadingSpaceUnique(blank + s, |blank|);
    assert (blank + s)[|blank|..] == s;
    StripRightKeeps(s);
  }

  lemma {:induction false} StripRightKeeps(s: string)
    requires s != "" && !IsSpace(s[0])
    ensures StripRight(s) != ""
    decreases |s|
  {
    if IsSpace(s[|s| - 1]) {
      StripRightKeeps(s[..|s| - 1]);
    }
  }

  /** A printed line, after its indent, begins with a key character and is not a comment or a list item. */
  lemma PrintedIsNotIgnored(key: string, tail: string, stripped: string)
    requires IsKey(key) && stripped != "" && stripped <= key + ":" + tail
    ensures !Ignored(stripped)
  {
    var s := key + ":" + tail;
    assert s[0] == key[0] && IsKeyChar(key[0]);
    assert s[1] == if |key| > 1 then key[1] else ':';
    assert |key| > 1 ==> IsKeyChar(key[1]);
    assert stripped[0] == s[0];
    assert |stripped| > 1 ==> stripped[1] == s[1] && s[1] != ' ';
  }

  lemma PrintedKeyRun(key: string, tail: string)
    requires IsKey(key)
    ensures var s := key + ":" + tail;
            KeyRun(s) == |key| && s[|key|] == ':' && s[..|key|] == key && s[|key| + 1..] == tail
  {
    var s := key + ":" + tail;
    assert forall i :: 0 <= i < |key| ==> s[i] == key[i];
    KeyRunUnique(s, |key|);
  }

  function TailOf(n: Node): string {
    if n.Leaf? then " " + n.value else ""
  }

  lemma TailStrips(n: Node)
    requires ValidNode(n)
    ensures Strip(TailOf(n)) == if n.Leaf? then n.value else ""
  {
    if n.Leaf? {
      StripTrimmed(n.value, " ");
    }
  }

  lemma LineRoundTrip(indent: nat, key: string, n: Node)
    requires IsKey(key) && ValidNode(n)
    ensures ParseLine(PrintLine(indent, key, n)) == Some(RowOf(indent, key, n))
  {
    var blank, s, raw := Spaces(indent), key + ":" + TailOf(n), PrintLine(indent, key, n);
    assert raw == blank + s;
    SpacesAreBlank(indent);
    assert IsKeyChar(key[0]) && s[0] == key[0];
    StripStart(blank, s);
    PrintedIsNotIgnored(key, TailOf(n), Strip(raw));
    assert LeadingSpace(raw) == indent by {
      assert forall i :: 0 <= i < indent ==> raw[i] == blank[i];
      LeadingSpaceUnique(raw, indent);
    }
    assert raw[indent..] == s;
    PrintedKeyRun(key, TailOf(n));
    TailStrips(n);
  }

  lemma LineIsOneLine(indent: nat, key: string, n: Node)
    requires IsKey(key) && ValidNode(n)
    ensures OneLine(PrintLine(indent, key, n))
  {
    SpacesAreBlank(indent);
    assert OneLine(key);
  }

  /** The rows of a text that begins with a printed line. */
  lemma ParseFirst(indent: nat, key: string, n: Node, rest: string)
    requires IsKey(key) && ValidNode(n)
    ensures ParseLines(SplitLines(PrintLine(indent, key, n) + "\n" + rest)) == [RowOf(indent, key, n)] + ParseLines(SplitLines(rest))
  {
    var line := PrintLine(indent, key, n);
    LineRoundTrip(indent, key, n);
    LineIsOneLine(indent, key, n);
    SplitFirstLine(line, rest);
    ParseCons(line, SplitLines(rest));
  }

  lemma PrintParts(m: Mapping, indent: nat, step: nat, rest: string)
    requires m.Entries?
    ensures Print(m, indent, step) + rest
         == PrintLine(indent, m.key, m.node) + "\n" + (PrintBelow(m.node, indent, step) + (Print(m.rest, indent, step) + rest))
  {
    RegroupFour(PrintLine(indent, m.key, m.node) + "\n", PrintBelow(m.node, indent, step), Print(m.rest, indent, step), rest);
  }

  lemma {:induction false} ParsePrinted(m: Mapping, indent: nat, step: nat, rest: string)
    requires ValidMapping(m)
    ensures ParseLines(SplitLines(Print(m, indent, step) + rest)) == RowsOf(m, indent, step) + ParseLines(SplitLines(rest))
    decreases m
  {
    if m.Empty? {
      assert Print(m, indent, step) + rest == rest;
    } else {
      var later := Print(m.rest, indent, step) + rest;
      PrintParts(m, indent, step, rest);
      ParseFirst(indent, m.key, m.node, PrintBelow(m.node, indent, step) + later);
      ParseBelow(m.node, indent, step, later);
      ParsePrinted(m.rest, indent, step, rest);
      RegroupFour([RowOf(indent, m.key, m.node)], RowsBelow(m.node, indent, step), RowsOf(m.rest, indent, step), ParseLines(SplitLines(rest)));
    }
  }

  lemma {:induction false} ParseBelow(n: Node, indent: nat, step: nat, later: string)
    requires ValidNode(n)
    ensures ParseLines(SplitLines(PrintBelow(n, indent, step) + later)) == RowsBelow(n, indent, step) + ParseLines(SplitLines(later))
    decreases n
  {
    if n.Branch? {
      ParsePrinted(n.below, indent + step, step, later);
    } else {
      assert "" + later == later;
    }
  }

  lemma ParseCons(line: string, lines: seq<string>)
    ensures ParseLines([line] + lines)
         == (match ParseLine(line) case None => [] case Some(row) => [row]) + ParseLines(lines)
  {
    assert ([line] + lines)[1..] == lines;
  }

  /** All entries of the stack are indented less than x. */
  ghost predicate Below(stack: seq<Entry>, x: nat) {
    forall i :: 0 <= i < |stack| ==> stack[i].0 < x
  }

  lemma {:induction false} PoppedToBase(base: seq<Entry>, extra: seq<Entry>, x: nat)
    requires Below(base, x) && forall i :: 0 <= i < |extra| ==> extra[i].0 >= x
    ensures Popped(base + extra, x) == base
    decreases |extra|
  {
    if extra == [] {
      assert base + extra == base;
    } else {
      assert (base + extra)[..|base + extra| - 1] == base + extra[..|extra| - 1];
      PoppedToBase(base, extra[..|extra| - 1], x);
    }
  }

  /** Above `base` the stack holds only entries indented x or more. */
  ghost predicate Over(stack: seq<Entry>, base: seq<Entry>, x: nat) {
    |base| <= |stack| && stack[..|base|] == base && forall i :: |base| <= i < |stack| ==> stack[i].0 >= x
  }

  lemma OverPops(stack: seq<Entry>, base: seq<Entry>, x: nat)
    requires Over(stack, base, x) && Below(base, x)
    ensures Popped(stack, x) == base
  {
    assert stack == base + stack[|base|..];
    PoppedToBase(base, stack[|base|..], x);
  }

  /** Running a row, then the rows below it, then the later ones. */
  lemma InThreeParts(stack: seq<Entry>, row: Row, below: seq<Row>, later: seq<Row>)
    ensures var pushed := Pushed(stack, row);
            var mid := StackAfter(pushed, below);
            && StackAfter(stack, [row] + below + later) == StackAfter(mid, later)
            && Report(stack, [row] + below + later) == Reported(stack, row) + Report(pushed, below) + Report(mid, later)
  {
    OneRow(stack, row);
    StackSplit(stack, [row], below);
    ReportSplit(stack, [row], below);
    StackSplit(stack, [row] + below, later);
    ReportSplit(stack, [row] + below, later);
  }

  lemma OverLowers(stack: seq<Entry>, base: seq<Entry>, e: Entry, x: nat)
    requires Over(stack, base + [e], x) && e.0 <= x
    ensures Over(stack, base, e.0)
  {
    assert forall i :: 0 <= i <= |base| ==> stack[i] == stack[..|base| + 1][i];
  }

  /** One key and what is below it, on a stack over `base`. */
  lemma EntryReports(key: string, n: Node, indent: nat, step: nat, base: seq<Entry>, stack: seq<Entry>)
    requires ValidNode(n) && step > 0 && Below(base, indent) && Over(stack, base, indent)
    ensures var row := RowOf(indent, key, n);
            var pushed := Pushed(stack, row);
            && pushed == base + [(indent, key)]
            && Reported(stack, row) + Report(pushed, RowsBelow(n, indent, step)) == LeavesAt(n, Keys(base) + [key])
            && Over(StackAfter(pushed, RowsBelow(n, indent, step)), base, indent)
    decreases n
  {
    OverPops(stack, base, indent);
    KeysPush(base, (indent, key));
    var pushed := base + [(indent, key)];
    if n.Branch? {
      RowsReportLeaves(n.below, indent + step, step, pushed, pushed);
      OverLowers(StackAfter(pushed, RowsBelow(n, indent, step)), base, (indent, key), indent + step);
      assert RowOf(indent, key, n).value == "";
    } else {
      LeafReports(key, n, indent, step, base, stack);
    }
  }

  lemma LeafReports(key: string, n: Node, indent: nat, step: nat, base: seq<Entry>, stack: seq<Entry>)
    requires ValidNode(n) && n.Leaf? && Popped(stack, indent) == base
    ensures var row := RowOf(indent, key, n);
            var pushed := base + [(indent, key)];
            && RowsBelow(n, indent, step) == []
            && Reported(stack, row) + Report(pushed, []) == LeavesAt(n, Keys(base) + [key])
            && Over(StackAfter(pushed, []), base, indent)
  {
  }

  lemma {:induction false} RowsReportLeaves(m: Mapping, indent: nat, step: nat, base: seq<Entry>, stack: seq<Entry>)
    requires ValidMapping(m) && step > 0 && Below(base, indent) && Over(stack, base, indent)
    ensures Report(stack, RowsOf(m, indent, step)) == Leaves(m, Keys(base))
    ensures Over(StackAfter(stack, RowsOf(m, indent, step)), base, indent)
    decreases m
  {
    if m.Entries? {
      var row, below := RowOf(indent, m.key, m.node), RowsBelow(m.node, indent, step);
      EntryReports(m.key, m.node, indent, step, base, stack);
      var mid := StackAfter(Pushed(stack, row), below);
      RowsReportLeaves(m.rest, indent, step, base, mid);
      InThreeParts(stack, row, below, RowsOf(m.rest, indent, step));
    }
  }

  /** What the extractor reports for a text. */
  function Extracted(text: string): seq<(string, string)> {
    Report([], ParseLines(SplitLines(text)))
  }

  /**
   Printing any mapping tree with any positive indent step and extracting it again
   yields exactly its leaves, in preorder, with their dotted paths.
   */
  lemma RoundTrip(m: Mapping, step: nat)
    requires ValidMapping(m) && step > 0
    ensures Extracted(Print(m, 0, step)) == Leaves(m, [])
  {
    var text, rows := Print(m, 0, step), RowsOf(m, 0, step);
    assert ParseLines(SplitLines(text)) == rows by {
      ParsePrinted(m, 0, step, "");
      assert text + "" == text;
      assert ParseLines(SplitLines("")) == [];
    }
    RowsReportLeaves(m, 0, step, [], []);
  }

  // ---------- Lines and paths, in plain terms ----------

  /** Letters, digits, underscores, dots and hyphens, at least one. */
  ghost predicate PlainKey(key: string) {
    && key != ""
    && forall i :: 0 <= i < |key| ==>
         'A' <= key[i] <= 'Z' || 'a' <= key[i] <= 'z' || '0' <= key[i] <= '9' || key[i] == '_' || key[i] == '.' || key[i] == '-'
  }

  /** A line that is read: white space, a key, a colon, anything. */
  ghost predicate KeyLine(raw: string, w: string, key: string, rest: string) {
    raw == w + (key + ":" + rest) && Blank(w) && PlainKey(key)
  }

  /** Such a line gives its indent, its key and its trimmed value. */
  lemma KeyLineIsRead(raw: string, w: string, key: string, rest: string)
    requires KeyLine(raw, w, key, rest)
    ensures ParseLine(raw) == Some(Row(|w|, key, Strip(rest)))
  {
    var body := key + ":" + rest;
    KeyCuts(body, key, rest);
    IndentCuts(raw, w, body);
    StripRightReaches(body, |key|);
    HeadIsNotIgnored(StripRight(body), key);
  }

  lemma IndentCuts(raw: string, w: string, body: string)
    requires raw == w + body && Blank(w) && body != "" && !IsSpace(body[0])
    ensures LeadingSpace(raw) == |w| && raw[|w|..] == body
  {
    assert forall i :: 0 <= i < |w| ==> raw[i] == w[i];
    assert raw[|w|] == body[0];
    LeadingSpaceUnique(raw, |w|);
  }

  lemma KeyCuts(body: string, key: string, rest: string)
    requires body == key + ":" + rest && PlainKey(key)
    ensures body[0] == key[0] && body[|key|] == ':' && KeyRun(body) == |key|
    ensures body[..|key|] == key && body[|key| + 1..] == rest
  {
    assert forall i :: 0 <= i < |key| ==> body[i] == key[i];
    assert body[|key|] == ':';
    KeyRunUnique(body, |key|);
  }

  lemma HeadIsNotIgnored(stripped: string, key: string)
    requires PlainKey(key) && |key| < |stripped| && stripped[..|key|] == key && stripped[|key|] == ':'
    ensures !Ignored(stripped)
  {
    assert stripped[0] == key[0];
    if |key| > 1 {
      assert stripped[1] == key[1];
    }
    assert "#"[0] == '#' && "- "[1] == ' ';
  }

  /** Trimming on the right stops at the latest after a character that is no white space. */
  lemma {:induction false} StripRightReaches(s: string, i: nat)
    requires i < |s| && !IsSpace(s[i])
    ensures |StripRight(s)| > i
    decreases |s|
  {
    if IsSpace(s[|s| - 1]) {
      StripRightReaches(s[..|s| - 1], i);
    }
  }

  /** No other line is read. */
  lemma ReadLineIsKeyLine(raw: string) returns (w: string, key: string, rest: string)
    requires ParseLine(raw).Some?
    ensures KeyLine(raw, w, key, rest) && ParseLine(raw) == Some(Row(|w|, key, Strip(rest)))
  {
    var body;
    w, body := ReadIndent(raw);
    key, rest := ReadKey(body, raw);
  }

  lemma ReadIndent(raw: string) returns (w: string, body: string)
    ensures raw == w + body && Blank(w) && |w| == LeadingSpace(raw) && body == raw[LeadingSpace(raw)..]
  {
    w, body := raw[..LeadingSpace(raw)], raw[LeadingSpace(raw)..];
  }

  lemma ReadKey(body: string, raw: string) returns (key: string, rest: string)
    requires ParseLine(raw).Some? && body == raw[LeadingSpace(raw)..]
    ensures body == key + ":" + rest && PlainKey(key)
    ensures ParseLine(raw) == Some(Row(LeadingSpace(raw), key, Strip(rest)))
  {
    var m := KeyRun(body);
    ReadParts(raw, body, m);
    key, rest := CutThree(body, m);
    KeyIsPlain(body, m);
  }

  lemma ReadParts(raw: string, body: string, m: nat)
    requires ParseLine(raw).Some? && body == raw[LeadingSpace(raw)..] && m == KeyRun(body)
    ensures 0 < m < |body| && body[m] == ':'
    ensures ParseLine(raw) == Some(Row(LeadingSpace(raw), body[..m], Strip(body[m + 1..])))
  {
  }

  lemma KeyIsPlain(body: string, m: nat)
    requires m == KeyRun(body) && 0 < m
    ensures PlainKey(body[..m])
  {
    var key := body[..m];
    forall i | 0 <= i < |key|
      ensures IsKeyChar(key[i])
    {
      assert key[i] == body[i];
    }
  }

  lemma CutThree(body: string, m: nat) returns (key: string, rest: string)
    requires m < |body| && body[m] == ':'
    ensures body == key + ":" + rest && key == body[..m] && rest == body[m + 1..]
  {
    key, rest := body[..m], body[m + 1..];
  }

  /** Keys are joined by dots. */
  lemma DottedIs(x: string, rest: seq<string>)
    ensures Dotted([x]) == x
    ensures rest != [] ==> Dotted([x] + rest) == x + "." + Dotted(rest)
  {
    assert rest != [] ==> ([x] + rest)[1..] == rest;
  }
}
