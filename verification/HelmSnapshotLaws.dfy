/**
 What the Helm snapshot normaliser promises: its output does not depend on volatile
 values, every other line passes through, and, unless the text ends in a separator,
 splitting loses nothing and normalising twice is normalising once.
 */
module HelmSnapshotLaws {
  import opened Options
  import opened Text
  import opened Sequences
  import opened DocumentStream
  import opened StreamLaws
  import opened HelmSnapshot

  // ---------- Characters that give a line away ----------

  /** Header values that matter hold neither a colon nor an equals sign. */
  predicate Marked(s: string) {
    ':' in s || '=' in s
  }

  lemma {:induction false} StripRightKeeps(s: string, c: char)
    requires c in s && !IsSpace(c)
    ensures c in StripRight(s)
    decreases |s|
  {
    if IsSpace(s[|s| - 1]) {
      assert s == s[..|s| - 1] + [s[|s| - 1]];
      StripRightKeeps(s[..|s| - 1], c);
    }
  }

  lemma StripKeeps(s: string, c: char)
    requires c in s && !IsSpace(c)
    ensures c in StripLeft(s) && c in Strip(s) && !IsBlank(s)
  {
    var i :| 0 <= i < |s| && s[i] == c;
    assert i >= LeadingSpace(s);
    assert StripLeft(s)[i - LeadingSpace(s)] == c;
    StripRightKeeps(StripLeft(s), c);
  }

  lemma MarkedStays(s: string)
    requires Marked(s)
    ensures Marked(Strip(s)) && !IsBlank(s) && !IsSeparator(s)
  {
    var c := if ':' in s then ':' else '=';
    StripKeeps(s, c);
    if StartsWith(s, "---") {
      RestKeeps(s, "---", c);
      StripKeeps(s[3..], c);
    }
  }

  lemma RestKeeps(s: string, prefix: string, c: char)
    requires prefix <= s && c in s && c !in prefix
    ensures c in s[|prefix|..]
  {
    assert s == prefix + s[|prefix|..];
  }

  lemma {:induction false} TrimQuotesKeeps(s: string, c: char)
    requires c in s && !IsQuote(c)
    ensures c in TrimQuotesRight(s)
    decreases |s|
  {
    if IsQuote(s[|s| - 1]) {
      assert s == s[..|s| - 1] + [s[|s| - 1]];
      TrimQuotesKeeps(s[..|s| - 1], c);
    }
  }

  lemma {:induction false} TrimLeftKeeps(s: string, c: char)
    requires c in s && !IsQuote(c)
    ensures c in TrimQuotesLeft(s)
    decreases |s|
  {
    if IsQuote(s[0]) {
      assert s == [s[0]] + s[1..];
      TrimLeftKeeps(s[1..], c);
    }
  }

  /** The names of the secrets with volatile fields are unmarked, and so is any quoted form of them. */
  lemma NameUnmarked(g: string)
    requires Fields(TrimQuotes(g)) != []
    ensures !Marked(g)
  {
    KnownNamesUnmarked(TrimQuotes(g));
    if Marked(g) {
      var c := if ':' in g then ':' else '=';
      TrimLeftKeeps(g, c);
      TrimQuotesKeeps(TrimQuotesLeft(g), c);
      assert false;
    }
  }

  lemma SomeNamesUnmarked()
    ensures !Marked("clickhouse-credentials") && !Marked("neo4j-credentials") && !Marked("qdrant-api-key")
  {
  }

  lemma MinioNamesUnmarked()
    ensures !Marked("minio-platform-credentials") && !Marked("minio-simulation-credentials")
  {
  }

  lemma RootNameUnmarked()
    ensures !Marked(ROOT_SECRET)
  {
  }

  lemma KnownNamesUnmarked(n: string)
    requires Fields(n) != []
    ensures !Marked(n)
  {
    SomeNamesUnmarked();
    MinioNamesUnmarked();
    RootNameUnmarked();
  }

  /** Keys begin with a capital and hold no mark; placeholders hold no equals sign. */
  predicate PlainField(f: (string, string)) {
    f.0 != "" && 'A' <= f.0[0] <= 'Z' && !Marked(f.0) && '=' !in f.1
  }

  lemma MaskIsPlain()
    ensures '=' !in MASK && '=' !in "neo4j/" + MASK
  {
  }

  lemma PlainKeys()
    ensures !Marked("CLICKHOUSE_PASSWORD") && !Marked("NEO4J_PASSWORD") && !Marked("NEO4J_AUTH")
  {
  }

  lemma PlainMoreKeys()
    ensures !Marked("QDRANT_API_KEY") && !Marked("S3_SECRET_KEY") && !Marked("MINIO_SECRET_KEY") && !Marked("MINIO_ROOT_PASSWORD")
  {
  }

  lemma FieldsArePlain(secret: string, f: (string, string))
    requires f in Fields(secret)
    ensures PlainField(f)
  {
    MaskIsPlain();
    PlainKeys();
    PlainMoreKeys();
    assert f == ("CLICKHOUSE_PASSWORD", MASK) || f == ("NEO4J_PASSWORD", MASK) || f == ("NEO4J_AUTH", "neo4j/" + MASK)
        || f == ("QDRANT_API_KEY", MASK) || f == ("S3_SECRET_KEY", MASK) || f == ("MINIO_SECRET_KEY", MASK)
        || f == ("MINIO_ROOT_PASSWORD", MASK);
  }

  // ---------- Lines that are rewritten ----------

  lemma PrefixSplit(indent: string, body: string)
    requires Blank(indent) && body != "" && !IsSpace(body[0])
    ensures LeadingSpace(indent + body) == |indent| && Indent(indent + body) == indent && Body(indent + body) == body
  {
    var l := indent + body;
    assert forall i :: 0 <= i < |indent| ==> l[i] == indent[i];
    LeadingSpaceUnique(l, |indent|);
  }

  lemma IndentIsBlank(l: string)
    ensures Blank(Indent(l)) && l == Indent(l) + Body(l)
  {
  }

  /** A line that no header and no separator is read from. */
  predicate Inert(l: string) {
    && Marked(l) && !StartsWith(l, "kind:") && !StartsWith(l, "  name:")
    && Body(l) != "" && Body(l)[0] != '-'
  }

  lemma NameHeaderBody(l: string)
    requires StartsWith(l, "  name:")
    ensures LeadingSpace(l) == 2 && Body(l)[0] == 'n'
  {
    var header := "  name:";
    assert header[0] == ' ' && header[1] == ' ' && header[2] == 'n';
    assert l[0] == header[0] && l[1] == header[1] && l[2] == header[2];
    LeadingSpaceUnique(l, 2);
  }

  lemma BodyDecidesHeader(l: string)
    requires Body(l) != "" && (LeadingSpace(l) > 0 || Body(l)[0] != 'k') && Body(l)[0] != 'n'
    ensures !StartsWith(l, "kind:") && !StartsWith(l, "  name:")
  {
    assert "kind:"[0] == 'k' && !IsSpace('k');
    if StartsWith(l, "  name:") {
      NameHeaderBody(l);
    }
  }

  lemma KeyLineIsInert(secret: string, l: string)
    requires KeyField(secret, l).Some?
    ensures Inert(l)
  {
    var f := KeyField(secret, l).value;
    FieldsArePlain(secret, f);
    var head := f.0 + ":";
    assert head <= Body(l) && Body(l)[0] == head[0] && head[|f.0|] == ':';
    assert Body(l)[|f.0|] == ':';
    assert ':' in Body(l);
    IndentIsBlank(l);
    BodyDecidesHeader(l);
  }

  /** The export line in its usual form. */
  predicate HasExportHead(l: string) {
    StartsWith(Body(l), EXPORT_HEAD)
  }

  lemma ExportHeadIsInert(l: string)
    requires HasExportHead(l)
    ensures Inert(l) && '=' in l
  {
    assert Body(l)[0] == EXPORT_HEAD[0] && EXPORT_HEAD[0] == 'e';
    assert EXPORT_HEAD[26] == '=' && Body(l)[26] == '=';
    assert '=' in Body(l);
    IndentIsBlank(l);
    BodyDecidesHeader(l);
  }

  lemma {:induction false} ContainsAt(s: string, i: nat, part: string)
    requires i <= |s| && part <= s[i..]
    ensures Contains(s, part)
    decreases i
  {
    if i > 0 && !(part <= s) {
      assert s[1..][i - 1..] == s[i..];
      ContainsAt(s[1..], i - 1, part);
    }
  }

  lemma {:induction false} ContainsChar(s: string, part: string, c: char)
    requires Contains(s, part) && c in part
    ensures c in s
    decreases |s|
  {
    if part <= s {
      var i :| 0 <= i < |part| && part[i] == c;
      assert s[i] == c;
    } else {
      ContainsChar(s[1..], part, c);
      assert s == [s[0]] + s[1..];
    }
  }

  lemma ExportNeedsEquals(secret: string, l: string)
    requires '=' !in l
    ensures !IsExport(secret, l)
  {
    if Contains(l, "MINIO_ROOT_PASSWORD=") {
      assert "MINIO_ROOT_PASSWORD="[19] == '=';
      ContainsChar(l, "MINIO_ROOT_PASSWORD=", '=');
      assert false;
    }
  }

  lemma ExportHeadParts()
    ensures "MINIO_ROOT_PASSWORD=" <= EXPORT_HEAD[7..] && "export" <= EXPORT_HEAD
  {
    assert EXPORT_HEAD == "export " + "MINIO_ROOT_PASSWORD=";
    assert "export " == "export" + " ";
  }

  /** The usual export line of the root credentials is masked to one that depends on its indent alone. */
  lemma ExportHeadMasked(l: string)
    requires HasExportHead(l)
    ensures KeyField(ROOT_SECRET, l).None? && IsExport(ROOT_SECRET, l)
    ensures MaskLine(ROOT_SECRET, l) == Indent(l) + EXPORT_HEAD + MASK && Touched(ROOT_SECRET, l)
  {
    var b, n := Body(l), LeadingSpace(l);
    assert b[0] == 'e' by {
      assert EXPORT_HEAD[0] == 'e';
    }
    if KeyField(ROOT_SECRET, l).Some? {
      var f := KeyField(ROOT_SECRET, l).value;
      FieldsArePlain(ROOT_SECRET, f);
      assert false;
    }
    ExportHeadParts();
    assert l[n..] == b && l[n + 7..] == b[7..];
    assert EXPORT_HEAD[7..] <= b[7..];
    ContainsAt(l, n, "export");
    ContainsAt(l, n + 7, "MINIO_ROOT_PASSWORD=");
  }

  // ---------- Documents whose rewritten lines differ ----------

  /** A line that, read as or after a header, gives a marked value. */
  predicate Loud(l: string) {
    && Marked(l)
    && (StartsWith(l, "kind:") ==> Marked(l[5..]))
    && (StartsWith(l, "  name:") ==> Marked(l[7..]))
  }

  lemma EqualsIsLoud(l: string)
    requires '=' in l
    ensures Loud(l)
  {
    if StartsWith(l, "kind:") {
      RestKeeps(l, "kind:", '=');
    }
    if StartsWith(l, "  name:") {
      RestKeeps(l, "  name:", '=');
    }
  }

  lemma TouchedIsLoud(secret: string, l: string)
    requires Touched(secret, l)
    ensures Loud(l)
  {
    if KeyField(secret, l).Some? {
      KeyLineIsInert(secret, l);
    } else {
      assert "MINIO_ROOT_PASSWORD="[19] == '=';
      ContainsChar(l, "MINIO_ROOT_PASSWORD=", '=');
      EqualsIsLoud(l);
    }
  }

  /** The second line is a header, or begins with "---", only where the first is or does. */
  predicate Blends(x: string, y: string) {
    && (StartsWith(y, "kind:") ==> StartsWith(x, "kind:"))
    && (StartsWith(y, "  name:") ==> StartsWith(x, "  name:"))
    && (StartsWith(Body(y), "---") ==> StartsWith(Body(x), "---"))
  }

  /** Corresponding lines are the same, or one loud line has become another that blends in. */
  ghost predicate Quieted(a: Lines, b: Lines) {
    |a| == |b| && forall i :: 0 <= i < |a| ==> a[i] == b[i] || (Loud(a[i]) && Marked(b[i]) && Blends(a[i], b[i]))
  }

  lemma InertBlends(x: string, y: string)
    requires Inert(y)
    ensures Marked(y) && Blends(x, y)
  {
  }

  lemma {:induction false} FirstTextStable(a: Lines, b: Lines, g: string)
    requires Quieted(a, b) && FirstText(a) == Some(g) && !Marked(g)
    ensures FirstText(b) == Some(g)
    decreases |a|
  {
    if a[0] == b[0] {
      if IsBlank(a[0]) {
        FirstTextStable(a[1..], b[1..], g);
      }
    } else {
      MarkedStays(a[0]);
      assert false;
    }
  }

  lemma {:induction false} HeaderStable(a: Lines, b: Lines, header: string, g: string)
    requires header == "kind:" || header == "  name:"
    requires Quieted(a, b) && HeaderValue(a, header) == Some(g) && !Marked(g)
    ensures HeaderValue(b, header) == Some(g)
    decreases |a|
  {
    if StartsWith(a[0], header) {
      var value := a[0][|header|..];
      if a[0] == b[0] {
        FirstTextStable([value] + a[1..], [value] + b[1..], g);
      } else {
        MarkedStays(value);
        assert false;
      }
    } else {
      HeaderStable(a[1..], b[1..], header, g);
    }
  }

  /** A line that is not blank begins with hyphens when its text does. */
  lemma HyphensInBody(l: string)
    ensures StartsWith(Strip(l), "---") <==> StartsWith(Body(l), "---")
  {
    assert Strip(l) <= Body(l);
    if StartsWith(Body(l), "---") {
      StripRightBegins(Body(l));
    }
  }

  lemma {:induction false} StaysNormalised(a: Lines, b: Lines)
    requires Quieted(a, b) && !PassesThrough(a)
    ensures !PassesThrough(b)
    decreases |a|
  {
    if a[0] != b[0] {
      MarkedStays(a[0]);
      MarkedStays(b[0]);
      HyphensInBody(a[0]);
      HyphensInBody(b[0]);
    } else if IsBlank(a[0]) {
      StaysNormalised(a[1..], b[1..]);
    }
  }

  lemma SecretWordUnmarked()
    ensures !Marked("Secret")
  {
  }

  /** The secret of a document is read from lines that are not rewritten. */
  lemma SecretStable(a: Lines, b: Lines)
    requires Quieted(a, b) && SecretOf(a).Some?
    ensures SecretOf(b) == SecretOf(a)
  {
    var g := HeaderValue(a, "  name:").value;
    SecretWordUnmarked();
    NameUnmarked(g);
    HeaderStable(a, b, "kind:", "Secret");
    HeaderStable(a, b, "  name:", g);
    StaysNormalised(a, b);
  }

  // ---------- Blank lines ----------

  lemma BlankHasNoHeader(l: string)
    requires IsBlank(l)
    ensures !StartsWith(l, "kind:") && !StartsWith(l, "  name:") && !IsSeparator(l)
  {
    assert "  name:"[2] == 'n' && !IsSpace('n');
    assert |l| > 2 ==> IsSpace(l[2]);
    assert StartsWith(l, "  name:") ==> false;
  }

  lemma {:induction false} BlanksBefore(blanks: Lines, doc: Lines)
    requires forall k :: 0 <= k < |blanks| ==> IsBlank(blanks[k])
    ensures FirstText(blanks + doc) == FirstText(doc)
    ensures HeaderValue(blanks + doc, "kind:") == HeaderValue(doc, "kind:")
    ensures HeaderValue(blanks + doc, "  name:") == HeaderValue(doc, "  name:")
    decreases |blanks|
  {
    if blanks == [] {
      assert blanks + doc == doc;
    } else {
      BlanksBefore(blanks[1..], doc);
      BlankHasNoHeader(blanks[0]);
      assert (blanks + doc)[1..] == blanks[1..] + doc;
    }
  }

  lemma {:induction false} NoTextInBlanks(blanks: Lines)
    requires forall k :: 0 <= k < |blanks| ==> IsBlank(blanks[k])
    ensures FirstText(blanks) == None
    ensures HeaderValue(blanks, "kind:") == None && HeaderValue(blanks, "  name:") == None
    decreases |blanks|
  {
    if blanks != [] {
      BlankHasNoHeader(blanks[0]);
      NoTextInBlanks(blanks[1..]);
    }
  }

  lemma {:induction false} FirstTextThenBlanks(doc: Lines, blanks: Lines)
    requires forall k :: 0 <= k < |blanks| ==> IsBlank(blanks[k])
    ensures FirstText(doc + blanks) == FirstText(doc)
    decreases |doc|
  {
    if doc == [] {
      assert doc + blanks == blanks;
      NoTextInBlanks(blanks);
    } else {
      assert (doc + blanks)[1..] == doc[1..] + blanks;
      FirstTextThenBlanks(doc[1..], blanks);
    }
  }

  lemma {:induction false} HeaderThenBlanks(doc: Lines, blanks: Lines, header: string)
    requires header == "kind:" || header == "  name:"
    requires forall k :: 0 <= k < |blanks| ==> IsBlank(blanks[k])
    ensures HeaderValue(doc + blanks, header) == HeaderValue(doc, header)
    decreases |doc|
  {
    if doc == [] {
      assert doc + blanks == blanks;
      NoTextInBlanks(blanks);
    } else {
      assert (doc + blanks)[1..] == doc[1..] + blanks;
      if StartsWith(doc[0], header) {
        var value := doc[0][|header|..];
        assert [value] + (doc[1..] + blanks) == ([value] + doc[1..]) + blanks;
        FirstTextThenBlanks([value] + doc[1..], blanks);
      } else {
        HeaderThenBlanks(doc[1..], blanks, header);
      }
    }
  }

  lemma BlanksAfter(doc: Lines, blanks: Lines)
    requires forall k :: 0 <= k < |blanks| ==> IsBlank(blanks[k])
    ensures SecretOf(doc + blanks) == SecretOf(doc)
  {
    FirstTextThenBlanks(doc, blanks);
    HeaderThenBlanks(doc, blanks, "kind:");
    HeaderThenBlanks(doc, blanks, "  name:");
  }

  lemma BlankUntouched(secret: string, l: string)
    requires IsBlank(l)
    ensures MaskLine(secret, l) == l && !Touched(secret, l)
  {
    if Touched(secret, l) {
      TouchedIsLoud(secret, l);
      MarkedStays(l);
      assert false;
    }
  }

  // ---------- The normaliser follows the rules of a document stream ----------

  lemma LeadingBlanksBlind(blanks: Lines, doc: Lines, l: string)
    requires AllBlank(RULES, blanks)
    ensures MaskIn(blanks + doc, l) == MaskIn(doc, l) && EndsLine(blanks + doc, l) == EndsLine(doc, l)
  {
    assert forall k :: 0 <= k < |blanks| ==> RULES.isBlank(blanks[k]);
    BlanksBefore(blanks, doc);
  }

  lemma RulesAreBlind()
    ensures BlindToBlanks(RULES)
  {
    forall l: string | RULES.isBlank(l)
      ensures !RULES.isSeparator(l)
    {
      BlankHasNoHeader(l);
    }
    forall doc: Lines, l: string | RULES.isBlank(l)
      ensures LeavesAlone(RULES, doc, l)
    {
      if SecretOf(doc).Some? {
        BlankUntouched(SecretOf(doc).value, l);
      }
    }
    forall blanks: Lines, doc: Lines, l: string | AllBlank(RULES, blanks)
      ensures BlindTo(RULES, blanks, doc, l)
    {
      LeadingBlanksBlind(blanks, doc, l);
    }
  }

  // ---------- Masking a line once is enough ----------

  lemma {:induction false} FieldStable(fields: seq<(string, string)>, b: string, b': string)
    requires FieldOf(fields, b).Some? && StartsWith(b', FieldOf(fields, b).value.0 + ":")
    requires forall f :: f in fields ==> ':' !in f.0
    ensures FieldOf(fields, b') == FieldOf(fields, b)
    decreases |fields|
  {
    var f, g := FieldOf(fields, b).value, fields[0];
    if !StartsWith(b, g.0 + ":") {
      if StartsWith(b', g.0 + ":") {
        PrefixesAgree(g.0, f.0, b');
        assert false;
      }
      assert forall x :: x in fields[1..] ==> x in fields;
      FieldStable(fields[1..], b, b');
    }
  }

  lemma PrefixesAgree(x: string, y: string, s: string)
    requires ':' !in x && ':' !in y && x + ":" <= s && y + ":" <= s
    ensures x == y
  {
    assert s[|x|] == (x + ":")[|x|] && s[|y|] == (y + ":")[|y|];
    assert forall i :: 0 <= i < |x| ==> s[i] == (x + ":")[i] && x[i] in x;
    assert forall i :: 0 <= i < |y| ==> s[i] == (y + ":")[i] && y[i] in y;
    assert x == s[..|x|] && y == s[..|y|];
  }

  lemma QuoteOfMasked(quote: char, placeholder: string)
    requires IsQuote(quote)
    ensures QuoteOf(" " + [quote] + placeholder + [quote]) == quote
  {
    var u := [quote] + placeholder + [quote];
    assert " " + [quote] + placeholder + [quote] == " " + u;
    assert Blank(" ");
    PrefixSplit(" ", u);
    assert u[1..] == placeholder + [quote];
  }

  lemma QuoteIsQuote(value: string)
    ensures IsQuote(QuoteOf(value))
  {
  }

  lemma MaskedKeyLineParts(indent: string, f: (string, string), quote: char)
    requires Blank(indent) && PlainField(f)
    ensures var m := MaskedKeyLine(indent, f, quote);
            && Indent(m) == indent && LeadingSpace(m) == |indent|
            && Body(m) == f.0 + ":" + (" " + [quote] + f.1 + [quote])
  {
    var body := f.0 + ":" + (" " + [quote] + f.1 + [quote]);
    assert MaskedKeyLine(indent, f, quote) == indent + body;
    PrefixSplit(indent, body);
  }

  lemma MaskedKeyLineSettled(secret: string, l: string)
    requires KeyField(secret, l).Some?
    ensures var m := MaskKey(secret, l);
            KeyField(secret, m) == KeyField(secret, l) && MaskKey(secret, m) == m && '=' !in m
  {
    var f := KeyField(secret, l).value;
    var quote := QuoteOf(Body(l)[|f.0| + 1..]);
    var m := MaskKey(secret, l);
    FieldsArePlain(secret, f);
    IndentIsBlank(l);
    QuoteIsQuote(Body(l)[|f.0| + 1..]);
    MaskedKeyLineParts(Indent(l), f, quote);
    KeysHoldNoColon(secret);
    assert StartsWith(Body(m), f.0 + ":");
    FieldStable(Fields(secret), Body(l), Body(m));
    assert Body(m)[|f.0| + 1..] == " " + [quote] + f.1 + [quote];
    QuoteOfMasked(quote, f.1);
    NoEqualsInMasked(Indent(l), f, quote);
  }

  lemma KeysHoldNoColon(secret: string)
    ensures forall f :: f in Fields(secret) ==> ':' !in f.0
  {
    forall f | f in Fields(secret)
      ensures ':' !in f.0
    {
      FieldsArePlain(secret, f);
    }
  }

  lemma NoEqualsInMasked(indent: string, f: (string, string), quote: char)
    requires Blank(indent) && PlainField(f) && IsQuote(quote)
    ensures '=' !in MaskedKeyLine(indent, f, quote)
  {
    assert '=' !in indent;
    assert '=' !in ": " && '=' !in [quote];
  }

  /** Masking settles a line, and what it puts in place of a line is inert. */
  lemma MaskSettles(secret: string, l: string)
    ensures MaskLine(secret, MaskLine(secret, l)) == MaskLine(secret, l)
    ensures Touched(secret, l) ==> Inert(MaskLine(secret, l))
    ensures !Touched(secret, l) ==> MaskLine(secret, l) == l
  {
    if KeyField(secret, l).Some? {
      var m := MaskKey(secret, l);
      MaskedKeyLineSettled(secret, l);
      ExportNeedsEquals(secret, m);
      KeyLineIsInert(secret, m);
    } else if IsExport(secret, l) {
      var m := MaskLine(secret, l);
      IndentIsBlank(l);
      PrefixSplit(Indent(l), EXPORT_HEAD + MASK);
      assert m == Indent(l) + (EXPORT_HEAD + MASK);
      ExportHeadMasked(m);
      ExportHeadIsInert(m);
    }
  }

  /** A document and its masked form differ only where a loud line became one that blends in. */
  lemma MaskedIsQuieted(doc: Lines)
    requires SecretOf(doc).Some?
    ensures Quieted(doc, RewriteAll(RULES, doc, doc))
  {
    var secret := SecretOf(doc).value;
    forall i | 0 <= i < |doc|
      ensures doc[i] == MaskLine(secret, doc[i])
           || (Loud(doc[i]) && Marked(MaskLine(secret, doc[i])) && Blends(doc[i], MaskLine(secret, doc[i])))
    {
      MaskSettles(secret, doc[i]);
      if Touched(secret, doc[i]) {
        TouchedIsLoud(secret, doc[i]);
        InertBlends(doc[i], MaskLine(secret, doc[i]));
      }
    }
  }

  /** The masked document, whatever blank lines follow it, is read as the same secret. */
  lemma SecretSurvivesMasking(doc: Lines, more: Lines)
    requires AllBlank(RULES, more)
    ensures SecretOf(RewriteAll(RULES, doc, doc) + more) == SecretOf(doc)
  {
    assert forall k :: 0 <= k < |more| ==> RULES.isBlank(more[k]);
    BlanksAfter(RewriteAll(RULES, doc, doc), more);
    if SecretOf(doc).Some? {
      MaskedIsQuieted(doc);
      SecretStable(doc, RewriteAll(RULES, doc, doc));
    } else {
      assert RewriteAll(RULES, doc, doc) == doc;
    }
  }

  lemma LineSettles(doc: Lines, l: string, more: Lines)
    requires AllBlank(RULES, more)
    ensures Settled(RULES, doc, l, more)
  {
    SecretSurvivesMasking(doc, more);
    if SecretOf(doc).Some? {
      MaskSettles(SecretOf(doc).value, l);
    }
  }

  lemma MaskKeepsKind(doc: Lines, l: string)
    ensures IsBlank(MaskIn(doc, l)) == IsBlank(l) && (!IsSeparator(l) ==> !IsSeparator(MaskIn(doc, l)))
    ensures EndsLine(doc, l) || MaskIn(doc, l) == l
  {
    if SecretOf(doc).Some? {
      var secret := SecretOf(doc).value;
      MaskSettles(secret, l);
      if Touched(secret, l) {
        TouchedIsLoud(secret, l);
        MarkedStays(l);
        MarkedStays(MaskLine(secret, l));
      }
    }
  }

  lemma RulesSettle()
    ensures Settles(RULES)
  {
    forall doc: Lines, l: string
      ensures KeepsKind(RULES, doc, l)
    {
      MaskKeepsKind(doc, l);
    }
    forall doc: Lines, l: string, more: Lines | AllBlank(RULES, more)
      ensures Settled(RULES, doc, l, more)
    {
      LineSettles(doc, l, more);
    }
  }

  // ---------- The promises ----------

  /** The text ends in a separator: "---", white space, and nothing but blank lines after it. */
  ghost predicate EndsInSeparatorLine(ls: Lines) {
    exists i :: 0 <= i < |ls| && IsSeparator(ls[i]) && forall k :: i < k < |ls| ==> IsBlank(ls[k])
  }

  lemma EndingIs(ls: Lines)
    ensures EndsInSeparator(RULES, ls) <==> EndsInSeparatorLine(ls)
  {
    RulesAreBlind();
    EndsInSeparatorIff(RULES, ls);
    if i :| BlankAfter(RULES, ls, i) {
      assert IsSeparator(ls[i]);
      assert forall k :: i < k < |ls| ==> RULES.isBlank(ls[k]);
    }
    if EndsInSeparatorLine(ls) {
      var i :| 0 <= i < |ls| && IsSeparator(ls[i]) && forall k :: i < k < |ls| ==> IsBlank(ls[k]);
      assert BlankAfter(RULES, ls, i);
    }
  }

  /** Splitting a text and joining the parts gives it back exactly when it does not end in a separator. */
  lemma SplitLosslessIff(ls: Lines)
    ensures Joined(Split(RULES, ls)) == ls <==> !EndsInSeparatorLine(ls)
    ensures EndsInSeparatorLine(ls) ==> Joined(Split(RULES, ls)) == ls + [""]
  {
    SplitIsLossless(RULES, ls);
    EndingIs(ls);
  }

  /**
   Line by line: a separator, a line of a document that is no volatile secret, and an
   untouched line of one that is, pass through; a volatile line is masked. The text
   keeps its number of lines, but for one newline that may be gained at its end.
   */
  lemma EveryOtherLinePasses(ls: Lines, k: nat)
    requires k < |ls|
    ensures |ls| <= |Normalize(ls)| <= |ls| + 1
    ensures var secret := SecretOf(DocAround(RULES, ls, k));
            Normalize(ls)[k] == if !IsSeparator(ls[k]) && secret.Some? && Touched(secret.value, ls[k])
                                then MaskLine(secret.value, ls[k]) else ls[k]
  {
    RulesAreBlind();
    RewriteClosedForm(RULES, ls);
    var secret := SecretOf(DocAround(RULES, ls, k));
    if secret.Some? {
      MaskSettles(secret.value, ls[k]);
    }
    assert Rewritten(RULES, ls)[k] == RewriteAt(RULES, ls, k);
  }

  /** A text that ends in a separator: each pass adds a newline. */
  lemma EndingGrows(ls: Lines)
    requires ls == ["a: b", "---", ""]
    ensures EndsInSeparatorLine(ls) && Joined(Split(RULES, ls)) == ls + [""]
    ensures Normalize(Normalize(ls)) == Normalize(ls) + [""]
  {
    assert "---"[3..] == "" && IsSeparator(ls[1]) && IsBlank("");
    assert forall k :: 1 < k < |ls| ==> IsBlank(ls[k]);
    SplitLosslessIff(ls);
    EndingIs(ls);
    RulesAreBlind();
    RulesSettle();
    RewritingAgain(RULES, ls);
  }

  /** Normalising twice is normalising once exactly when the text does not end in a separator. */
  lemma NormalizeTwiceIff(ls: Lines)
    ensures Normalize(Normalize(ls)) == Normalize(ls) <==> !EndsInSeparatorLine(ls)
  {
    RulesAreBlind();
    RulesSettle();
    RewritingAgain(RULES, ls);
    EndingIs(ls);
  }

  /**
   Two volatile lines of a secret that differ in the value alone, quoted the same way; or two
   export lines of the root credentials with the same indent, whatever they hold, of which
   the second is a header or begins with "---" only if the first is or does.
   */
  predicate SameButValue(secret: string, x: string, y: string) {
    || (var f := KeyField(secret, x);
        && f.Some? && KeyField(secret, y) == f && Indent(x) == Indent(y)
        && QuoteOf(Body(x)[|f.value.0| + 1..]) == QuoteOf(Body(y)[|f.value.0| + 1..]))
    || (IsPlainExport(secret, x) && IsPlainExport(secret, y) && Indent(x) == Indent(y) && Blends(x, y))
  }

  /** An export line whose key is not volatile itself. */
  predicate IsPlainExport(secret: string, l: string) {
    IsExport(secret, l) && KeyField(secret, l).None?
  }

  lemma PlainExportMasked(secret: string, l: string)
    requires IsPlainExport(secret, l)
    ensures MaskLine(secret, l) == Indent(l) + EXPORT_HEAD + MASK && Touched(secret, l) && Loud(l)
  {
    TouchedIsLoud(secret, l);
  }

  /** Two texts that differ only in the values of volatile lines of their secrets. */
  ghost predicate DifferInSecrets(a: Lines, b: Lines) {
    |a| == |b| && forall k: nat :: k < |a| ==> a[k] == b[k] || VolatilePair(a, b, k)
  }

  ghost predicate VolatilePair(a: Lines, b: Lines, k: nat)
    requires k < |a| && k < |b|
  {
    var secret := SecretOf(DocAround(RULES, a, k));
    secret.Some? && SameButValue(secret.value, a[k], b[k])
  }

  lemma SameMask(secret: string, x: string, y: string)
    requires SameButValue(secret, x, y)
    ensures MaskLine(secret, x) == MaskLine(secret, y) && Touched(secret, x) && Touched(secret, y)
    ensures Loud(x) && Marked(y) && Blends(x, y)
  {
    if KeyField(secret, x).Some? && KeyField(secret, y) == KeyField(secret, x) {
      KeyLineIsInert(secret, x);
      KeyLineIsInert(secret, y);
      InertBlends(x, y);
      MaskedKeyLineSettled(secret, x);
      ExportNeedsEquals(secret, MaskKey(secret, x));
    } else {
      PlainExportMasked(secret, x);
      PlainExportMasked(secret, y);
    }
  }

  lemma SecretsKeepShape(a: Lines, b: Lines)
    requires DifferInSecrets(a, b)
    ensures SameShape(RULES, a, b)
  {
    forall k: nat | k < |a|
      ensures SameKindAt(RULES, a, b, k)
    {
      if a[k] != b[k] {
        SameMask(SecretOf(DocAround(RULES, a, k)).value, a[k], b[k]);
        MarkedStays(a[k]);
        MarkedStays(b[k]);
      }
    }
  }

  /** Corresponding lines of two documents, when one of them was changed. */
  lemma ChangedLine(a: Lines, b: Lines, k: nat, m: nat)
    requires DifferInSecrets(a, b) && k < |a| && !IsSeparator(a[k])
    requires DocStart(RULES, a, k) <= m < DocEnd(RULES, a, k) && a[m] != b[m]
    ensures SecretOf(DocAround(RULES, a, k)).Some? && Loud(a[m]) && Marked(b[m]) && Blends(a[m], b[m])
  {
    SameDoc(RULES, a, k, m);
    assert VolatilePair(a, b, m);
    SameMask(SecretOf(DocAround(RULES, a, k)).value, a[m], b[m]);
  }

  /** The documents around line k differ only in loud lines that blend in, and only in a secret. */
  lemma DocumentsQuieted(a: Lines, b: Lines, k: nat)
    requires DifferInSecrets(a, b) && k < |a| && !IsSeparator(a[k])
    ensures Quieted(DocAround(RULES, a, k), DocAround(RULES, b, k))
    ensures SecretOf(DocAround(RULES, a, k)).Some? || DocAround(RULES, a, k) == DocAround(RULES, b, k)
  {
    SecretsKeepShape(a, b);
    SameBounds(RULES, a, b, k);
    var s, e := DocStart(RULES, a, k), DocEnd(RULES, a, k);
    forall m | s <= m < e && a[m] != b[m]
      ensures SecretOf(DocAround(RULES, a, k)).Some? && Loud(a[m]) && Marked(b[m]) && Blends(a[m], b[m])
    {
      ChangedLine(a, b, k, m);
    }
    SlicesQuieted(a, b, s, e);
    if SecretOf(DocAround(RULES, a, k)).None? {
      SlicesSame(a, b, s, e);
    }
  }

  lemma SlicesSame(a: Lines, b: Lines, s: nat, e: nat)
    requires s <= e <= |a| == |b| && forall m :: s <= m < e ==> a[m] == b[m]
    ensures a[s..e] == b[s..e]
  {
  }

  lemma SlicesQuieted(a: Lines, b: Lines, s: nat, e: nat)
    requires s <= e <= |a| == |b|
    requires forall m :: s <= m < e && a[m] != b[m] ==> Loud(a[m]) && Marked(b[m]) && Blends(a[m], b[m])
    ensures Quieted(a[s..e], b[s..e])
  {
  }

  /** The two documents around line k are read as the same secret. */
  lemma SecretsKeepSecret(a: Lines, b: Lines, k: nat)
    requires DifferInSecrets(a, b) && k < |a| && !IsSeparator(a[k])
    ensures SecretOf(DocAround(RULES, a, k)) == SecretOf(DocAround(RULES, b, k))
  {
    DocumentsQuieted(a, b, k);
    if SecretOf(DocAround(RULES, a, k)).Some? {
      SecretStable(DocAround(RULES, a, k), DocAround(RULES, b, k));
    }
  }

  /**
   Non-interference: two rendered texts that differ only in volatile values, any number
   of them, quoted alike, or in the MinIO export lines, normalise to the same text.
   */
  lemma NonInterference(a: Lines, b: Lines)
    requires DifferInSecrets(a, b)
    ensures Normalize(a) == Normalize(b)
  {
    RulesAreBlind();
    SecretsKeepShape(a, b);
    forall k: nat | k < |a|
      ensures AlikeAt(RULES, a, b, k)
    {
      if !IsSeparator(a[k]) {
        SecretsKeepSecret(a, b, k);
        if a[k] != b[k] {
          SameMask(SecretOf(DocAround(RULES, a, k)).value, a[k], b[k]);
        }
      } else if a[k] != b[k] {
        SameMask(SecretOf(DocAround(RULES, a, k)).value, a[k], b[k]);
        MarkedStays(a[k]);
        assert false;
      }
    }
    AlikeStreams(RULES, a, b);
  }

  /**
   A document whose first text begins with "---", on a line that is no separator, is not
   normalised: each of its lines passes, wherever in the text it is.
   */
  lemma CommentedSeparatorPasses(ls: Lines, first: nat, k: nat)
    requires first < |ls| && k < |ls| && StartsWith(ls[first], "---") && !IsSeparator(ls[first])
    requires forall m :: DocStart(RULES, ls, first) <= m < first ==> IsBlank(ls[m])
    requires DocStart(RULES, ls, first) <= k < DocEnd(RULES, ls, first)
    ensures |ls| <= |Normalize(ls)| && Normalize(ls)[k] == ls[k]
  {
    SameDoc(RULES, ls, first, k);
    CommentedDocument(ls, first);
    EveryOtherLinePasses(ls, k);
  }

  /** Such a text: the key of a secret stays as it is. */
  lemma CommentedSecretPasses(ls: Lines)
    requires ls == ["--- # web", "kind: Secret", "  name: qdrant-api-key", "  QDRANT_API_KEY: x"]
    ensures |Normalize(ls)| >= 4 && Normalize(ls)[3] == "  QDRANT_API_KEY: x"
  {
    assert ls[0][4] == '#' && ls[0][3..][1] == '#' && !IsSpace('#');
    assert StartsWith(ls[0], "---") && !IsSeparator(ls[0]);
    assert ls[1][0] == 'k' && ls[2][0] == ' ' && ls[3][0] == ' ';
    assert forall k :: 0 <= k < |ls| ==> !RULES.isSeparator(ls[k]);
    DocStartIs(RULES, ls, 0, 0);
    DocEndIs(RULES, ls, 0, 4);
    CommentedSeparatorPasses(ls, 0, 3);
  }

  lemma CommentedDocument(ls: Lines, first: nat)
    requires first < |ls| && StartsWith(ls[first], "---") && !IsSeparator(ls[first])
    requires forall m :: DocStart(RULES, ls, first) <= m < first ==> IsBlank(ls[m])
    ensures SecretOf(DocAround(RULES, ls, first)).None?
  {
    var s, e := DocStart(RULES, ls, first), DocEnd(RULES, ls, first);
    assert first < e;
    SliceJoin(ls, s, first, e);
    CommentedAfterBlanks(ls[s..first], ls[first..e]);
  }

  lemma CommentedAfterBlanks(blanks: Lines, doc: Lines)
    requires forall k :: 0 <= k < |blanks| ==> IsBlank(blanks[k])
    requires doc != [] && StartsWith(doc[0], "---")
    ensures SecretOf(blanks + doc).None?
  {
    BlanksBefore(blanks, doc);
    BeginsWithHyphens(doc);
  }

  lemma BeginsWithHyphens(doc: Lines)
    requires doc != [] && StartsWith(doc[0], "---")
    ensures SecretOf(doc).None?
  {
    var l := doc[0];
    assert l[0] == '-' && !IsSpace('-');
    LeadingSpaceUnique(l, 0);
    StripRightBegins(l);
  }

  lemma {:induction false} StripRightBegins(l: string)
    requires StartsWith(l, "---")
    ensures StartsWith(StripRight(l), "---")
    decreases |l|
  {
    if IsSpace(l[|l| - 1]) {
      assert |l| > 3;
      StripRightBegins(l[..|l| - 1]);
    }
  }
}
