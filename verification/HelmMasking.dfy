/**
 What the Helm snapshot normaliser masks, in plain terms: which documents are read as
 which secret, which lines of them are volatile, and what these become, with every name,
 key and placeholder written out.
 */
module HelmMasking {
  import opened Options
  import opened Text
  import opened Sequences
  import opened DocumentStream
  import opened StreamLaws
  import opened HelmSnapshot
  import opened HelmSnapshotLaws

  // ---------- What is volatile ----------

  /** The volatile keys of the secrets, with their placeholders. */
  predicate Volatile(name: string, key: string, placeholder: string) {
    || (name == "clickhouse-credentials" && key == "CLICKHOUSE_PASSWORD" && placeholder == "***SNAPSHOT-NORMALIZED***")
    || (name == "neo4j-credentials" && key == "NEO4J_PASSWORD" && placeholder == "***SNAPSHOT-NORMALIZED***")
    || (name == "neo4j-credentials" && key == "NEO4J_AUTH" && placeholder == "neo4j/***SNAPSHOT-NORMALIZED***")
    || (name == "qdrant-api-key" && key == "QDRANT_API_KEY" && placeholder == "***SNAPSHOT-NORMALIZED***")
    || (name == "minio-platform-credentials" && key == "S3_SECRET_KEY" && placeholder == "***SNAPSHOT-NORMALIZED***")
    || (name == "minio-platform-credentials" && key == "MINIO_SECRET_KEY" && placeholder == "***SNAPSHOT-NORMALIZED***")
    || (name == "minio-root-credentials" && key == "MINIO_ROOT_PASSWORD" && placeholder == "***SNAPSHOT-NORMALIZED***")
    || (name == "minio-simulation-credentials" && key == "MINIO_SECRET_KEY" && placeholder == "***SNAPSHOT-NORMALIZED***")
  }

  /** Three hyphens, and white space. */
  predicate SeparatorLine(l: string) {
    "---" <= l && Blank(l[3..])
  }

  /** Lines s to e of a stream are what lies between two separators. */
  ghost predicate Document(ls: Lines, s: nat, e: nat) {
    && s < e <= |ls| && (forall m :: s <= m < e ==> !SeparatorLine(ls[m]))
    && (s > 0 ==> SeparatorLine(ls[s - 1])) && (e < |ls| ==> SeparatorLine(ls[e]))
  }

  /** A header with that text, white space around it. */
  ghost predicate HeaderLine(l: string, header: string, text: string) {
    exists v, w :: Blank(v) && Blank(w) && l == header + v + text + w
  }

  /** The first header of the lines s to e has that text. */
  ghost predicate FirstHeader(ls: Lines, s: nat, e: nat, header: string, text: string)
    requires e <= |ls|
  {
    exists i :: s <= i < e && HeaderLine(ls[i], header, text) && forall j :: s <= j < i ==> !(header <= ls[j])
  }

  /** The name, bare or in quotes of either kind. */
  predicate Quotes(text: string, name: string) {
    text == name || text == "\"" + name + "\"" || text == "'" + name + "'"
  }

  /** The first text of the lines s to e does not begin with three hyphens. */
  ghost predicate BeginsPlainly(ls: Lines, s: nat, e: nat)
    requires e <= |ls|
  {
    exists f :: s <= f < e && (forall j :: s <= j < f ==> Blank(ls[j])) && PlainText(ls[f])
  }

  ghost predicate PlainText(l: string) {
    exists v, t :: Blank(v) && l == v + t && t != "" && !IsSpace(t[0]) && !("---" <= t)
  }

  /** A document of kind Secret with that name. */
  ghost predicate SecretDocument(ls: Lines, s: nat, e: nat, name: string) {
    && Document(ls, s, e) && BeginsPlainly(ls, s, e)
    && FirstHeader(ls, s, e, "kind:", "Secret")
    && exists text :: FirstHeader(ls, s, e, "  name:", text) && Quotes(text, name)
  }

  /** The value is in quotes of that kind. */
  ghost predicate QuotedBy(value: string, c: char) {
    (c == '"' || c == '\'') && exists v, x, u :: Blank(v) && Blank(u) && value == v + [c] + x + [c] + u
  }

  /** The value begins with no quote. */
  ghost predicate Unquoted(value: string) {
    exists v, t :: Blank(v) && value == v + t && (t == "" || (t[0] != '"' && t[0] != '\'' && !IsSpace(t[0])))
  }

  /** The value begins with a quote, and does not end with it. */
  ghost predicate Unclosed(value: string) {
    exists v, c, x, u :: (c == '"' || c == '\'') && Blank(v) && Blank(u) && value == v + [c] + x + u
      && (x == "" || (x[|x| - 1] != c && !IsSpace(x[|x| - 1])))
  }

  /** The quotes a masked value is put in. */
  ghost predicate MaskedIn(value: string, c: char) {
    QuotedBy(value, c) || (c == '"' && (Unquoted(value) || Unclosed(value)))
  }

  ghost predicate Has(t: string, part: string) {
    exists a, b :: t == a + part + b
  }

  /** An export line of the MinIO root password, after its indent. */
  ghost predicate ExportText(t: string) {
    && t != "" && !IsSpace(t[0]) && Has(t, "MINIO_ROOT_PASSWORD=") && Has(t, "export")
    && !("MINIO_ROOT_PASSWORD:" <= t)
  }

  // ---------- White space ----------

  lemma BlankIff(l: string)
    ensures IsBlank(l) <==> Blank(l)
  {
  }

  lemma BlankTwice(v: string, w: string)
    requires Blank(v) && Blank(w)
    ensures Blank(v + w)
  {
  }

  lemma {:induction false} StripRightOf(t: string, w: string)
    requires Blank(w) && (t == "" || !IsSpace(t[|t| - 1]))
    ensures StripRight(t + w) == t
    decreases |w|
  {
    if w == "" {
      assert t + w == t;
    } else {
      assert (t + w)[..|t + w| - 1] == t + w[..|w| - 1] && (t + w)[|t + w| - 1] == w[|w| - 1];
      StripRightOf(t, w[..|w| - 1]);
    }
  }

  lemma StripLeftOf(v: string, t: string)
    requires Blank(v) && t != "" && !IsSpace(t[0])
    ensures StripLeft(v + t) == t && LeadingSpace(v + t) == |v| && !IsBlank(v + t)
  {
    PrefixSplit(v, t);
  }

  lemma StripOf(v: string, t: string, w: string)
    requires Blank(v) && Blank(w) && t != "" && Trimmed(t)
    ensures Strip(v + t + w) == t && !IsBlank(v + t + w)
  {
    assert v + t + w == v + (t + w);
    assert (t + w)[0] == t[0];
    StripLeftOf(v, t + w);
    StripRightOf(t, w);
  }

  // ---------- Reading the document ----------

  lemma SeparatorIff(l: string)
    ensures IsSeparator(l) <==> SeparatorLine(l)
  {
    if "---" <= l {
      BlankIff(l[3..]);
    }
  }

  lemma DocumentIsAround(ls: Lines, s: nat, e: nat, k: nat)
    requires Document(ls, s, e) && s <= k < e
    ensures DocAround(RULES, ls, k) == ls[s..e] && !IsSeparator(ls[k])
  {
    forall m | 0 <= m < |ls|
      ensures RULES.isSeparator(ls[m]) <==> SeparatorLine(ls[m])
    {
      SeparatorIff(ls[m]);
    }
    DocStartIs(RULES, ls, k, s);
    DocEndIs(RULES, ls, k, e);
  }

  lemma HeaderLineIsRead(l: string, header: string, text: string)
    requires HeaderLine(l, header, text) && text != "" && Trimmed(text)
    ensures header <= l && Strip(l[|header|..]) == text && !IsBlank(l[|header|..])
  {
    var v, w :| Blank(v) && Blank(w) && l == header + v + text + w;
    assert l == header + (v + text + w);
    assert l[|header|..] == v + text + w;
    StripOf(v, text, w);
  }

  /** The first header of a document gives its text. */
  lemma {:induction false} HeaderIsRead(doc: Lines, header: string, i: nat, text: string)
    requires i < |doc| && HeaderLine(doc[i], header, text) && (forall j :: 0 <= j < i ==> !(header <= doc[j]))
    requires text != "" && Trimmed(text)
    ensures HeaderValue(doc, header) == Some(text)
    decreases i
  {
    if i > 0 {
      HeaderIsRead(doc[1..], header, i - 1, text);
    } else {
      HeaderLineIsRead(doc[0], header, text);
    }
  }

  lemma FirstHeaderIsRead(ls: Lines, s: nat, e: nat, header: string, text: string)
    requires e <= |ls| && FirstHeader(ls, s, e, header, text) && text != "" && Trimmed(text)
    ensures HeaderValue(ls[s..e], header) == Some(text)
  {
    var i :| s <= i < e && HeaderLine(ls[i], header, text) && forall j :: s <= j < i ==> !(header <= ls[j]);
    var doc := ls[s..e];
    assert doc[i - s] == ls[i];
    assert forall j :: 0 <= j < i - s ==> doc[j] == ls[s + j];
    HeaderIsRead(doc, header, i - s, text);
  }

  lemma PlainTextIsRead(l: string)
    requires PlainText(l)
    ensures !IsBlank(l) && !StartsWith(Strip(l), "---")
  {
    var v, t :| Blank(v) && l == v + t && t != "" && !IsSpace(t[0]) && !("---" <= t);
    StripLeftOf(v, t);
    HyphensInBody(l);
    assert Body(l) == t;
  }

  lemma {:induction false} PlainTextIsFirst(doc: Lines, f: nat)
    requires f < |doc| && (forall j :: 0 <= j < f ==> Blank(doc[j])) && PlainText(doc[f])
    ensures !PassesThrough(doc)
    decreases f
  {
    if f > 0 {
      BlankIff(doc[0]);
      PlainTextIsFirst(doc[1..], f - 1);
    } else {
      PlainTextIsRead(doc[0]);
    }
  }

  lemma BeginningIsRead(ls: Lines, s: nat, e: nat)
    requires e <= |ls| && BeginsPlainly(ls, s, e)
    ensures !PassesThrough(ls[s..e])
  {
    var f :| s <= f < e && (forall j :: s <= j < f ==> Blank(ls[j])) && PlainText(ls[f]);
    var doc := ls[s..e];
    assert doc[f - s] == ls[f] && forall j :: 0 <= j < f - s ==> doc[j] == ls[s + j];
    PlainTextIsFirst(doc, f - s);
  }

  lemma BareQuotes(name: string)
    requires name != "" && !IsQuote(name[0]) && !IsQuote(name[|name| - 1])
    ensures TrimQuotes(name) == name
  {
  }

  lemma QuotesTrimmed(text: string, name: string)
    requires Quotes(text, name) && name != "" && !IsQuote(name[0]) && !IsQuote(name[|name| - 1])
    ensures TrimQuotes(text) == name
  {
    BareQuotes(name);
    if text != name {
      var c := text[0];
      assert text == [c] + name + [c] && IsQuote(c);
      assert text[1..] == name + [c];
      assert (name + [c])[0] == name[0];
      assert TrimQuotesLeft(text) == TrimQuotesLeft(name + [c]) == name + [c];
      assert (name + [c])[..|name|] == name;
      assert TrimQuotesRight(name + [c]) == TrimQuotesRight(name);
    }
  }

  /** Neither end of the name is a quote or white space. */
  predicate WordLike(name: string) {
    name != "" && 'a' <= name[0] <= 'z' && 'a' <= name[|name| - 1] <= 'z'
  }

  lemma FieldsAre(name: string)
    ensures name == "clickhouse-credentials" ==> Fields(name) == [("CLICKHOUSE_PASSWORD", MASK)]
    ensures name == "neo4j-credentials" ==> Fields(name) == [("NEO4J_PASSWORD", MASK), ("NEO4J_AUTH", "neo4j/" + MASK)]
    ensures name == "qdrant-api-key" ==> Fields(name) == [("QDRANT_API_KEY", MASK)]
    ensures name == "minio-platform-credentials" ==> Fields(name) == [("S3_SECRET_KEY", MASK), ("MINIO_SECRET_KEY", MASK)]
    ensures name == "minio-root-credentials" ==> Fields(name) == [("MINIO_ROOT_PASSWORD", MASK)]
    ensures name == "minio-simulation-credentials" ==> Fields(name) == [("MINIO_SECRET_KEY", MASK)]
    ensures Fields(name) != [] ==>
              || name == "clickhouse-credentials" || name == "neo4j-credentials" || name == "qdrant-api-key"
              || name == "minio-platform-credentials" || name == "minio-root-credentials" || name == "minio-simulation-credentials"
  {
  }

  lemma Placeholders()
    ensures MASK == "***SNAPSHOT-NORMALIZED***" && "neo4j/" + MASK == "neo4j/***SNAPSHOT-NORMALIZED***"
  {
  }

  lemma VolatileIsField(name: string, key: string, placeholder: string)
    requires Volatile(name, key, placeholder)
    ensures (key, placeholder) in Fields(name)
  {
    FieldsAre(name);
    Placeholders();
    var fields := Fields(name);
    assert fields[0] == (key, placeholder) || (|fields| == 2 && fields[1] == (key, placeholder));
  }

  lemma FieldIsVolatile(name: string, f: (string, string))
    requires f in Fields(name)
    ensures Volatile(name, f.0, f.1)
  {
    FieldsAre(name);
    Placeholders();
    var fields := Fields(name);
    assert f == fields[0] || (|fields| == 2 && f == fields[1]);
  }

  lemma NamesAreWords(name: string)
    requires Fields(name) != []
    ensures WordLike(name)
  {
    FieldsAre(name);
  }

  lemma HeadersAreRead(ls: Lines, s: nat, e: nat, name: string)
    requires SecretDocument(ls, s, e, name) && WordLike(name)
    ensures !PassesThrough(ls[s..e]) && HeaderValue(ls[s..e], "kind:") == Some("Secret")
    ensures HeaderValue(ls[s..e], "  name:").Some? && TrimQuotes(HeaderValue(ls[s..e], "  name:").value) == name
  {
    BeginningIsRead(ls, s, e);
    KindIsRead(ls, s, e);
    var text :| FirstHeader(ls, s, e, "  name:", text) && Quotes(text, name);
    NameIsRead(ls, s, e, text, name);
  }

  lemma KindIsRead(ls: Lines, s: nat, e: nat)
    requires e <= |ls| && FirstHeader(ls, s, e, "kind:", "Secret")
    ensures s <= e && HeaderValue(ls[s..e], "kind:") == Some("Secret")
  {
    assert "Secret"[0] == 'S' && "Secret"[5] == 't';
    FirstHeaderIsRead(ls, s, e, "kind:", "Secret");
  }

  lemma NameIsRead(ls: Lines, s: nat, e: nat, text: string, name: string)
    requires e <= |ls| && FirstHeader(ls, s, e, "  name:", text) && Quotes(text, name) && WordLike(name)
    ensures s <= e && HeaderValue(ls[s..e], "  name:") == Some(text) && TrimQuotes(text) == name
  {
    QuotesTrim(text, name);
    FirstHeaderIsRead(ls, s, e, "  name:", text);
    QuotesTrimmed(text, name);
  }

  lemma QuotesTrim(text: string, name: string)
    requires Quotes(text, name) && WordLike(name)
    ensures text != "" && Trimmed(text)
  {
  }

  lemma SecretIsRead(ls: Lines, s: nat, e: nat, name: string)
    requires SecretDocument(ls, s, e, name) && Fields(name) != []
    ensures SecretOf(ls[s..e]) == Some(name)
  {
    NamesAreWords(name);
    HeadersAreRead(ls, s, e, name);
  }

  /** What becomes of a line of such a document. */
  lemma LineOfSecret(ls: Lines, s: nat, e: nat, k: nat, name: string)
    requires SecretDocument(ls, s, e, name) && Fields(name) != [] && s <= k < e
    ensures k < |Normalize(ls)|
    ensures Normalize(ls)[k] == if Touched(name, ls[k]) then MaskLine(name, ls[k]) else ls[k]
    ensures SecretOf(DocAround(RULES, ls, k)) == Some(name)
  {
    DocumentIsAround(ls, s, e, k);
    SecretIsRead(ls, s, e, name);
    EveryOtherLinePasses(ls, k);
  }

  // ---------- Reading a volatile line ----------

  lemma {:induction false} FieldIsFound(fields: seq<(string, string)>, body: string, f: (string, string))
    requires f in fields && f.0 + ":" <= body
    ensures FieldOf(fields, body).Some?
    decreases |fields|
  {
    if fields[0] != f && !(fields[0].0 + ":" <= body) {
      FieldIsFound(fields[1..], body, f);
    }
  }

  /** A secret has one placeholder for a key. */
  lemma OnePlaceholder(name: string, key: string, p: string, q: string)
    requires Volatile(name, key, p) && Volatile(name, key, q)
    ensures p == q
  {
  }

  lemma KeyLineSplits(w: string, key: string, value: string)
    requires Blank(w) && key != "" && !IsSpace(key[0])
    ensures var l := w + key + ":" + value;
            LeadingSpace(l) == |w| && Indent(l) == w && Body(l) == key + ":" + value
  {
    assert w + key + ":" + value == w + (key + ":" + value);
    PrefixSplit(w, key + ":" + value);
  }

  lemma KeyIsRead(name: string, key: string, placeholder: string, w: string, value: string)
    requires Volatile(name, key, placeholder) && Blank(w) && w != ""
    ensures var l := w + key + ":" + value;
            && KeyField(name, l) == Some((key, placeholder)) && Indent(l) == w
            && Body(l)[|key| + 1..] == value
  {
    var l, body := w + key + ":" + value, key + ":" + value;
    VolatileIsField(name, key, placeholder);
    FieldsArePlain(name, (key, placeholder));
    KeyLineSplits(w, key, value);
    assert key + ":" <= body && body[|key| + 1..] == value;
    FieldIsFound(Fields(name), body, (key, placeholder));
    var g := FieldOf(Fields(name), body).value;
    FieldsArePlain(name, g);
    PrefixesAgree(g.0, key, body);
    FieldIsVolatile(name, g);
    OnePlaceholder(name, key, placeholder, g.1);
  }

  lemma QuoteFrom(value: string, v: string, c: char, rest: string)
    requires Blank(v) && IsQuote(c) && value == v + ([c] + rest)
    ensures QuoteOf(value) == if StripRight(rest) != "" && StripRight(rest)[|StripRight(rest)| - 1] == c then c else '"'
  {
    StripLeftOf(v, [c] + rest);
    assert ([c] + rest)[1..] == rest;
  }

  lemma QuoteIsRead(value: string, c: char)
    requires QuotedBy(value, c)
    ensures QuoteOf(value) == c
  {
    var v, x, u :| Blank(v) && Blank(u) && value == v + [c] + x + [c] + u;
    ClosedQuote(value, v, c, x, u);
  }

  lemma ClosedQuote(value: string, v: string, c: char, x: string, u: string)
    requires IsQuote(c) && Blank(v) && Blank(u) && value == v + [c] + x + [c] + u
    ensures QuoteOf(value) == c
  {
    var rest := (x + [c]) + u;
    assert value == v + ([c] + rest);
    QuoteFrom(value, v, c, rest);
    StripRightOf(x + [c], u);
  }

  lemma NoQuoteIsRead(value: string)
    requires Unquoted(value)
    ensures QuoteOf(value) == '"'
  {
    var v, t :| Blank(v) && value == v + t && (t == "" || (t[0] != '"' && t[0] != '\'' && !IsSpace(t[0])));
    if t == "" {
      assert value == v;
      LeadingSpaceUnique(value, |value|);
    } else {
      StripLeftOf(v, t);
    }
  }

  lemma OpenQuoteIsRead(value: string)
    requires Unclosed(value)
    ensures QuoteOf(value) == '"'
  {
    var v, c, x, u :| (c == '"' || c == '\'') && Blank(v) && Blank(u) && value == v + [c] + x + u
      && (x == "" || (x[|x| - 1] != c && !IsSpace(x[|x| - 1])));
    OpenQuote(value, v, c, x, u);
  }

  lemma OpenQuote(value: string, v: string, c: char, x: string, u: string)
    requires IsQuote(c) && Blank(v) && Blank(u) && value == v + [c] + x + u
    requires x == "" || (x[|x| - 1] != c && !IsSpace(x[|x| - 1]))
    ensures QuoteOf(value) == '"'
  {
    assert value == v + ([c] + (x + u));
    QuoteFrom(value, v, c, x + u);
    StripRightOf(x, u);
  }

  lemma MaskQuoteIsRead(value: string, c: char)
    requires MaskedIn(value, c)
    ensures QuoteOf(value) == c
  {
    if QuotedBy(value, c) {
      QuoteIsRead(value, c);
    } else if Unquoted(value) {
      NoQuoteIsRead(value);
    } else {
      OpenQuoteIsRead(value);
    }
  }

  // ---------- What becomes of it ----------

  /**
   In a document of kind Secret with one of the known names, an indented line of a volatile key
   becomes the key with its placeholder, in the quotes the value had, or in double quotes.
   */
  lemma VolatileLineIsMasked(ls: Lines, s: nat, e: nat, k: nat, name: string, key: string, placeholder: string,
                             w: string, value: string, c: char)
    requires SecretDocument(ls, s, e, name) && Volatile(name, key, placeholder) && s <= k < e
    requires Blank(w) && w != "" && ls[k] == w + key + ":" + value && MaskedIn(value, c)
    ensures k < |Normalize(ls)| && Normalize(ls)[k] == w + key + ": " + [c] + placeholder + [c]
  {
    VolatileIsField(name, key, placeholder);
    LineOfSecret(ls, s, e, k, name);
    KeyLineMask(name, key, placeholder, w, value, c);
  }

  lemma KeyLineMask(name: string, key: string, placeholder: string, w: string, value: string, c: char)
    requires Volatile(name, key, placeholder) && Blank(w) && w != "" && MaskedIn(value, c)
    ensures var l := w + key + ":" + value;
            Touched(name, l) && MaskLine(name, l) == w + key + ": " + [c] + placeholder + [c]
  {
    var l := w + key + ":" + value;
    KeyIsRead(name, key, placeholder, w, value);
    MaskQuoteIsRead(value, c);
    MaskedKeyLineSettled(name, l);
    ExportNeedsEquals(name, MaskKey(name, l));
  }

  lemma HasMeansContains(t: string, part: string, w: string)
    requires Has(t, part)
    ensures Contains(w + t, part)
  {
    var a, b :| t == a + part + b;
    assert w + t == (w + a) + part + b;
    assert (w + t)[|w + a|..] == part + b;
    ContainsAt(w + t, |w + a|, part);
  }

  lemma {:induction false} ContainsMeansHas(t: string, part: string)
    requires Contains(t, part)
    ensures Has(t, part)
    decreases |t|
  {
    if part <= t {
      assert t == "" + part + t[|part|..];
    } else {
      ContainsMeansHas(t[1..], part);
      var a, b :| t[1..] == a + part + b;
      assert t == ([t[0]] + a) + part + b;
    }
  }

  lemma ExportIsRead(w: string, t: string)
    requires Blank(w) && ExportText(t)
    ensures IsPlainExport("minio-root-credentials", w + t) && Indent(w + t) == w && Body(w + t) == t
  {
    var l := w + t;
    PrefixSplit(w, t);
    HasMeansContains(t, "MINIO_ROOT_PASSWORD=", w);
    HasMeansContains(t, "export", w);
    assert "MINIO_ROOT_PASSWORD" + ":" == "MINIO_ROOT_PASSWORD:";
    if KeyField(ROOT_SECRET, l).Some? {
      RootField(KeyField(ROOT_SECRET, l).value);
      assert false;
    }
  }

  lemma RootField(f: (string, string))
    requires f in Fields(ROOT_SECRET)
    ensures f.0 == "MINIO_ROOT_PASSWORD"
  {
    FieldIsVolatile(ROOT_SECRET, f);
  }

  /** In the MinIO root credentials, an export line becomes the export of the placeholder, at its indent. */
  lemma ExportLineIsMasked(ls: Lines, s: nat, e: nat, k: nat, w: string, t: string)
    requires SecretDocument(ls, s, e, "minio-root-credentials") && s <= k < e
    requires Blank(w) && ExportText(t) && ls[k] == w + t
    ensures k < |Normalize(ls)| && Normalize(ls)[k] == w + "export MINIO_ROOT_PASSWORD=***SNAPSHOT-NORMALIZED***"
  {
    FieldsAre("minio-root-credentials");
    LineOfSecret(ls, s, e, k, "minio-root-credentials");
    ExportLineMask(w, t);
  }

  lemma ExportMaskIs()
    ensures EXPORT_HEAD + MASK == "export MINIO_ROOT_PASSWORD=***SNAPSHOT-NORMALIZED***"
  {
  }

  lemma ExportLineMask(w: string, t: string)
    requires Blank(w) && ExportText(t)
    ensures Touched("minio-root-credentials", w + t)
    ensures MaskLine("minio-root-credentials", w + t) == w + "export MINIO_ROOT_PASSWORD=***SNAPSHOT-NORMALIZED***"
  {
    ExportIsRead(w, t);
    PlainExportMasked("minio-root-credentials", w + t);
    ExportMaskIs();
    Regroup(w, EXPORT_HEAD, MASK);
  }

  /** The line is an indented one of a volatile key of the secret, or holds both words of an export. */
  ghost predicate VolatileLine(name: string, l: string) {
    || (exists key, placeholder, w, value :: Volatile(name, key, placeholder) && Blank(w) && w != "" && l == w + key + ":" + value)
    || (name == "minio-root-credentials" && Has(l, "MINIO_ROOT_PASSWORD=") && Has(l, "export"))
  }

  /** Every other line of such a document passes through. */
  lemma OtherLinePasses(ls: Lines, s: nat, e: nat, k: nat, name: string, key: string, placeholder: string)
    requires SecretDocument(ls, s, e, name) && Volatile(name, key, placeholder) && s <= k < e && !VolatileLine(name, ls[k])
    ensures k < |Normalize(ls)| && Normalize(ls)[k] == ls[k]
  {
    VolatileIsField(name, key, placeholder);
    LineOfSecret(ls, s, e, k, name);
    if Touched(name, ls[k]) {
      TouchedIsVolatile(name, ls[k]);
      assert false;
    }
  }

  lemma TouchedIsVolatile(name: string, l: string)
    requires Touched(name, l)
    ensures VolatileLine(name, l)
  {
    var f := KeyField(name, l);
    if f.Some? {
      KeyLineIsVolatile(name, l, f.value);
    } else {
      ContainsMeansHas(l, "MINIO_ROOT_PASSWORD=");
      ContainsMeansHas(l, "export");
    }
  }

  lemma KeyLineIsVolatile(name: string, l: string, f: (string, string))
    requires KeyField(name, l) == Some(f)
    ensures VolatileLine(name, l)
  {
    FieldIsVolatile(name, f);
    VolatileLineFrom(name, f.0, f.1, Indent(l), Body(l)[|f.0| + 1..]);
    KeyLineJoins(l, f.0);
  }

  lemma KeyLineJoins(l: string, key: string)
    requires key + ":" <= Body(l)
    ensures l == Indent(l) + key + ":" + Body(l)[|key| + 1..]
  {
    assert Body(l) == (key + ":") + Body(l)[|key| + 1..];
    assert l == Indent(l) + Body(l);
    RegroupFour(Indent(l), key, ":", Body(l)[|key| + 1..]);
  }

  lemma VolatileLineFrom(name: string, key: string, placeholder: string, w: string, value: string)
    requires Volatile(name, key, placeholder) && Blank(w) && w != ""
    ensures VolatileLine(name, w + key + ":" + value)
  {
  }

  /** A document whose kind is another one passes through. */
  lemma OtherKindPasses(ls: Lines, s: nat, e: nat, k: nat, kind: string)
    requires Document(ls, s, e) && s <= k < e && FirstHeader(ls, s, e, "kind:", kind)
    requires kind != "Secret" && kind != "" && Trimmed(kind)
    ensures k < |Normalize(ls)| && Normalize(ls)[k] == ls[k]
  {
    DocumentIsAround(ls, s, e, k);
    FirstHeaderIsRead(ls, s, e, "kind:", kind);
    EveryOtherLinePasses(ls, k);
  }

  // ---------- Texts that differ in volatile values ----------

  /** Line k is of the same volatile key in both texts, with values quoted alike. */
  ghost predicate ValueDiffers(a: Lines, b: Lines, k: nat, s: nat, e: nat, name: string, key: string, placeholder: string,
                               w: string, x: string, y: string, c: char)
    requires k < |a| && k < |b|
  {
    && SecretDocument(a, s, e, name) && s <= k < e && Volatile(name, key, placeholder) && Blank(w) && w != ""
    && a[k] == w + key + ":" + x && b[k] == w + key + ":" + y && MaskedIn(x, c) && MaskedIn(y, c)
  }

  ghost predicate DiffersInValue(a: Lines, b: Lines, k: nat)
    requires k < |a| && k < |b|
  {
    exists s: nat, e: nat, name, key, placeholder, w, x, y, c :: ValueDiffers(a, b, k, s, e, name, key, placeholder, w, x, y, c)
  }

  /** Line k begins, after the same indent, with an export, and is one of the MinIO root password, in both texts. */
  ghost predicate ExportDiffers(a: Lines, b: Lines, k: nat, s: nat, e: nat, w: string, x: string, y: string)
    requires k < |a| && k < |b|
  {
    && SecretDocument(a, s, e, "minio-root-credentials") && s <= k < e && Blank(w)
    && a[k] == w + x && b[k] == w + y && ExportText(x) && ExportText(y) && "export" <= x && "export" <= y
  }

  ghost predicate DiffersInExport(a: Lines, b: Lines, k: nat)
    requires k < |a| && k < |b|
  {
    exists s: nat, e: nat, w, x, y :: ExportDiffers(a, b, k, s, e, w, x, y)
  }

  lemma ValuesArePairs(a: Lines, b: Lines, k: nat)
    requires k < |a| == |b| && DiffersInValue(a, b, k)
    ensures VolatilePair(a, b, k)
  {
    var s: nat, e: nat, name, key, placeholder, w, x, y, c :| ValueDiffers(a, b, k, s, e, name, key, placeholder, w, x, y, c);
    ValuePair(a, b, k, s, e, name, key, placeholder, w, x, y, c);
  }

  lemma SameValueLines(name: string, key: string, placeholder: string, w: string, x: string, y: string, c: char)
    requires Volatile(name, key, placeholder) && Blank(w) && w != "" && MaskedIn(x, c) && MaskedIn(y, c)
    ensures SameButValue(name, w + key + ":" + x, w + key + ":" + y)
  {
    KeyIsRead(name, key, placeholder, w, x);
    KeyIsRead(name, key, placeholder, w, y);
    MaskQuoteIsRead(x, c);
    MaskQuoteIsRead(y, c);
  }

  lemma ValuePair(a: Lines, b: Lines, k: nat, s: nat, e: nat, name: string, key: string, placeholder: string,
                  w: string, x: string, y: string, c: char)
    requires k < |a| == |b| && ValueDiffers(a, b, k, s, e, name, key, placeholder, w, x, y, c)
    ensures VolatilePair(a, b, k)
  {
    VolatileIsField(name, key, placeholder);
    LineOfSecret(a, s, e, k, name);
    SameValueLines(name, key, placeholder, w, x, y, c);
    PairOf(a, b, k, name);
  }

  lemma PairOf(a: Lines, b: Lines, k: nat, name: string)
    requires k < |a| == |b| && SecretOf(DocAround(RULES, a, k)) == Some(name) && SameButValue(name, a[k], b[k])
    ensures VolatilePair(a, b, k)
  {
  }

  lemma ExportsBlend(w: string, x: string, y: string)
    requires Blank(w) && ExportText(y) && "export" <= y
    ensures Blends(w + x, w + y)
  {
    assert y[0] == "export"[0] && "export"[0] == 'e';
    PrefixSplit(w, y);
    BodyDecidesHeader(w + y);
  }

  lemma ExportsArePairs(a: Lines, b: Lines, k: nat)
    requires k < |a| == |b| && DiffersInExport(a, b, k)
    ensures VolatilePair(a, b, k)
  {
    var s: nat, e: nat, w, x, y :| ExportDiffers(a, b, k, s, e, w, x, y);
    ExportPair(a, b, k, s, e, w, x, y);
  }

  lemma ExportPair(a: Lines, b: Lines, k: nat, s: nat, e: nat, w: string, x: string, y: string)
    requires k < |a| == |b| && ExportDiffers(a, b, k, s, e, w, x, y)
    ensures VolatilePair(a, b, k)
  {
    FieldsAre("minio-root-credentials");
    LineOfSecret(a, s, e, k, "minio-root-credentials");
    SameExportLines(w, x, y);
    PairOf(a, b, k, "minio-root-credentials");
  }

  lemma SameExportLines(w: string, x: string, y: string)
    requires Blank(w) && ExportText(x) && ExportText(y) && "export" <= x && "export" <= y
    ensures SameButValue("minio-root-credentials", w + x, w + y)
  {
    ExportIsRead(w, x);
    ExportIsRead(w, y);
    ExportsBlend(w, x, y);
  }

  /**
   Two texts whose lines are the same, but for the values of volatile keys quoted alike and the
   export lines of the MinIO root password, normalise to the same text.
   */
  lemma ValuesDoNotShow(a: Lines, b: Lines)
    requires |a| == |b| && forall k: nat :: k < |a| ==> a[k] == b[k] || DiffersInValue(a, b, k) || DiffersInExport(a, b, k)
    ensures Normalize(a) == Normalize(b)
  {
    forall k: nat | k < |a|
      ensures a[k] == b[k] || VolatilePair(a, b, k)
    {
      if a[k] != b[k] {
        if DiffersInValue(a, b, k) {
          ValuesArePairs(a, b, k);
        } else {
          ExportsArePairs(a, b, k);
        }
      }
    }
    NonInterference(a, b);
  }

  // ---------- An example ----------

  /** A rendered secret: its key is masked. */
  lemma RenderedSecret(ls: Lines, value: string)
    requires ls == ["kind: Secret", "metadata:", "  name: qdrant-api-key", "stringData:", "  QDRANT_API_KEY: \"" + value + "\""]
    ensures |Normalize(ls)| >= 5 && Normalize(ls)[4] == "  QDRANT_API_KEY: \"***SNAPSHOT-NORMALIZED***\""
  {
    var v := " \"" + value + "\"";
    ExampleDocument(ls);
    ExampleValue(value);
    VolatileLineIsMasked(ls, 0, 5, 4, "qdrant-api-key", "QDRANT_API_KEY", "***SNAPSHOT-NORMALIZED***", "  ", v, '"');
    ExampleOutput();
  }

  lemma ExampleValue(value: string)
    ensures QuotedBy(" \"" + value + "\"", '"')
    ensures "  QDRANT_API_KEY: \"" + value + "\"" == "  " + "QDRANT_API_KEY" + ":" + (" \"" + value + "\"")
    ensures Blank("  ")
  {
    assert " \"" + value + "\"" == " " + ['"'] + value + ['"'] + "";
    assert Blank(" ") && Blank("");
    assert "  QDRANT_API_KEY: \"" == "  " + "QDRANT_API_KEY" + ":" + " \"";
  }

  lemma ExampleOutput()
    ensures "  " + "QDRANT_API_KEY" + ": " + ['"'] + "***SNAPSHOT-NORMALIZED***" + ['"'] == "  QDRANT_API_KEY: \"***SNAPSHOT-NORMALIZED***\""
  {
  }

  lemma ExampleDocument(ls: Lines)
    requires |ls| == 5 && ls[0] == "kind: Secret" && ls[1] == "metadata:" && ls[2] == "  name: qdrant-api-key" && ls[3] == "stringData:"
    requires ls[4] != "" && ls[4][0] == ' '
    ensures SecretDocument(ls, 0, 5, "qdrant-api-key")
  {
    ExampleKindHeader(ls);
    ExampleNameHeader(ls);
    ExampleSeparators(ls);
    assert Quotes("qdrant-api-key", "qdrant-api-key");
    SecretDocumentOf(ls, 0, 5, "qdrant-api-key", "qdrant-api-key");
  }

  lemma ExampleKindHeader(ls: Lines)
    requires |ls| == 5 && ls[0] == "kind: Secret"
    ensures FirstHeader(ls, 0, 5, "kind:", "Secret") && BeginsPlainly(ls, 0, 5)
  {
    ExampleKind(ls[0]);
    FirstHeaderAt(ls, 0, 5, "kind:", "Secret", 0);
    BeginsAt(ls, 0, 5);
  }

  lemma ExampleNameHeader(ls: Lines)
    requires |ls| == 5 && ls[0] == "kind: Secret" && ls[1] == "metadata:" && ls[2] == "  name: qdrant-api-key"
    ensures FirstHeader(ls, 0, 5, "  name:", "qdrant-api-key")
  {
    ExampleName(ls[2]);
    BeginsOtherwise(ls[0], "  name:", ' ');
    BeginsOtherwise(ls[1], "  name:", ' ');
    FirstHeaderAt(ls, 0, 5, "  name:", "qdrant-api-key", 2);
  }

  lemma ExampleSeparators(ls: Lines)
    requires |ls| == 5 && ls[0] == "kind: Secret" && ls[1] == "metadata:" && ls[2] == "  name: qdrant-api-key" && ls[3] == "stringData:"
    requires ls[4] != "" && ls[4][0] == ' '
    ensures Document(ls, 0, 5)
  {
    forall m | 0 <= m < 5
      ensures !SeparatorLine(ls[m])
    {
      BeginsOtherwise(ls[m], "---", '-');
    }
    WholeDocument(ls);
  }

  lemma ExampleKind(l: string)
    requires l == "kind: Secret"
    ensures HeaderLine(l, "kind:", "Secret") && PlainText(l) && !SeparatorLine(l) && !("  name:" <= l)
  {
    assert Blank(" ") && Blank("");
    assert l == "kind:" + " " + "Secret" + "";
    assert l[0] == 'k' && "  name:"[0] == ' ';
    assert l == "" + l;
  }

  lemma ExampleName(l: string)
    requires l == "  name: qdrant-api-key"
    ensures HeaderLine(l, "  name:", "qdrant-api-key")
  {
    assert Blank(" ") && Blank("");
    assert l == "  name:" + " " + "qdrant-api-key" + "";
  }

  lemma BeginsOtherwise(l: string, prefix: string, c: char)
    requires l != "" && prefix != "" && prefix[0] == c && l[0] != c
    ensures !(prefix <= l)
  {
  }

  lemma BeginsAt(ls: Lines, s: nat, e: nat)
    requires s < e <= |ls| && PlainText(ls[s])
    ensures BeginsPlainly(ls, s, e)
  {
  }

  lemma WholeDocument(ls: Lines)
    requires |ls| > 0 && forall m :: 0 <= m < |ls| ==> !SeparatorLine(ls[m])
    ensures Document(ls, 0, |ls|)
  {
  }

  lemma FirstHeaderAt(ls: Lines, s: nat, e: nat, header: string, text: string, i: nat)
    requires s <= i < e <= |ls| && HeaderLine(ls[i], header, text) && forall j :: s <= j < i ==> !(header <= ls[j])
    ensures FirstHeader(ls, s, e, header, text)
  {
  }

  lemma SecretDocumentOf(ls: Lines, s: nat, e: nat, name: string, text: string)
    requires Document(ls, s, e) && BeginsPlainly(ls, s, e) && FirstHeader(ls, s, e, "kind:", "Secret")
    requires FirstHeader(ls, s, e, "  name:", text) && Quotes(text, name)
    ensures SecretDocument(ls, s, e, name)
  {
  }
}
