/**
 The normaliser of rendered Helm templates. A text is given by its lines: the
 stretches between newline characters, so that the last line is the unterminated
 one, empty when the text ends in a newline. The script's regular expressions are
 written as recognisers on lines; a value that a header line leaves blank is taken
 from the next line that is not blank, as their white-space class runs over newlines.
 */
module HelmSnapshot {
  import opened Options
  import opened Text
  import opened Sequences
  import opened DocumentStream

  type Lines = seq<string>

  const MASK := "***SNAPSHOT-NORMALIZED***"

  /** The volatile keys of a secret, each with its placeholder. */
  function Fields(secret: string): seq<(string, string)> {
    if secret == "clickhouse-credentials" then [("CLICKHOUSE_PASSWORD", MASK)]
    else if secret == "neo4j-credentials" then [("NEO4J_PASSWORD", MASK), ("NEO4J_AUTH", "neo4j/" + MASK)]
    else if secret == "qdrant-api-key" then [("QDRANT_API_KEY", MASK)]
    else if secret == "minio-platform-credentials" then [("S3_SECRET_KEY", MASK), ("MINIO_SECRET_KEY", MASK)]
    else if secret == ROOT_SECRET then [("MINIO_ROOT_PASSWORD", MASK)]
    else if secret == "minio-simulation-credentials" then [("MINIO_SECRET_KEY", MASK)]
    else []
  }

  const ROOT_SECRET := "minio-root-credentials"
  const EXPORT_HEAD := "export MINIO_ROOT_PASSWORD="

  // ---------- Recognising a volatile line ----------

  predicate IsQuote(c: char) {
    c == '"' || c == '\''
  }

  function Indent(l: string): string {
    l[..LeadingSpace(l)]
  }

  function Body(l: string): string {
    l[LeadingSpace(l)..]
  }

  predicate Contains(s: string, part: string) {
    part <= s || (s != "" && Contains(s[1..], part))
  }

  /** The first field whose key, with a colon, begins the text. */
  function FieldOf(fields: seq<(string, string)>, body: string): (f: Option<(string, string)>)
    ensures f.Some? ==> f.value in fields && StartsWith(body, f.value.0 + ":")
  {
    if fields == [] then None
    else if StartsWith(body, fields[0].0 + ":") then Some(fields[0])
    else FieldOf(fields[1..], body)
  }

  /** The field of an indented "KEY: value" line. */
  function KeyField(secret: string, l: string): (f: Option<(string, string)>)
    ensures f.Some? ==> f.value in Fields(secret) && StartsWith(Body(l), f.value.0 + ":") && |f.value.0| + 1 <= |Body(l)|
  {
    if LeadingSpace(l) == 0 then None else FieldOf(Fields(secret), Body(l))
  }

  /** The quote a value is wrapped in; an unquoted or unclosed value counts as double-quoted. */
  function QuoteOf(value: string): char {
    var u := StripLeft(value);
    if u != "" && IsQuote(u[0]) && StripRight(u[1..]) != "" && StripRight(u[1..])[|StripRight(u[1..])| - 1] == u[0]
    then u[0] else '"'
  }

  function MaskedKeyLine(indent: string, field: (string, string), quote: char): string {
    indent + field.0 + ": " + [quote] + field.1 + [quote]
  }

  /** First pass over a line: the value of a volatile key. */
  function MaskKey(secret: string, l: string): string {
    var f := KeyField(secret, l);
    if f.None? then l
    else MaskedKeyLine(Indent(l), f.value, QuoteOf(Body(l)[|f.value.0| + 1..]))
  }

  predicate IsExport(secret: string, l: string) {
    secret == ROOT_SECRET && Contains(l, "MINIO_ROOT_PASSWORD=") && Contains(l, "export")
  }

  /** Second pass: the export line of the MinIO root credentials. */
  function MaskExport(secret: string, l: string): string {
    if IsExport(secret, l) then Indent(l) + EXPORT_HEAD + MASK else l
  }

  function MaskLine(secret: string, l: string): string {
    MaskExport(secret, MaskKey(secret, l))
  }

  /** One of the two passes rewrites the line. */
  predicate Touched(secret: string, l: string) {
    KeyField(secret, l).Some? || IsExport(secret, MaskKey(secret, l))
  }

  // ---------- Recognising the document ----------

  predicate IsBlank(l: string) {
    LeadingSpace(l) == |l|
  }

  /** The first line that is not blank, trimmed. */
  function FirstText(ls: Lines): Option<string> {
    if ls == [] then None
    else if IsBlank(ls[0]) then FirstText(ls[1..])
    else Some(Strip(ls[0]))
  }

  /** The value of the first line that begins with the header. */
  function HeaderValue(ls: Lines, header: string): Option<string> {
    if ls == [] then None
    else if StartsWith(ls[0], header) then FirstText([ls[0][|header|..]] + ls[1..])
    else HeaderValue(ls[1..], header)
  }

  function TrimQuotesLeft(s: string): string {
    if s != "" && IsQuote(s[0]) then TrimQuotesLeft(s[1..]) else s
  }

  function TrimQuotesRight(s: string): string {
    if s != "" && IsQuote(s[|s| - 1]) then TrimQuotesRight(s[..|s| - 1]) else s
  }

  function TrimQuotes(s: string): string {
    TrimQuotesRight(TrimQuotesLeft(s))
  }

  /** A document that is blank, or whose text begins with "---", is passed through as it is. */
  predicate PassesThrough(doc: Lines) {
    var t := FirstText(doc);
    t.None? || StartsWith(t.value, "---")
  }

  /** The secret whose fields are masked in a document, if any. */
  function SecretOf(doc: Lines): Option<string> {
    if PassesThrough(doc) || HeaderValue(doc, "kind:") != Some("Secret") || HeaderValue(doc, "  name:").None? then None
    else
      var name := TrimQuotes(HeaderValue(doc, "  name:").value);
      if Fields(name) == [] then None else Some(name)
  }

  /** A separator line: three hyphens and white space. */
  predicate IsSeparator(l: string) {
    StartsWith(l, "---") && IsBlank(l[3..])
  }

  // ---------- Normalising ----------

  function MaskIn(doc: Lines, l: string): string {
    match SecretOf(doc) case None => l case Some(secret) => MaskLine(secret, l)
  }

  /** The line is rewritten, which also ends it with a newline. */
  predicate EndsLine(doc: Lines, l: string) {
    match SecretOf(doc) case None => false case Some(secret) => Touched(secret, l)
  }

  const RULES := Rules(IsSeparator, IsBlank, "", MaskIn, EndsLine)

  function Normalize(ls: Lines): Lines {
    RewriteParts(RULES, Split(RULES, ls))
  }

  /** Overwriting every line of a document. */
  method RewriteInPlace(lines: array<string>, f: string -> string)
    modifies lines
    ensures forall k :: 0 <= k < lines.Length ==> lines[k] == f(old(lines[k]))
  {
    for i := 0 to lines.Length
      invariant forall k :: 0 <= k < i ==> lines[k] == f(old(lines[k]))
      invariant forall k :: i <= k < lines.Length ==> lines[k] == old(lines[k])
    {
      lines[i] := f(lines[i]);
    }
  }

  /** The two passes over the lines of a secret; only the MinIO root credentials get the second. */
  method MaskDocument(doc: Lines, secret: string) returns (out: Lines)
    ensures |out| == |doc| && forall k :: 0 <= k < |doc| ==> out[k] == MaskLine(secret, doc[k])
  {
    var lines := new string[|doc|](k requires 0 <= k < |doc| => doc[k]);
    RewriteInPlace(lines, l => MaskKey(secret, l));
    if secret == ROOT_SECRET {
      RewriteInPlace(lines, l => MaskExport(secret, l));
    }
    out := lines[..];
  }

  method NormalizeDoc(doc: Lines, last: bool) returns (out: Lines)
    ensures out == RewriteDoc(RULES, doc, last)
  {
    var secret := SecretOf(doc);
    if secret.None? {
      assert doc == RewriteAll(RULES, doc, doc);
      return doc;
    }
    out := MaskDocument(doc, secret.value);
    assert out == RewriteAll(RULES, doc, doc);
    if last && doc != [] && Touched(secret.value, doc[|doc| - 1]) {
      out := out + [""];
    }
  }

  method NormalizeText(ls: Lines) returns (out: Lines)
    ensures out == Normalize(ls)
  {
    var parts := SplitDocuments(RULES, ls);
    out := [];
    var rest := parts;
    while rest != []
      invariant out + RewriteParts(RULES, rest) == RewriteParts(RULES, parts)
      decreases |rest|
    {
      var text := rest[0].lines;
      if rest[0].Doc? {
        text := NormalizeDoc(rest[0].lines, |rest| == 1);
      }
      Regroup(out, text, RewriteParts(RULES, rest[1..]));
      out, rest := out + text, rest[1..];
    }
  }
}
