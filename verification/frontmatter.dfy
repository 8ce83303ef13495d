/**
  Front matter extraction (src/parser/frontmatter.rs): the "---" framing,
  the copying of string-keyed YAML entries into a field map, and field
  lookup. The YAML loader and the debug rendering of non-string values are
  parameters.
*/
module FrontmatterParser {
  import opened Errors
  import opened Strings

  /** The YAML values the extraction distinguishes. */
  datatype Yaml =
    | YString(text: string)
    | YHash(entries: seq<(Yaml, Yaml)>)
    | YArray(items: seq<Yaml>)
    | YScalar(literal: string)
    | YNull

  /** What `YamlLoader::load_from_str` returns: the documents, or a scan
      error with its message. */
  datatype LoadResult = Loaded(docs: seq<Yaml>) | ScanError(message: string)

  datatype Frontmatter = Frontmatter(fields: map<string, string>)

  const Delimiter := "---"

  /** The text before and after the first occurrence of `p`. */
  function SplitOnce(s: string, p: string): (r: Option<(string, string)>)
    requires p != []
    ensures r.None? <==> FindPattern(s, p).None?
    ensures r.Some? ==> FindPattern(s, p) == Some(|r.value.0|) && r.value.0 + p + r.value.1 == s
  {
    match FindPattern(s, p)
    case None => None
    case Some(i) =>
      assert s == s[..i] + s[i..i + |p|] + s[i + |p|..];
      Some((s[..i], s[i + |p|..]))
  }

  lemma JoinTwo(a: string, b: string, p: string)
    ensures Join([a, b], p) == a + p + b
  {
    assert [a, b][1..] == [b];
  }

  lemma JoinThree(a: string, b: string, c: string, p: string)
    ensures Join([a, b, c], p) == a + p + (b + p + c)
  {
    assert [a, b, c][1..] == [b, c];
    JoinTwo(b, c, p);
  }

  /** `str::splitn(3, p)`: at most three parts, split at the first two
      occurrences of `p`. */
  function SplitN3(s: string, p: string): (parts: seq<string>)
    requires p != []
    ensures 1 <= |parts| <= 3
    ensures Join(parts, p) == s
    ensures |parts| >= 2 ==> FindPattern(s, p) == Some(|parts[0]|)
    ensures |parts| == 1 <==> FindPattern(s, p).None?
  {
    match SplitOnce(s, p)
    case None => [s]
    case Some((before, rest)) =>
      match SplitOnce(rest, p)
      case None =>
        JoinTwo(before, rest, p);
        [before, rest]
      case Some((middle, after)) =>
        JoinThree(before, middle, after, p);
        assert before + p + (middle + p + after) == s;
        [before, middle, after]
  }

  /** Text that starts with the delimiter splits with an empty first part. */
  lemma LeadingDelimiterPart(s: string)
    requires StartsWith(s, Delimiter)
    ensures SplitN3(s, Delimiter)[0] == []
    ensures |SplitN3(s, Delimiter)| >= 2
  {
    assert s[..3] == Delimiter;
  }

  /** The value a YAML entry stores: a string as it is, anything else as
      its debug rendering. */
  function FieldValue(value: Yaml, render: Yaml -> string): string {
    if value.YString? then value.text else render(value)
  }

  /** The fields of a YAML hash, entry by entry; entries whose key is not a
      string are skipped. */
  function FieldsOf(entries: seq<(Yaml, Yaml)>, render: Yaml -> string): map<string, string> {
    if entries == [] then map[]
    else
      var m := FieldsOf(entries[..|entries| - 1], render);
      var (key, value) := entries[|entries| - 1];
      if key.YString? then m[key.text := FieldValue(value, render)] else m
  }

  /** A key is a field exactly when some entry has it as a string key. */
  lemma {:induction false} FieldsOfKeys(entries: seq<(Yaml, Yaml)>, render: Yaml -> string, k: string)
    ensures k in FieldsOf(entries, render) <==> exists i :: 0 <= i < |entries| && entries[i].0 == YString(k)
  {
    if entries != [] {
      var init := entries[..|entries| - 1];
      FieldsOfKeys(init, render, k);
      assert forall i :: 0 <= i < |init| ==> init[i] == entries[i];
      if k in FieldsOf(entries, render) && entries[|entries| - 1].0 != YString(k) {
        assert k in FieldsOf(init, render);
      }
    }
  }

  /** With distinct keys (as in a YAML hash), each string-keyed entry's
      value is stored under its key. */
  lemma {:induction false} FieldsOfValue(entries: seq<(Yaml, Yaml)>, render: Yaml -> string, i: nat)
    requires i < |entries| && entries[i].0.YString?
    requires forall a, b :: 0 <= a < b < |entries| ==> entries[a].0 != entries[b].0
    ensures var k := entries[i].0.text;
      k in FieldsOf(entries, render) && FieldsOf(entries, render)[k] == FieldValue(entries[i].1, render)
  {
    var init := entries[..|entries| - 1];
    if i < |entries| - 1 {
      assert init[i] == entries[i];
      FieldsOfValue(init, render, i);
      assert entries[|entries| - 1].0 != entries[i].0;
    }
  }

  /** The loop over the hash entries. */
  method ReadFields(entries: seq<(Yaml, Yaml)>, render: Yaml -> string) returns (fields: map<string, string>)
    ensures fields == FieldsOf(entries, render)
  {
    fields := map[];
    for i := 0 to |entries|
      invariant fields == FieldsOf(entries[..i], render)
    {
      assert entries[..i + 1][..i] == entries[..i];
      var (key, value) := entries[i];
      if key.YString? {
        if value.YString? {
          fields := fields[key.text := value.text];
        } else {
          fields := fields[key.text := render(value)];
        }
      }
    }
    assert entries[..|entries|] == entries;
  }

  /** What the extraction yields once the YAML text and the rest of the
      document are cut out: a YAML error is a parse error of "frontmatter",
      no document means no front matter, and otherwise the first document's
      string-keyed entries are the fields. */
  function FromYaml(load: LoadResult, rest: string, render: Yaml -> string): (r: Result<Option<(Frontmatter, string)>>)
    ensures r.Err? <==> load.ScanError?
    ensures load.ScanError? ==> r == Err(MarkdownParseError("frontmatter", "YAML parse error: " + load.message))
    ensures r.Ok? && r.value.Some? <==> load.Loaded? && load.docs != []
    ensures r.Ok? && r.value.Some? ==> r.value.value.1 == rest
    ensures r.Ok? && r.value.Some? && !load.docs[0].YHash? ==> r.value.value.0.fields == map[]
  {
    match load
    case ScanError(message) => Err(MarkdownParseError("frontmatter", "YAML parse error: " + message))
    case Loaded(docs) =>
      if docs == [] then Ok(None)
      else
        var fields := if docs[0].YHash? then FieldsOf(docs[0].entries, render) else map[];
        Ok(Some((Frontmatter(fields), rest)))
  }

  method ReadYaml(yamlContent: string, remaining: string, load: string -> LoadResult, render: Yaml -> string)
    returns (r: Result<Option<(Frontmatter, string)>>)
    ensures r == FromYaml(load(yamlContent), remaining, render)
  {
    var docs;
    match load(yamlContent) {
      case ScanError(message) =>
        return Err(MarkdownParseError("frontmatter", "YAML parse error: " + message));
      case Loaded(ds) =>
        docs := ds;
    }
    if docs == [] {
      return Ok(None);
    }
    var fields := map[];
    if docs[0].YHash? {
      fields := ReadFields(docs[0].entries, render);
    }
    r := Ok(Some((Frontmatter(fields), remaining)));
  }

  /** `FrontmatterParser::extract`. Text that does not start with "---", or
      has no closing "---", has no front matter; otherwise the trimmed text
      between the first two delimiters is loaded as YAML and the trimmed
      text after the second is the rest of the document. */
  method Extract(content: string, load: string -> LoadResult, render: Yaml -> string)
    returns (r: Result<Option<(Frontmatter, string)>>)
    ensures !StartsWith(content, Delimiter) ==> r == Ok(None)
    ensures StartsWith(content, Delimiter) && |SplitN3(content, Delimiter)| < 3 ==> r == Ok(None)
    ensures StartsWith(content, Delimiter) && |SplitN3(content, Delimiter)| == 3 ==>
      r == FromYaml(load(Trim(SplitN3(content, Delimiter)[1])), Trim(SplitN3(content, Delimiter)[2]), render)
  {
    if !StartsWith(content, Delimiter) {
      return Ok(None);
    }
    var parts := SplitN3(content, Delimiter);
    if |parts| < 3 {
      return Ok(None);
    }
    r := ReadYaml(Trim(parts[1]), Trim(parts[2]), load, render);
  }

  /** Splitting `a + p + b` once, when `a` never holds the pattern's first
      byte, gives `a` and `b` back. */
  lemma {:induction false} SplitOnceAt(a: string, p: string, b: string)
    requires p != [] && p[0] !in a
    ensures SplitOnce(a + p + b, p) == Some((a, b))
  {
    var s := a + p + b;
    assert s[|a|..][..|p|] == p;
    assert forall j :: 0 <= j < |a| ==> s[j..][0] == a[j];
    var r := SplitOnce(s, p);
    assert |r.value.0| == |a|;
    assert r.value.0 == s[..|a|] == a;
    assert r.value.1 == s[|a| + |p|..] == b;
  }

  /** A document framed as delimiter, YAML, delimiter, body, whose YAML never
      holds the delimiter's first byte, splits into an empty lead, the YAML
      and the body. */
  lemma SplitFramed(p: string, yaml: string, body: string)
    requires p != [] && p[0] !in yaml
    ensures StartsWith(p + yaml + p + body, p)
    ensures SplitN3(p + yaml + p + body, p) == ["", yaml, body]
  {
    var content := p + yaml + p + body;
    var rest := yaml + p + body;
    assert content == [] + p + rest;
    SplitOnceAt([], p, rest);
    SplitOnceAt(yaml, p, body);
    assert SplitOnce(content, p) == Some(([], rest));
    assert SplitOnce(rest, p) == Some((yaml, body));
  }

  /** So `---` YAML `---` body, with no '-' in the YAML, extracts exactly
      the YAML and the trimmed body. */
  lemma ExtractFramed(yaml: string, body: string)
    requires '-' !in yaml
    ensures var content := Delimiter + yaml + Delimiter + body;
      StartsWith(content, Delimiter) && SplitN3(content, Delimiter) == ["", yaml, body]
  {
    SplitFramed(Delimiter, yaml, body);
  }

  /** `FrontmatterParser::get_field`. */
  function GetField(frontmatter: Frontmatter, key: string): (r: Option<string>)
    ensures r.Some? <==> key in frontmatter.fields
    ensures r.Some? ==> r.value == frontmatter.fields[key]
  {
    if key in frontmatter.fields then Some(frontmatter.fields[key]) else None
  }
}
