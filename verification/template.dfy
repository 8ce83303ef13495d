/**
  File header templates (src/utils/template.rs): placeholder substitution
  and the reading and checking of a three-line "// key: value" header.
*/
module Template {
  import opened Errors
  import opened Strings

  // The default template, piece by piece.
  const FileLead := "// file: "
  const DescriptionLead := "// description: "
  const ReferenceLead := "// reference: "

  /** `{key}`, the placeholder `generate_with_map` substitutes for `key`. */
  function Placeholder(key: string): (p: string)
    ensures p != [] && p[0] == '{' && p[|p| - 1] == '}'
  {
    "{" + key + "}"
  }

  const DefaultTemplate: string :=
    FileLead + Placeholder("file_path") + "\n" + DescriptionLead + Placeholder("description")
    + "\n" + ReferenceLead + Placeholder("reference")

  datatype FileTemplate = FileTemplate(template: string)

  /** `FileTemplate::new`. */
  function NewTemplate(): (t: FileTemplate)
    ensures t.template == DefaultTemplate
  {
    FileTemplate(DefaultTemplate)
  }

  /** `FileTemplate::with_custom_template`. */
  function WithCustomTemplate(template: string): (t: FileTemplate)
    ensures t.template == template
  {
    FileTemplate(template)
  }

  /** `FileTemplate::generate`: {file_path}, then {description}, then
      {reference}, each replaced everywhere in the text produced so far. */
  function Generate(t: FileTemplate, filePath: string, description: string, reference: string): string {
    Replace(Replace(Replace(t.template, Placeholder("file_path"), filePath),
                    Placeholder("description"), description),
            Placeholder("reference"), reference)
  }

  // ----- substitution in the default template -----

  predicate BraceFree(s: string) {
    '{' !in s && '}' !in s
  }

  /** The key sits between the braces, and the closing brace occurs only at the end. */
  lemma PlaceholderShape(key: string)
    requires '}' !in key
    ensures var p := Placeholder(key);
      p[1..|p| - 1] == key && forall i :: 0 <= i < |p| - 1 ==> p[i] != '}'
  {
    var p := Placeholder(key);
    assert forall i :: 1 <= i < |p| - 1 ==> p[i] == key[i - 1];
  }

  /** A placeholder never starts with the placeholder of another key. */
  lemma PlaceholderNotPrefix(key: string, other: string, b: string)
    requires BraceFree(key) && BraceFree(other) && key != other
    ensures !StartsWith(Placeholder(other) + b, Placeholder(key))
  {
    var p, q := Placeholder(key), Placeholder(other);
    PlaceholderShape(key);
    PlaceholderShape(other);
    var s := q + b;
    if |s| >= |p| {
      if |p| < |q| {
        assert s[..|p|][|p| - 1] == q[|p| - 1] != '}' == p[|p| - 1];
      } else if |p| == |q| {
        assert s[..|p|] == q != p;
      } else {
        assert s[..|p|][|q| - 1] == q[|q| - 1] == '}' != p[|q| - 1];
      }
    }
  }

  /** A replacement walks past another key's placeholder untouched. */
  lemma PassesOtherPlaceholder(a: string, other: string, b: string, key: string, v: string)
    requires '{' !in a && BraceFree(other) && BraceFree(key) && other != key
    ensures Replace(a + Placeholder(other) + b, Placeholder(key), v)
         == a + Placeholder(other) + Replace(b, Placeholder(key), v)
  {
    var p := Placeholder(key);
    var q := Placeholder(other);
    ReplaceSkipsPrefix(a, q + b, p, v);
    assert a + q + b == a + (q + b);
    var s := q + b;
    PlaceholderNotPrefix(key, other, b);
    if |s| >= |p| {
      assert s[1..] == (other + "}") + b;
      ReplaceSkipsPrefix(other + "}", b, p, v);
      assert [s[0]] + (other + "}") == q;
    } else {
      ReplaceShort(b, p, v);
      ReplaceShort(s, p, v);
    }
  }

  /** A replacement substitutes the value for its own placeholder. */
  lemma HitsOwnPlaceholder(a: string, key: string, b: string, v: string)
    requires '{' !in a
    ensures Replace(a + Placeholder(key) + b, Placeholder(key), v) == a + v + Replace(b, Placeholder(key), v)
  {
    ReplaceSkipsPrefix(a, Placeholder(key) + b, Placeholder(key), v);
    ReplaceAtFront(Placeholder(key), b, v);
    assert a + Placeholder(key) + b == a + (Placeholder(key) + b);
  }

  const M1 := "\n" + DescriptionLead
  const M2 := "\n" + ReferenceLead

  /** The literal pieces of the default template hold no brace, and its
      three keys are distinct. */
  lemma DefaultPieces()
    ensures '{' !in FileLead && '{' !in M1 && '{' !in M2
    ensures BraceFree("file_path") && BraceFree("description") && BraceFree("reference")
    ensures "file_path" != "description" && "file_path" != "reference" && "description" != "reference"
    ensures DefaultTemplate == FileLead + Placeholder("file_path") + M1 + Placeholder("description")
                               + M2 + Placeholder("reference")
  {
    assert "file_path"[0] != "description"[0] && "file_path"[0] != "reference"[0] && "description"[0] != "reference"[0];
  }

  /** A placeholder is left alone by the replacement of another key. */
  lemma OtherUntouched(m: string, other: string, key: string, v: string)
    requires '{' !in m && BraceFree(other) && BraceFree(key) && other != key
    ensures Replace(m + Placeholder(other), Placeholder(key), v) == m + Placeholder(other)
  {
    PassesOtherPlaceholder(m, other, [], key, v);
    ReplaceShort([], Placeholder(key), v);
    assert m + Placeholder(other) == m + Placeholder(other) + [];
  }

  /** Two placeholders are left alone by the replacement of a third key. */
  lemma OthersUntouched(m1: string, k2: string, m2: string, k3: string, k1: string, v: string)
    requires '{' !in m1 && '{' !in m2
    requires BraceFree(k1) && BraceFree(k2) && BraceFree(k3) && k1 != k2 && k1 != k3
    ensures Replace(m1 + Placeholder(k2) + m2 + Placeholder(k3), Placeholder(k1), v)
         == m1 + Placeholder(k2) + m2 + Placeholder(k3)
  {
    var tail := m2 + Placeholder(k3);
    OtherUntouched(m2, k3, k1, v);
    PassesOtherPlaceholder(m1, k2, tail, k1, v);
    assert m1 + Placeholder(k2) + m2 + Placeholder(k3) == m1 + Placeholder(k2) + tail;
  }

  /** Replacing the first of three placeholders. */
  lemma FirstOfThree(a: string, k1: string, m1: string, k2: string, m2: string, k3: string, v: string)
    requires '{' !in a && '{' !in m1 && '{' !in m2
    requires BraceFree(k1) && BraceFree(k2) && BraceFree(k3) && k1 != k2 && k1 != k3
    ensures Replace(a + Placeholder(k1) + m1 + Placeholder(k2) + m2 + Placeholder(k3), Placeholder(k1), v)
         == a + v + m1 + Placeholder(k2) + m2 + Placeholder(k3)
  {
    var rest := m1 + Placeholder(k2) + m2 + Placeholder(k3);
    OthersUntouched(m1, k2, m2, k3, k1, v);
    HitsOwnPlaceholder(a, k1, rest, v);
    assert a + Placeholder(k1) + m1 + Placeholder(k2) + m2 + Placeholder(k3) == a + Placeholder(k1) + rest;
  }

  /** Replacing the second of three placeholders, the first one gone. */
  lemma SecondOfTwo(a: string, k2: string, m2: string, k3: string, v: string)
    requires '{' !in a && '{' !in m2
    requires BraceFree(k2) && BraceFree(k3) && k2 != k3
    ensures Replace(a + Placeholder(k2) + m2 + Placeholder(k3), Placeholder(k2), v)
         == a + v + m2 + Placeholder(k3)
  {
    OtherUntouched(m2, k3, k2, v);
    HitsOwnPlaceholder(a, k2, m2 + Placeholder(k3), v);
    assert a + Placeholder(k2) + m2 + Placeholder(k3) == a + Placeholder(k2) + (m2 + Placeholder(k3));
  }

  /** Replacing the last placeholder. */
  lemma LastOfOne(a: string, k3: string, v: string)
    requires '{' !in a
    ensures Replace(a + Placeholder(k3), Placeholder(k3), v) == a + v
  {
    HitsOwnPlaceholder(a, k3, [], v);
    ReplaceShort([], Placeholder(k3), v);
    assert a + Placeholder(k3) == a + Placeholder(k3) + [];
  }

  /** With values that hold no '{', `generate` on the default template
      yields the three header lines with the values in place. */
  lemma GenerateDefault(filePath: string, description: string, reference: string)
    requires '{' !in filePath && '{' !in description && '{' !in reference
    ensures Generate(NewTemplate(), filePath, description, reference)
         == FileLead + filePath + "\n" + DescriptionLead + description + "\n" + ReferenceLead + reference
  {
    DefaultPieces();
    ReplaceThree(FileLead, "file_path", M1, "description", M2, "reference", filePath, description, reference);
    Regroup(FileLead, filePath, "\n", DescriptionLead, description, ReferenceLead, reference);
  }

  /** The three placeholders of a template shaped like the default one,
      replaced in turn. */
  lemma ReplaceThree(a: string, k1: string, m1: string, k2: string, m2: string, k3: string,
                     v1: string, v2: string, v3: string)
    requires '{' !in a && '{' !in m1 && '{' !in m2
    requires '{' !in v1 && '{' !in v2
    requires BraceFree(k1) && BraceFree(k2) && BraceFree(k3) && k1 != k2 && k1 != k3 && k2 != k3
    ensures Replace(Replace(Replace(a + Placeholder(k1) + m1 + Placeholder(k2) + m2 + Placeholder(k3),
                                    Placeholder(k1), v1),
                            Placeholder(k2), v2),
                    Placeholder(k3), v3)
         == a + v1 + m1 + v2 + m2 + v3
  {
    var p2, p3 := Placeholder(k2), Placeholder(k3);
    FirstOfThree(a, k1, m1, k2, m2, k3, v1);
    var a2 := a + v1 + m1;
    assert a + v1 + m1 + p2 + m2 + p3 == a2 + p2 + m2 + p3;
    SecondOfTwo(a2, k2, m2, k3, v2);
    var a3 := a2 + v2 + m2;
    assert a2 + v2 + m2 + p3 == a3 + p3;
    LastOfOne(a3, k3, v3);
  }

  lemma Regroup(a: string, v1: string, nl: string, l2: string, v2: string, l3: string, v3: string)
    ensures a + v1 + (nl + l2) + v2 + (nl + l3) + v3 == a + v1 + nl + l2 + v2 + nl + l3 + v3
  {
  }

  // ----- substitution from a map -----

  /** The template after replacing the placeholders of `order`, in that
      order, by their values. */
  ghost function ReplaceInOrder(s: string, order: seq<string>, values: map<string, string>): string
    requires forall i :: 0 <= i < |order| ==> order[i] in values
  {
    if order == [] then s
    else
      var last := order[|order| - 1];
      Replace(ReplaceInOrder(s, order[..|order| - 1], values), Placeholder(last), values[last])
  }

  /** `FileTemplate::generate_with_map`: every key's placeholder is replaced
      once, in the map's iteration order, which the caller does not
      control; `order` is the order that was taken. */
  method GenerateWithMap(t: FileTemplate, values: map<string, string>)
    returns (result: string, ghost order: seq<string>)
    ensures multiset(order) == multiset(values.Keys)
    ensures forall i :: 0 <= i < |order| ==> order[i] in values
    ensures result == ReplaceInOrder(t.template, order, values)
  {
    result := t.template;
    order := [];
    var remaining := values.Keys;
    while remaining != {}
      invariant remaining <= values.Keys
      invariant multiset(order) + multiset(remaining) == multiset(values.Keys)
      invariant forall i :: 0 <= i < |order| ==> order[i] in values
      invariant result == ReplaceInOrder(t.template, order, values)
      decreases remaining
    {
      var key :| key in remaining;
      result := Replace(result, Placeholder(key), values[key]);
      assert (order + [key])[..|order|] == order;
      order := order + [key];
      remaining := remaining - {key};
    }
  }

  /** The iteration order can change the result even though no value
      contains a placeholder: a value can complete a placeholder of another
      key with the text around it. */
  lemma MapOrderMatters()
    ensures var values := map["x" := "y", "y" := "Z"];
      ReplaceInOrder("{{x}}", ["x", "y"], values) == "Z"
      && ReplaceInOrder("{{x}}", ["y", "x"], values) == "{y}"
  {
    var values := map["x" := "y", "y" := "Z"];
    assert ["x", "y"][..1] == ["x"] && ["y", "x"][..1] == ["y"];
    assert Placeholder("x") == "{x}" && Placeholder("y") == "{y}";
    assert Replace("}", "{x}", "y") == "}";
    assert Replace("{x}}", "{x}", "y") == "y}";
    assert Replace("{{x}}", "{x}", "y") == "{y}";
    assert Replace("{y}", "{y}", "Z") == "Z";
    assert Replace("x}}", "{y}", "Z") == "x}}";
    assert Replace("{x}}", "{y}", "Z") == "{x}}";
    assert Replace("{{x}}", "{y}", "Z") == "{{x}}";
  }

  // ----- reading and checking headers -----

  /** `FileTemplate::validate_header`: the first three lines start with the
      three keys of the default template. */
  function ValidateHeader(content: string): (b: bool)
    ensures b ==> |Lines(content)| >= 3
  {
    var lines := Lines(content);
    |lines| >= 3
    && StartsWith(lines[0], "// file:")
    && StartsWith(lines[1], "// description:")
    && StartsWith(lines[2], "// reference:")
  }

  /** The key and value a "// key: value" line contributes: split at the
      first ':' and trimmed. */
  function HeaderEntry(line: string): (e: Option<(string, string)>)
    ensures e.Some? ==> StartsWith(line, "// ")
  {
    if !StartsWith(line, "// ") then None
    else
      var stripped := line[3..];
      match IndexOf(stripped, ':')
      case None => None
      case Some(i) => Some((Trim(stripped[..i]), Trim(stripped[i + 1..])))
  }

  /** A line holds an entry exactly when it starts with "// " and a ':'
      follows; the key and value carry no surrounding whitespace. */
  lemma HeaderEntryIff(line: string)
    ensures HeaderEntry(line).Some? <==> StartsWith(line, "// ") && ':' in line[3..]
    ensures HeaderEntry(line).Some? ==>
      (var kv := HeaderEntry(line).value;
       (kv.0 == [] || !IsWhitespace(kv.0[0])) && (kv.1 == [] || !IsWhitespace(kv.1[|kv.1| - 1])))
  {
  }

  /** The map after reading one more line. */
  function AddEntry(m: map<string, string>, line: string): (m': map<string, string>)
    ensures HeaderEntry(line).None? ==> m' == m
    ensures HeaderEntry(line).Some? ==> m' == m[HeaderEntry(line).value.0 := HeaderEntry(line).value.1]
  {
    match HeaderEntry(line)
    case None => m
    case Some(kv) => m[kv.0 := kv.1]
  }

  /** The map built from `lines` in order; a later line overwrites an
      earlier one with the same key. */
  function HeaderFields(lines: seq<string>): (m: map<string, string>)
    ensures lines != [] && HeaderEntry(lines[|lines| - 1]).Some? ==>
      (var kv := HeaderEntry(lines[|lines| - 1]).value; kv.0 in m && m[kv.0] == kv.1)
  {
    if lines == [] then map[]
    else
      var init := lines[..|lines| - 1];
      assert forall i :: 0 <= i < |init| ==> init[i] == lines[i];
      AddEntry(HeaderFields(init), lines[|lines| - 1])
  }

  /** The map is empty exactly when no line holds an entry, which is when
      `parse_header` gives None for three lines. */
  lemma HeaderFieldsEmptyIff(lines: seq<string>)
    ensures HeaderFields(lines) == map[] <==> forall i :: 0 <= i < |lines| ==> HeaderEntry(lines[i]).None?
  {
    if forall i :: 0 <= i < |lines| ==> HeaderEntry(lines[i]).None? {
      NoEntriesNoFields(lines);
    } else {
      var i :| 0 <= i < |lines| && HeaderEntry(lines[i]).Some?;
      EntryMakesFields(lines, i);
    }
  }

  lemma {:induction false} NoEntriesNoFields(lines: seq<string>)
    requires forall i :: 0 <= i < |lines| ==> HeaderEntry(lines[i]).None?
    ensures HeaderFields(lines) == map[]
  {
    if lines != [] {
      var init := lines[..|lines| - 1];
      assert forall i :: 0 <= i < |init| ==> init[i] == lines[i];
      NoEntriesNoFields(init);
    }
  }

  lemma {:induction false} EntryMakesFields(lines: seq<string>, i: nat)
    requires i < |lines| && HeaderEntry(lines[i]).Some?
    ensures HeaderFields(lines) != map[]
  {
    var init := lines[..|lines| - 1];
    var last := lines[|lines| - 1];
    if i < |lines| - 1 {
      assert init[i] == lines[i];
      EntryMakesFields(init, i);
      assert HeaderFields(lines) == AddEntry(HeaderFields(init), last);
      AddEntryKeepsNonEmpty(HeaderFields(init), last);
    } else {
      assert HeaderEntry(last).value.0 in HeaderFields(lines);
    }
  }

  lemma AddEntryKeepsNonEmpty(m: map<string, string>, line: string)
    requires m != map[]
    ensures AddEntry(m, line) != map[]
  {
    var k :| k in m;
    assert k in AddEntry(m, line);
  }

  /** The loop of `parse_header`: each line with an entry inserts it. */
  method ReadEntries(lines: seq<string>) returns (fields: map<string, string>)
    ensures fields == HeaderFields(lines)
  {
    fields := map[];
    var i := 0;
    while i < |lines|
      invariant 0 <= i <= |lines|
      invariant fields == HeaderFields(lines[..i])
    {
      assert lines[..i + 1][..i] == lines[..i];
      fields := AddEntry(fields, lines[i]);
      i := i + 1;
    }
    assert lines[..i] == lines;
  }

  /** `FileTemplate::parse_header`: only the first three lines are read;
      fewer than three lines, or no entry among them, give None. */
  method ParseHeader(content: string) returns (r: Option<map<string, string>>)
    ensures |Lines(content)| < 3 ==> r.None?
    ensures |Lines(content)| >= 3 ==>
      r == (var m := HeaderFields(Lines(content)[..3]); if m == map[] then None else Some(m))
  {
    var all := Lines(content);
    if |all| < 3 {
      return None;
    }
    var fields := ReadEntries(all[..3]);
    if fields == map[] {
      r := None;
    } else {
      r := Some(fields);
    }
  }

  /** The three lines of a header built by `generate` with values that hold
      no '{' and no '\n'. */
  lemma GeneratedLines(filePath: string, description: string, reference: string)
    requires '{' !in filePath && '{' !in description && '{' !in reference
    requires '\n' !in filePath && '\n' !in description && '\n' !in reference
    ensures Lines(Generate(NewTemplate(), filePath, description, reference))
         == [StripCr(FileLead + filePath), StripCr(DescriptionLead + description), ReferenceLead + reference]
  {
    GenerateDefault(filePath, description, reference);
    var l0, l1, l2 := FileLead + filePath, DescriptionLead + description, ReferenceLead + reference;
    assert '\n' !in l0 && '\n' !in l1 && '\n' !in l2;
    var s := FileLead + filePath + "\n" + DescriptionLead + description + "\n" + ReferenceLead + reference;
    assert s == l0 + ['\n'] + (l1 + ['\n'] + l2);
    SplitAt(l0, '\n', l1 + ['\n'] + l2);
    SplitAt(l1, '\n', l2);
    SplitWhole(l2, '\n');
    assert Split(s, '\n') == [l0, l1, l2];
  }

  /** Dropping a trailing '\r' keeps a prefix that does not end in '\r'. */
  lemma StripCrKeepsLead(lead: string, rest: string, prefix: string)
    requires prefix <= lead && lead != [] && lead[|lead| - 1] != '\r'
    ensures StartsWith(StripCr(lead + rest), prefix)
  {
    var s := lead + rest;
    assert s[..|prefix|] == prefix;
    if s != [] && s[|s| - 1] == '\r' {
      assert rest != [];
      assert StripCr(s)[..|prefix|] == prefix;
    }
  }

  /** With the default template and values free of '{' and '\n', the
      generated header passes `validate_header`. */
  lemma GeneratedHeaderValidates(filePath: string, description: string, reference: string)
    requires '{' !in filePath && '{' !in description && '{' !in reference
    requires '\n' !in filePath && '\n' !in description && '\n' !in reference
    ensures ValidateHeader(Generate(NewTemplate(), filePath, description, reference))
  {
    GeneratedLines(filePath, description, reference);
    StripCrKeepsLead(FileLead, filePath, "// file:");
    StripCrKeepsLead(DescriptionLead, description, "// description:");
    assert ReferenceLead + reference == ReferenceLead + reference;
    assert (ReferenceLead + reference)[..|"// reference:"|] == "// reference:";
  }

  /** The lines of three '\n'-joined lines that hold no '\n' and do not
      end in '\r'. */
  lemma ThreeLines(l0: string, l1: string, l2: string)
    requires '\n' !in l0 && '\n' !in l1 && '\n' !in l2 && l2 != []
    requires l0 == [] || l0[|l0| - 1] != '\r'
    requires l1 == [] || l1[|l1| - 1] != '\r'
    ensures Lines(l0 + "\n" + l1 + "\n" + l2) == [l0, l1, l2]
  {
    var s := l0 + "\n" + l1 + "\n" + l2;
    assert s == l0 + ['\n'] + (l1 + ['\n'] + l2);
    SplitAt(l0, '\n', l1 + ['\n'] + l2);
    SplitAt(l1, '\n', l2);
    SplitWhole(l2, '\n');
    assert Split(s, '\n') == [l0, l1, l2];
  }

  /** A three-line header is accepted exactly when each line starts with
      its own key, so a line lacking its key, or the keys out of order,
      is rejected. */
  lemma ValidateHeaderNeedsEachKey(l0: string, l1: string, l2: string)
    requires '\n' !in l0 && '\n' !in l1 && '\n' !in l2 && l2 != []
    requires l0 == [] || l0[|l0| - 1] != '\r'
    requires l1 == [] || l1[|l1| - 1] != '\r'
    ensures ValidateHeader(l0 + "\n" + l1 + "\n" + l2) <==>
      StartsWith(l0, "// file:") && StartsWith(l1, "// description:") && StartsWith(l2, "// reference:")
  {
    ThreeLines(l0, l1, l2);
  }

  /** Text without a line break is one line at most, and is rejected. */
  lemma OneLineRejected(content: string)
    requires '\n' !in content
    ensures !ValidateHeader(content)
  {
    SplitWhole(content, '\n');
  }

  /** A word with no whitespace at either end is its own trim. */
  lemma TrimWord(w: string)
    requires w != [] && !IsWhitespace(w[0]) && !IsWhitespace(w[|w| - 1])
    ensures Trim(w) == w
  {
  }

  /** A "// key: value" line reads back as its key and trimmed value. */
  lemma LeadLineEntry(key: string, value: string)
    requires ':' !in key && key != [] && !IsWhitespace(key[0]) && !IsWhitespace(key[|key| - 1])
    ensures HeaderEntry("// " + key + ": " + value) == Some((key, Trim(value)))
  {
    var rest := " " + value;
    ColonSpace("// ", key, value);
    PrefixParts("// ", key, rest);
    IndexOfAfter(key, ':', rest);
    AroundSeparator(key, ':', rest);
    SpaceThenTrim(value);
    TrimWord(key);
  }

  /** "// " + key + ": " + value is the prefix followed by key, ':' and the
      rest. */
  lemma PrefixParts(p: string, key: string, rest: string)
    ensures p + key + ([':'] + rest) == p + (key + [':'] + rest)
    ensures StartsWith(p + (key + [':'] + rest), p)
    ensures (p + (key + [':'] + rest))[|p|..] == key + [':'] + rest
  {
    assert (p + (key + [':'] + rest))[..|p|] == p;
  }

  lemma ColonSpace(p: string, key: string, value: string)
    ensures p + key + ": " + value == p + (key + [':'] + (" " + value))
  {
    assert ": " + value == [':'] + (" " + value);
  }

  lemma AroundSeparator(a: string, c: char, b: string)
    ensures (a + [c] + b)[..|a|] == a && (a + [c] + b)[|a| + 1..] == b
  {
  }

  /** A leading space is dropped by `trim`. */
  lemma SpaceThenTrim(v: string)
    ensures Trim(" " + v) == Trim(v)
  {
    assert ([' '] + v)[1..] == v;
    assert " " + v == [' '] + v;
  }

  /** Three lines are read first to last. */
  lemma FieldsOfThree(a: string, b: string, c: string)
    ensures HeaderFields([a, b, c]) == AddEntry(AddEntry(AddEntry(map[], a), b), c)
  {
    assert [a, b, c][..2] == [a, b];
    assert [a, b][..1] == [a];
    assert [a][..0] == [];
    assert HeaderFields([a]) == AddEntry(map[], a);
    assert HeaderFields([a, b]) == AddEntry(HeaderFields([a]), b);
    assert HeaderFields([a, b, c]) == AddEntry(HeaderFields([a, b]), c);
  }

  lemma FileLineEntry(filePath: string)
    ensures HeaderEntry(FileLead + filePath) == Some(("file", Trim(filePath)))
  {
    assert FileLead + filePath == "// " + "file" + ": " + filePath;
    LeadLineEntry("file", filePath);
  }

  lemma DescriptionLineEntry(description: string)
    ensures HeaderEntry(DescriptionLead + description) == Some(("description", Trim(description)))
  {
    assert DescriptionLead + description == "// " + "description" + ": " + description;
    LeadLineEntry("description", description);
  }

  lemma ReferenceLineEntry(reference: string)
    ensures HeaderEntry(ReferenceLead + reference) == Some(("reference", Trim(reference)))
  {
    assert ReferenceLead + reference == "// " + "reference" + ": " + reference;
    LeadLineEntry("reference", reference);
  }

  /** The entries of the three generated lines, read in order. */
  lemma GeneratedEntries(filePath: string, description: string, reference: string)
    ensures HeaderFields([FileLead + filePath, DescriptionLead + description, ReferenceLead + reference])
         == map["file" := Trim(filePath), "description" := Trim(description), "reference" := Trim(reference)]
  {
    var l0, l1, l2 := FileLead + filePath, DescriptionLead + description, ReferenceLead + reference;
    FileLineEntry(filePath);
    DescriptionLineEntry(description);
    ReferenceLineEntry(reference);
    FieldsOfThree(l0, l1, l2);
  }

  /** Round trip: `parse_header` reads back the trimmed values `generate`
      put into the default template, for values free of '{', '\n' and '\r';
      the map is never empty, so `parse_header` returns it. */
  lemma GeneratedHeaderParses(filePath: string, description: string, reference: string)
    requires '{' !in filePath && '{' !in description && '{' !in reference
    requires '\n' !in filePath && '\n' !in description && '\n' !in reference
    requires '\r' !in filePath && '\r' !in description && '\r' !in reference
    ensures var lines := Lines(Generate(NewTemplate(), filePath, description, reference));
      |lines| == 3 &&
      HeaderFields(lines[..3])
        == map["file" := Trim(filePath), "description" := Trim(description), "reference" := Trim(reference)]
  {
    GeneratedLines(filePath, description, reference);
    var lines := Lines(Generate(NewTemplate(), filePath, description, reference));
    assert StripCr(FileLead + filePath) == FileLead + filePath;
    assert StripCr(DescriptionLead + description) == DescriptionLead + description;
    assert lines[..3] == lines;
    GeneratedEntries(filePath, description, reference);
  }
}
