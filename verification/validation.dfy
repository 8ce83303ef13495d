/**
  Input validators and small string utilities (src/utils/validation.rs).
*/
module Validation {
  import opened Errors
  import opened Strings
  import opened Paths

  /** What the file system says about a path; the lookup itself is not
      modelled. */
  datatype PathKind = Missing | RegularFile | Directory | OtherKind

  /** `Validator::validate_file_path`. */
  function ValidateFilePath(path: string, kind: PathKind): (r: Outcome)
    ensures r.Pass? <==> kind == RegularFile
    ensures kind == Missing ==> r == Fail(ValidationError("File does not exist: " + path))
    ensures kind !in {Missing, RegularFile} ==> r == Fail(ValidationError("Path is not a file: " + path))
  {
    if kind == Missing then Fail(ValidationError("File does not exist: " + path))
    else if kind != RegularFile then Fail(ValidationError("Path is not a file: " + path))
    else Pass
  }

  /** `Validator::validate_directory`. */
  function ValidateDirectory(path: string, kind: PathKind): (r: Outcome)
    ensures r.Pass? <==> kind == Directory
    ensures kind == Missing ==> r == Fail(ValidationError("Directory does not exist: " + path))
    ensures kind !in {Missing, Directory} ==> r == Fail(ValidationError("Path is not a directory: " + path))
  {
    if kind == Missing then Fail(ValidationError("Directory does not exist: " + path))
    else if kind != Directory then Fail(ValidationError("Path is not a directory: " + path))
    else Pass
  }

  /** `Validator::validate_markdown_extension`. */
  function ValidateMarkdownExtension(path: string): (r: Outcome)
    ensures r.Pass? <==> Extension(path) == Some("md") || Extension(path) == Some("markdown")
    ensures r.Fail? ==> r.error == ValidationError("File is not a markdown file: " + path)
  {
    var ext := Extension(path);
    if ext == Some("md") || ext == Some("markdown") then Pass
    else Fail(ValidationError("File is not a markdown file: " + path))
  }

  /** `Validator::validate_content_not_empty`: content passes exactly when
      some byte of it is not whitespace. */
  function ValidateContentNotEmpty(content: string): (r: Outcome)
    ensures r.Pass? <==> exists i :: 0 <= i < |content| && !IsWhitespace(content[i])
    ensures r.Fail? ==> r.error == ValidationError("Content is empty")
  {
    TrimEmptyIff(content);
    if Trim(content) == [] then Fail(ValidationError("Content is empty")) else Pass
  }

  /** `Validator::validate_url`: only the scheme is checked. */
  function ValidateUrl(url: string): (r: Outcome)
    ensures r.Pass? <==> StartsWith(url, "http://") || StartsWith(url, "https://")
    ensures r.Fail? ==> r.error == ValidationError("Invalid URL format: " + url)
  {
    if !StartsWith(url, "http://") && !StartsWith(url, "https://") then
      Fail(ValidationError("Invalid URL format: " + url))
    else Pass
  }

  /** `Validator::validate_port`. */
  function ValidatePort(port: nat): (r: Outcome)
    requires port < 0x1_0000
    ensures r.Fail? <==> port == 0
  {
    if port == 0 then Fail(ValidationError("Port cannot be 0")) else Pass
  }

  /** `Validator::validate_batch_size`: 1 to 10000 inclusive. */
  function ValidateBatchSize(size: nat): (r: Outcome)
    ensures r.Pass? <==> 1 <= size <= 10000
    ensures size == 0 ==> r == Fail(ValidationError("Batch size must be greater than 0"))
    ensures size > 10000 ==> r == Fail(ValidationError("Batch size too large (max 10000)"))
  {
    if size == 0 then Fail(ValidationError("Batch size must be greater than 0"))
    else if size > 10000 then Fail(ValidationError("Batch size too large (max 10000)"))
    else Pass
  }

  /** `Validator::sanitize_file_path`: backslashes become '/', each
      non-overlapping "//" then becomes "/" in a single pass, and the ends
      are trimmed. No backslash survives and no whitespace is left at
      either end. */
  function SanitizeFilePath(path: string): (r: string)
    ensures '\\' !in r
    ensures r != [] ==> !IsWhitespace(r[0]) && !IsWhitespace(r[|r| - 1])
  {
    var slashed := Replace(path, "\\", "/");
    ReplaceRemovesChar(path, '\\', "/");
    var collapsed := Replace(slashed, "//", "/");
    ReplaceKeepsAbsent(slashed, "//", "/", '\\');
    TrimKeepsAbsent(collapsed, '\\');
    Trim(collapsed)
  }

  /** A path with no backslash, no "//" and no whitespace at either end
      is already sanitized. */
  lemma SanitizeKeepsClean(path: string)
    requires '\\' !in path && NoDouble(path, '/')
    requires path != [] ==> !IsWhitespace(path[0]) && !IsWhitespace(path[|path| - 1])
    ensures SanitizeFilePath(path) == path
  {
    ReplaceAbsent(path, "\\", "/");
    ReplaceNoDouble(path, '/', "/");
    assert ['/', '/'] == "//";
    if path != [] {
      TrimOfTrimmed(path);
    }
  }

  /** The three steps of the sanitizer, one at a time. */
  lemma SanitizeSteps(path: string, slashed: string, collapsed: string)
    requires Replace(path, "\\", "/") == slashed
    requires Replace(slashed, "//", "/") == collapsed
    ensures SanitizeFilePath(path) == Trim(collapsed)
  {
  }

  /** The three inputs of the module's test all give "path/to/file". */
  lemma SanitizeBackslashes()
    ensures SanitizeFilePath("path\\to\\file") == "path/to/file"
  {
    BackslashPass();
    CleanPasses();
    SanitizeSteps("path\\to\\file", "path/to/file", "path/to/file");
  }

  lemma SanitizeDoubleSlashes()
    ensures SanitizeFilePath("path//to//file") == "path/to/file"
  {
    ReplaceAbsent("path//to//file", "\\", "/");
    DoubleSlashPass();
    TrimOfTrimmed("path/to/file");
    SanitizeSteps("path//to//file", "path//to//file", "path/to/file");
  }

  lemma SanitizeSurroundingSpaces()
    ensures SanitizeFilePath("  path/to/file  ") == "path/to/file"
  {
    var s := "  path/to/file  ";
    ReplaceAbsent(s, "\\", "/");
    SpacedPass();
    SpacedTrim();
    SanitizeSteps(s, s, s);
  }

  lemma BackslashPass()
    ensures Replace("path\\to\\file", "\\", "/") == "path/to/file"
  {
    var parts := ["path", "to", "file"];
    assert Join(parts, "\\") == "path\\to\\file" by {
      assert parts[1..][1..] == ["file"];
    }
    assert Join(parts, "/") == "path/to/file" by {
      assert parts[1..][1..] == ["file"];
    }
    ReplaceJoin(parts, "\\", "/");
  }

  lemma DoubleSlashPass()
    ensures Replace("path//to//file", "//", "/") == "path/to/file"
  {
    var parts := ["path", "to", "file"];
    assert Join(parts, "//") == "path//to//file" by {
      assert parts[1..][1..] == ["file"];
    }
    assert Join(parts, "/") == "path/to/file" by {
      assert parts[1..][1..] == ["file"];
    }
    ReplaceJoin(parts, "//", "/");
  }

  /** The clean path of the test passes the second step and the trim
      unchanged. */
  lemma CleanPasses()
    ensures Replace("path/to/file", "//", "/") == "path/to/file"
    ensures Trim("path/to/file") == "path/to/file"
  {
    var s := "path/to/file";
    forall i | 0 <= i < |s| - 1
      ensures !(s[i] == '/' && s[i + 1] == '/')
    {
      assert s[i] == '/' ==> i == 4 || i == 7;
    }
    ReplaceNoDouble(s, '/', "/");
    assert ['/', '/'] == "//";
    TrimOfTrimmed(s);
  }

  lemma SpacedPass()
    ensures Replace("  path/to/file  ", "//", "/") == "  path/to/file  "
  {
    var s := "  path/to/file  ";
    forall i | 0 <= i < |s| - 1
      ensures !(s[i] == '/' && s[i + 1] == '/')
    {
      assert s[i] == '/' ==> i == 6 || i == 9;
    }
    ReplaceNoDouble(s, '/', "/");
    assert ['/', '/'] == "//";
  }

  lemma SpacedTrim()
    ensures Trim("  path/to/file  ") == "path/to/file"
  {
    assert "  " + "path/to/file" + "  " == "  path/to/file  ";
    TrimSurrounded("  ", "path/to/file", "  ");
  }

  /** "//" is collapsed in one left-to-right pass: three slashes become
      two, not one. */
  lemma SanitizeSinglePass()
    ensures SanitizeFilePath("a///b") == "a//b"
  {
    ReplaceAbsent("a///b", "\\", "/");
    TripleSlashPass();
    TrimOfTrimmed("a//b");
    SanitizeSteps("a///b", "a///b", "a//b");
  }

  lemma TripleSlashPass()
    ensures Replace("a///b", "//", "/") == "a//b"
  {
    var p := "//";
    ReplaceSkipsPrefix("a", "///b", p, "/");
    assert "a" + "///b" == "a///b";
    ReplaceAtFront(p, "/b", "/");
    assert p + "/b" == "///b";
    ReplaceSingleLead('/', "b", p, "/");
    assert ['/'] + "b" == "/b";
    ReplaceAbsent("b", p, "/");
    assert "a" + ("/" + ("/" + "b")) == "a//b";
  }

  /** `Validator::truncate_text`: the text when it fits, else its first
      `max` bytes followed by "...". Slicing inside a multi-byte character
      panics in the source, hence the precondition. */
  function TruncateText(text: string, max: nat): (r: string)
    requires |text| <= max || IsCharBoundary(text, max)
    ensures |text| <= max ==> r == text
    ensures |text| > max ==> |r| == max + 3 && r[..max] <= text && EndsWith(r, "...")
  {
    if |text| <= max then text else text[..max] + "..."
  }

  /** The precondition of `TruncateText` can fail: "é" is the two bytes
      0xC3 0xA9, and a limit of one byte cuts between them, where the
      source's slice panics. */
  lemma TruncateCanSplitCharacter()
    ensures !IsCharBoundary([0xC3 as char, 0xA9 as char], 1)
    ensures |[0xC3 as char, 0xA9 as char]| > 1
  {
  }
}
