/**
  Change detection (src/repository/scanner.rs): which files of the
  checked-out repository are candidates, and which of those have content
  not yet ingested. The directory walk is an input: the entries WalkDir
  yields, in its order, with `None` for an entry it could not read. File
  reading and SHA-256 are function parameters.
*/
module Scanner {
  import opened Errors
  import opened Strings
  import opened Paths
  import opened AppConfig

  datatype FileScanner = FileScanner(config: PipelineConfig)

  /** What `entry.metadata()` reports: the length, and the modification
      time in seconds since the epoch when the platform has one. */
  datatype Metadata = Metadata(size: nat, modified: Option<nat>)

  /** One walked entry; `metadata` is `None` when it could not be read. */
  datatype Entry = Entry(path: string, isFile: bool, metadata: Option<Metadata>)

  datatype ScannedFile = ScannedFile(path: string, relativePath: string, size: nat, modified: nat)

  /** One skip pattern against a path: a pattern with a '*' has "*."
      replaced by "." and must end the path; any other pattern must occur
      in it. */
  predicate PatternMatches(pattern: string, path: string) {
    if '*' in pattern then EndsWith(path, Replace(pattern, "*.", "."))
    else Contains(path, pattern)
  }

  predicate Skips(patterns: seq<string>, path: string) {
    exists i :: 0 <= i < |patterns| && PatternMatches(patterns[i], path)
  }

  /** `should_skip`: the patterns are tried in order and the first that
      matches ends the search. */
  method ShouldSkip(scanner: FileScanner, path: string) returns (skip: bool)
    ensures skip <==> Skips(scanner.config.skipPatterns, path)
  {
    var patterns := scanner.config.skipPatterns;
    for i := 0 to |patterns|
      invariant forall j :: 0 <= j < i ==> !PatternMatches(patterns[j], path)
    {
      var pattern := patterns[i];
      if '*' in pattern {
        var withoutStar := Replace(pattern, "*.", ".");
        if EndsWith(path, withoutStar) {
          return true;
        }
      } else if Contains(path, pattern) {
        return true;
      }
    }
    return false;
  }

  /** An extension glob "*.ext" skips exactly the paths ending in
      ".ext". */
  lemma GlobIsSuffix(ext: string, path: string)
    requires '*' !in ext
    ensures PatternMatches("*." + ext, path) <==> EndsWith(path, "." + ext)
  {
    ReplaceAtFront("*.", ext, ".");
    ReplaceSkipsPrefix(ext, [], "*.", ".");
    assert ext + [] == ext;
    ReplaceShort([], "*.", ".");
    assert "*." + ext == "*." + ext;
  }

  /** A directory pattern (a directory name, a slash and a star) is taken
      literally: "*." does not occur in it, so it skips only paths that
      end in that very text, star included. */
  lemma DirectoryPatternIsLiteral(dir: string, path: string)
    requires '*' !in dir
    ensures PatternMatches(dir + "/*", path) <==> EndsWith(path, dir + "/*")
  {
    assert '*' !in dir + "/";
    ReplaceSkipsPrefix(dir + "/", "*", "*.", ".");
    ReplaceShort("*", "*.", ".");
    assert dir + "/" + "*" == dir + "/*";
  }

  /** The patterns of the scanner's own test. */
  const TestPatterns: seq<string> := ["*.zip", ".git/*"]

  lemma SkipsZip()
    ensures Skips(TestPatterns, "test.zip")
  {
    GlobIsSuffix("zip", "test.zip");
    assert "*." + "zip" == TestPatterns[0] && "." + "zip" == "test.zip"[4..];
  }

  /** A path that ends in neither test pattern's literal text (".zip" for
      the glob, the directory pattern itself) passes the test patterns. */
  lemma KeptByTestPatterns(path: string)
    requires !EndsWith(path, ".zip") && !EndsWith(path, ".git/*")
    ensures !Skips(TestPatterns, path)
  {
    GlobIsSuffix("zip", path);
    DirectoryPatternIsLiteral(".git", path);
    TestPatternTexts();
    KeptByPair("*.zip", ".git/*", path);
  }

  lemma TestPatternTexts()
    ensures "*." + "zip" == "*.zip" && "." + "zip" == ".zip" && ".git" + "/*" == ".git/*"
    ensures TestPatterns == ["*.zip", ".git/*"]
  {
  }

  /** A path that neither of two patterns matches is not skipped by
      them. */
  lemma KeptByPair(first: string, second: string, path: string)
    requires !PatternMatches(first, path) && !PatternMatches(second, path)
    ensures !Skips([first, second], path)
  {
  }

  /** A path does not end in a pattern whose first byte differs from the
      path's byte at the place the pattern would start. */
  lemma FirstByteDiffers(path: string, p: string)
    requires 0 < |p| <= |path| && path[|path| - |p|] != p[0]
    ensures !EndsWith(path, p)
  {
  }

  lemma KeepsMd()
    ensures !Skips(TestPatterns, "test.md")
  {
    FirstByteDiffers("test.md", ".zip");
    FirstByteDiffers("test.md", ".git/*");
    KeptByTestPatterns("test.md");
  }

  lemma KeepsGitConfig()
    ensures !Skips(TestPatterns, ".git/config")
  {
    FirstByteDiffers(".git/config", ".zip");
    FirstByteDiffers(".git/config", ".git/*");
    KeptByTestPatterns(".git/config");
  }

  /** With the patterns of the scanner's own test, "test.zip" is skipped
      and "test.md" is not; ".git/config" is not skipped either, because
      the ".git" directory pattern is matched literally. */
  lemma SkipExamples()
    ensures Skips(TestPatterns, "test.zip")
    ensures !Skips(TestPatterns, "test.md")
    ensures !Skips(TestPatterns, ".git/config")
  {
    SkipsZip();
    KeepsMd();
    KeepsGitConfig();
  }

  /** The largest size kept, in bytes. */
  function MaxSizeBytes(config: PipelineConfig): nat {
    config.maxFileSizeMb * 1024 * 1024
  }

  /** The entries `scan_directory` keeps: regular files, not skipped, with
      extension "md", readable metadata and a size within the limit. */
  predicate Keeps(scanner: FileScanner, e: Entry) {
    && e.isFile
    && !Skips(scanner.config.skipPatterns, e.path)
    && Extension(e.path) == Some("md")
    && e.metadata.Some?
    && e.metadata.value.size <= MaxSizeBytes(scanner.config)
  }

  /** The record for a kept entry: its path relative to the root, and a
      modification time of 0 when the platform has none. */
  function ToScanned(root: string, e: Entry): (f: ScannedFile)
    requires e.metadata.Some?
    ensures f.path == e.path && f.relativePath == StripPrefix(e.path, root)
    ensures f.size == e.metadata.value.size
    ensures f.modified == if e.metadata.value.modified.Some? then e.metadata.value.modified.value else 0
  {
    var m := e.metadata.value;
    ScannedFile(e.path, StripPrefix(e.path, root), m.size, if m.modified.Some? then m.modified.value else 0)
  }

  /** The files found among the walked entries, in walk order. */
  function ScanOf(scanner: FileScanner, root: string, entries: seq<Option<Entry>>): seq<ScannedFile> {
    if entries == [] then []
    else
      var last := entries[|entries| - 1];
      ScanOf(scanner, root, entries[..|entries| - 1]) +
        if last.Some? && Keeps(scanner, last.value) then [ToScanned(root, last.value)] else []
  }

  /** `scan_directory`: never fails; unreadable entries are passed
      over. */
  method ScanDirectory(scanner: FileScanner, root: string, entries: seq<Option<Entry>>)
    returns (r: Result<seq<ScannedFile>>)
    ensures r == Ok(ScanOf(scanner, root, entries))
  {
    var files: seq<ScannedFile> := [];
    for i := 0 to |entries|
      invariant files == ScanOf(scanner, root, entries[..i])
    {
      assert entries[..i + 1][..i] == entries[..i];
      if entries[i].None? {
        continue;
      }
      var entry := entries[i].value;
      if !entry.isFile {
        continue;
      }
      var skip := ShouldSkip(scanner, entry.path);
      if skip {
        continue;
      }
      if Extension(entry.path) == Some("md") && entry.metadata.Some? {
        var size := entry.metadata.value.size;
        var maxSize := scanner.config.maxFileSizeMb * 1024 * 1024;
        if size > maxSize {
          continue;
        }
        var modified := if entry.metadata.value.modified.Some? then entry.metadata.value.modified.value else 0;
        var relativePath := StripPrefix(entry.path, root);
        files := files + [ScannedFile(entry.path, relativePath, size, modified)];
      }
    }
    assert entries[..|entries|] == entries;
    return Ok(files);
  }

  /** The walked entry `e` is kept and yields `f`. */
  predicate Yields(scanner: FileScanner, root: string, e: Option<Entry>, f: ScannedFile) {
    e.Some? && Keeps(scanner, e.value) && f == ToScanned(root, e.value)
  }

  lemma ScanSnoc(scanner: FileScanner, root: string, entries: seq<Option<Entry>>, f: ScannedFile)
    requires entries != []
    ensures f in ScanOf(scanner, root, entries) <==>
      f in ScanOf(scanner, root, entries[..|entries| - 1]) || Yields(scanner, root, entries[|entries| - 1], f)
  {
  }

  function YieldsOf(scanner: FileScanner, root: string, f: ScannedFile): Option<Entry> -> bool {
    e => Yields(scanner, root, e, f)
  }

  predicate SomeYields(scanner: FileScanner, root: string, entries: seq<Option<Entry>>, f: ScannedFile) {
    exists i :: 0 <= i < |entries| && YieldsOf(scanner, root, f)(entries[i])
  }

  lemma ExistsSnoc<T>(s: seq<T>, init: seq<T>, last: T, p: T -> bool)
    requires s == init + [last]
    ensures (exists i :: 0 <= i < |s| && p(s[i])) <==> (exists i :: 0 <= i < |init| && p(init[i])) || p(last)
  {
    if exists i :: 0 <= i < |init| && p(init[i]) {
      var i :| 0 <= i < |init| && p(init[i]);
      assert s[i] == init[i];
    }
    assert s[|init|] == last;
  }

  lemma SomeYieldsSnoc(scanner: FileScanner, root: string, entries: seq<Option<Entry>>, f: ScannedFile)
    requires entries != []
    ensures SomeYields(scanner, root, entries, f) <==>
      SomeYields(scanner, root, entries[..|entries| - 1], f) || Yields(scanner, root, entries[|entries| - 1], f)
  {
    var init := entries[..|entries| - 1];
    assert entries == init + [entries[|entries| - 1]];
    ExistsSnoc(entries, init, entries[|entries| - 1], YieldsOf(scanner, root, f));
  }

  /** A file is found exactly when a walked entry that is kept produced
      it. */
  lemma {:induction false} ScanMembers(scanner: FileScanner, root: string, entries: seq<Option<Entry>>, f: ScannedFile)
    ensures f in ScanOf(scanner, root, entries) <==> SomeYields(scanner, root, entries, f)
  {
    if entries != [] {
      ScanMembers(scanner, root, entries[..|entries| - 1], f);
      ScanSnoc(scanner, root, entries, f);
      SomeYieldsSnoc(scanner, root, entries, f);
    }
  }

  /** The number of files found never exceeds the number of entries. */
  lemma {:induction false} ScanCount(scanner: FileScanner, root: string, entries: seq<Option<Entry>>)
    ensures |ScanOf(scanner, root, entries)| <= |entries|
  {
    if entries != [] {
      ScanCount(scanner, root, entries[..|entries| - 1]);
    }
  }

  /** A markdown file exactly at the size limit is kept; one byte more and
      it is not. */
  lemma SizeLimitInclusive(scanner: FileScanner, path: string, modified: Option<nat>)
    requires !Skips(scanner.config.skipPatterns, path) && Extension(path) == Some("md")
    ensures Keeps(scanner, Entry(path, true, Some(Metadata(MaxSizeBytes(scanner.config), modified))))
    ensures !Keeps(scanner, Entry(path, true, Some(Metadata(MaxSizeBytes(scanner.config) + 1, modified))))
  {
  }

  /** The digest of a file's content as lowercase hexadecimal, or `None`
      when it cannot be read (`compute_file_hash`). */
  function FileHash(file: ScannedFile, read: string -> Option<string>, sha256: string -> string): Option<string> {
    match read(file.path)
    case None => None
    case Some(content) => Some(sha256(content))
  }

  /** `should_include_by_hash`: a file whose hash cannot be computed is
      kept; otherwise it is kept when no stored hash equals its own. */
  predicate IncludeByHash(file: ScannedFile, existing: seq<string>, read: string -> Option<string>,
                          sha256: string -> string)
  {
    match FileHash(file, read, sha256)
    case None => true
    case Some(hash) => hash !in existing
  }

  predicate IsSubsequence(a: seq<ScannedFile>, b: seq<ScannedFile>) {
    if a == [] then true
    else if b == [] then false
    else if a[0] == b[0] then IsSubsequence(a[1..], b[1..])
    else IsSubsequence(a, b[1..])
  }

  function KeepUnseen(files: seq<ScannedFile>, existing: seq<string>, read: string -> Option<string>,
                      sha256: string -> string): (r: seq<ScannedFile>)
    ensures IsSubsequence(r, files)
    ensures forall f :: f in r <==> f in files && IncludeByHash(f, existing, read, sha256)
  {
    if files == [] then []
    else if IncludeByHash(files[0], existing, read, sha256) then
      [files[0]] + KeepUnseen(files[1..], existing, read, sha256)
    else KeepUnseen(files[1..], existing, read, sha256)
  }

  /** `filter_by_hash`: with `force_reprocess` every file; otherwise, in
      order, the files `should_include_by_hash` keeps. */
  function FilterByHash(scanner: FileScanner, files: seq<ScannedFile>, existing: seq<string>,
                        read: string -> Option<string>, sha256: string -> string): (r: seq<ScannedFile>)
    ensures scanner.config.forceReprocess ==> r == files
    ensures IsSubsequence(r, files)
    ensures !scanner.config.forceReprocess ==>
      forall f :: f in r <==> f in files && IncludeByHash(f, existing, read, sha256)
  {
    if scanner.config.forceReprocess then
      SubsequenceOfSelf(files);
      files
    else KeepUnseen(files, existing, read, sha256)
  }

  lemma {:induction false} SubsequenceOfSelf(a: seq<ScannedFile>)
    ensures IsSubsequence(a, a)
  {
    if a != [] {
      SubsequenceOfSelf(a[1..]);
    }
  }

  /** A file whose content cannot be read is always kept. */
  lemma FailOpen(file: ScannedFile, existing: seq<string>, read: string -> Option<string>, sha256: string -> string)
    requires read(file.path).None?
    ensures IncludeByHash(file, existing, read, sha256)
  {
  }

  /** The decision depends only on the content: files reading the same
      get the same decision. */
  lemma SameContentSameDecision(a: ScannedFile, b: ScannedFile, existing: seq<string>,
                                read: string -> Option<string>, sha256: string -> string)
    requires read(a.path) == read(b.path)
    ensures IncludeByHash(a, existing, read, sha256) == IncludeByHash(b, existing, read, sha256)
  {
  }

  /** Filtering a second time against the same hashes changes nothing. */
  lemma {:induction false} FilterByHashIdempotent(scanner: FileScanner, files: seq<ScannedFile>,
                                                  existing: seq<string>, read: string -> Option<string>,
                                                  sha256: string -> string)
    ensures var once := FilterByHash(scanner, files, existing, read, sha256);
      FilterByHash(scanner, once, existing, read, sha256) == once
  {
    if !scanner.config.forceReprocess {
      KeepUnseenIdempotent(files, existing, read, sha256);
    }
  }

  lemma {:induction false} KeepUnseenIdempotent(files: seq<ScannedFile>, existing: seq<string>,
                                                read: string -> Option<string>, sha256: string -> string)
    ensures var once := KeepUnseen(files, existing, read, sha256);
      KeepUnseen(once, existing, read, sha256) == once
  {
    if files != [] {
      KeepUnseenIdempotent(files[1..], existing, read, sha256);
      var rest := KeepUnseen(files[1..], existing, read, sha256);
      if IncludeByHash(files[0], existing, read, sha256) {
        assert ([files[0]] + rest)[0] == files[0];
        assert ([files[0]] + rest)[1..] == rest;
      }
    }
  }
}
