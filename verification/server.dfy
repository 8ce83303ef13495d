/**
  The control plane (src/mcp/server.rs): the `GitSummarizeMcp` server's
  repository registry, its lazily created database client and the
  ingest, remove and update tools. Locks are left out, so each tool call
  runs alone. Repository sync, the commit lookup, the directory listing,
  file reads, schema creation, the vector store's failures, SHA-256,
  the embedding service and the clock are inputs of each call.
*/
module McpServer {
  import opened Errors
  import opened Strings
  import opened AppConfig
  import opened Scanner
  import opened DocumentModel
  import opened Persistence
  import opened Insert

  /** JSON-RPC error codes the tools answer with. */
  const InvalidParams: int := -32602
  const InternalError: int := -32603

  /** Files considered per ingest request. */
  const IngestLimit: nat := 100

  datatype McpError = McpError(code: int, message: string)

  /** A tool's answer: its report, or an error. */
  datatype Reply<T> = Done(value: T) | Refused(error: McpError)

  /** A connected vector-store client: the documents table and the
      embedding service key it was configured with. */
  datatype DbClient = DbClient(tableName: string, groqApiKey: Option<string>)

  // ----- repository keys -----

  /** `get_repo_key`: drop trailing '/', keep what follows the last '/',
      and drop trailing ".git". */
  function GetRepoKey(url: string): (key: string)
    ensures '/' !in key
    ensures !EndsWith(key, ".git")
  {
    var name := AfterLast(TrimEndMatches(url, "/"), '/');
    var key := TrimEndMatches(name, ".git");
    assert forall i :: 0 <= i < |key| ==> key[i] == name[i];
    key
  }

  /** The key of a URL is its last path segment: with or without a
      ".git" suffix, and with or without one trailing '/'. For example
      "https://github.com/user/repo", ".../repo.git" and ".../repo/" all
      have the key "repo". */
  lemma RepoKeyIsLastSegment(base: string, name: string)
    requires name != [] && '/' !in name && !EndsWith(name, ".git")
    ensures GetRepoKey(base + "/" + name) == name
    ensures GetRepoKey(base + "/" + name + ".git") == name
    ensures GetRepoKey(base + "/" + name + "/") == name
  {
    var url := base + "/" + name;
    assert url[|url| - 1] == name[|name| - 1];
    assert !EndsWith(url, "/");
    TrimEndNoMatch(url, "/");
    AfterLastOf(base, name);
    TrimEndNoMatch(name, ".git");

    var git := name + ".git";
    assert url + ".git" == base + "/" + git;
    assert '/' !in git by {
      assert forall i :: 0 <= i < |git| ==> git[i] == if i < |name| then name[i] else ".git"[i - |name|];
    }
    assert !EndsWith(base + "/" + git, "/");
    TrimEndNoMatch(base + "/" + git, "/");
    AfterLastOf(base, git);
    TrimEndOneMatch(name, ".git");

    TrimEndOneMatch(url, "/");
  }

  lemma TrimEndNoMatch(s: string, p: string)
    requires p != [] && !EndsWith(s, p)
    ensures TrimEndMatches(s, p) == s
  {
  }

  lemma TrimEndOneMatch(s: string, p: string)
    requires p != []
    ensures TrimEndMatches(s + p, p) == TrimEndMatches(s, p)
  {
    var sp := s + p;
    assert sp[|sp| - |p|..] == p;
    assert sp[..|sp| - |p|] == s;
  }

  /** The text after a last '/' is what follows it. */
  lemma {:induction false} AfterLastOf(a: string, b: string)
    requires '/' !in b
    ensures AfterLast(a + "/" + b, '/') == b
    decreases |b|
  {
    if b == [] {
      assert (a + "/" + b)[|a + "/" + b| - 1] == '/';
    } else {
      var s := a + "/" + b;
      var init := b[..|b| - 1];
      assert s[..|s| - 1] == a + "/" + init;
      AfterLastOf(a, init);
      assert init + [b[|b| - 1]] == b;
    }
  }

  /** The key a remove or update call looks up: an identifier holding
      "://" is a URL and is reduced to its key; anything else is a key
      already. */
  function LookupKey(identifier: string): (key: string)
    ensures Contains(identifier, "://") ==> key == GetRepoKey(identifier)
    ensures !Contains(identifier, "://") ==> key == identifier
  {
    if Contains(identifier, "://") then GetRepoKey(identifier) else identifier
  }

  // ----- subdirectory lists -----

  /** The trimmed, non-empty pieces, in order. */
  function TrimmedPieces(pieces: seq<string>): (ds: seq<string>)
    ensures |ds| <= |pieces|
  {
    if pieces == [] then []
    else
      var d := Trim(pieces[0]);
      if d == [] then TrimmedPieces(pieces[1..]) else [d] + TrimmedPieces(pieces[1..])
  }

  /** A subdirectory list as parsing leaves it: every entry non-empty,
      without ',' and without surrounding whitespace. */
  predicate WellFormedSubdirs(ds: seq<string>) {
    forall i :: 0 <= i < |ds| ==>
      ds[i] != [] && ',' !in ds[i] && !IsWhitespace(ds[i][0]) && !IsWhitespace(ds[i][|ds[i]| - 1])
  }

  /** The `subdirectories` argument: split on ',', trim each piece and
      drop the empty ones. */
  function ParseSubdirectories(s: string): (ds: seq<string>)
    ensures WellFormedSubdirs(ds)
  {
    var pieces := Split(s, ',');
    TrimmedPiecesWellFormed(pieces);
    TrimmedPieces(pieces)
  }

  lemma {:induction false} TrimmedPiecesWellFormed(pieces: seq<string>)
    requires forall i :: 0 <= i < |pieces| ==> ',' !in pieces[i]
    ensures WellFormedSubdirs(TrimmedPieces(pieces))
  {
    if pieces != [] {
      var rest := pieces[1..];
      assert forall i :: 0 <= i < |rest| ==> rest[i] == pieces[i + 1];
      TrimmedPiecesWellFormed(rest);
      var d := Trim(pieces[0]);
      if d != [] {
        TrimKeepsAbsent(pieces[0], ',');
        WellFormedCons(d, TrimmedPieces(rest));
      }
    }
  }

  lemma WellFormedCons(d: string, ds: seq<string>)
    requires d != [] && ',' !in d && !IsWhitespace(d[0]) && !IsWhitespace(d[|d| - 1])
    requires WellFormedSubdirs(ds)
    ensures WellFormedSubdirs([d] + ds)
  {
    var all := [d] + ds;
    forall i | 0 <= i < |all|
      ensures all[i] != [] && ',' !in all[i] && !IsWhitespace(all[i][0]) && !IsWhitespace(all[i][|all[i]| - 1])
    {
      if i > 0 {
        assert all[i] == ds[i - 1];
      }
    }
  }

  /** Splitting a join on a separator none of the parts holds gives the
      parts back. */
  lemma {:induction false} SplitJoin(parts: seq<string>, c: char)
    requires |parts| >= 1
    requires forall i :: 0 <= i < |parts| ==> c !in parts[i]
    ensures Split(Join(parts, [c]), c) == parts
    decreases |parts|
  {
    if |parts| == 1 {
      SplitWhole(parts[0], c);
    } else {
      SplitJoin(parts[1..], c);
      SplitAt(parts[0], c, Join(parts[1..], [c]));
      assert Join(parts, [c]) == parts[0] + [c] + Join(parts[1..], [c]);
      assert [parts[0]] + parts[1..] == parts;
    }
  }

  /** Trimming and dropping empties changes nothing in a well-formed
      list. */
  lemma {:induction false} TrimmedPiecesOfWellFormed(ds: seq<string>)
    requires WellFormedSubdirs(ds)
    ensures TrimmedPieces(ds) == ds
  {
    if ds != [] {
      TrimOfTrimmed(ds[0]);
      assert WellFormedSubdirs(ds[1..]) by {
        assert forall i :: 0 <= i < |ds[1..]| ==> ds[1..][i] == ds[i + 1];
      }
      TrimmedPiecesOfWellFormed(ds[1..]);
      assert [ds[0]] + ds[1..] == ds;
    }
  }

  /** Joining a parsed list with ',' and parsing it again gives the same
      list: what `update_repository` passes back to the ingest tool is
      read exactly as stored. */
  lemma SubdirectoriesRoundTrip(ds: seq<string>)
    requires WellFormedSubdirs(ds)
    ensures ParseSubdirectories(Join(ds, ",")) == ds
  {
    if ds == [] {
      assert Split([], ',') == [[]];
      assert Trim([]) == [];
    } else {
      SplitJoin(ds, ',');
      TrimmedPiecesOfWellFormed(ds);
    }
  }

  /** A list written with a space after the comma, as in "src, docs":
      the space is trimmed away and the names come back as written. */
  lemma ParseCommaSpace(a: string, b: string)
    requires WellFormedSubdirs([a, b])
    ensures ParseSubdirectories(a + ", " + b) == [a, b]
  {
    assert [a, b][0] == a && [a, b][1] == b;
    SplitCommaSpace(a, b);
    TrimmedPair(a, b);
  }

  /** Splitting "a, b" on ',' gives `a` and `b` with its leading space. */
  lemma SplitCommaSpace(a: string, b: string)
    requires ',' !in a && ',' !in b
    ensures Split(a + ", " + b, ',') == [a, [' '] + b]
  {
    var sb := [' '] + b;
    assert ',' !in sb;
    assert a + ", " + b == a + [','] + sb;
    SplitAt(a, ',', sb);
    SplitWhole(sb, ',');
  }

  /** Trimming a name and a space-led name drops the space only. */
  lemma TrimmedPair(a: string, b: string)
    requires WellFormedSubdirs([a, b])
    ensures TrimmedPieces([a, [' '] + b]) == [a, b]
  {
    assert [a, b][0] == a && [a, b][1] == b;
    var pieces := [a, [' '] + b];
    SpaceThenName(b);
    TrimOfTrimmed(a);
    assert pieces[1..] == [[' '] + b];
    assert TrimmedPieces([[' '] + b]) == [b];
  }

  /** One leading space is trimmed away. */
  lemma SpaceThenName(t: string)
    requires t != [] && !IsWhitespace(t[0]) && !IsWhitespace(t[|t| - 1])
    ensures Trim([' '] + t) == t
  {
    assert ([' '] + t)[1..] == t;
    assert TrimStart(t) == t;
  }

  // ----- subdirectory filter -----

  /** A file's relative path selected by a subdirectory list: it starts
      with an entry, or with an entry followed by '/'. */
  predicate InSubdirs(path: string, ds: seq<string>) {
    exists i :: 0 <= i < |ds| && (StartsWith(path, ds[i]) || StartsWith(path, ds[i] + "/"))
  }

  /** The `retain` step: with no list every file stays; otherwise the
      files under a listed subdirectory stay, in order. */
  function FilterBySubdirs(files: seq<ScannedFile>, subdirs: Option<seq<string>>): (kept: seq<ScannedFile>)
    ensures subdirs.None? ==> kept == files
    ensures IsSubsequence(kept, files)
    ensures subdirs.Some? ==> forall f :: f in kept <==> f in files && InSubdirs(f.relativePath, subdirs.value)
  {
    if subdirs.None? then
      SubsequenceOfSelf(files);
      files
    else KeepUnder(files, subdirs.value)
  }

  function KeepUnder(files: seq<ScannedFile>, ds: seq<string>): (kept: seq<ScannedFile>)
    ensures IsSubsequence(kept, files)
    ensures forall f :: f in kept <==> f in files && InSubdirs(f.relativePath, ds)
  {
    if files == [] then []
    else if InSubdirs(files[0].relativePath, ds) then [files[0]] + KeepUnder(files[1..], ds)
    else
      KeepUnder(files[1..], ds)
  }

  /** The second test is subsumed by the first: selection is a plain
      text-prefix test, so "docs" also selects "docs-old/a.md". */
  lemma SubdirMatchIsTextPrefix(path: string, ds: seq<string>)
    ensures InSubdirs(path, ds) <==> exists i :: 0 <= i < |ds| && StartsWith(path, ds[i])
    ensures InSubdirs("docs-old/a.md", ["docs"])
  {
    assert StartsWith("docs-old/a.md", ["docs"][0]);
  }

  /** A list that parses to no entries (such as "" or ",") selects no
      file at all, unlike giving no list. */
  lemma EmptyListSelectsNothing(files: seq<ScannedFile>)
    ensures ParseSubdirectories("") == []
    ensures FilterBySubdirs(files, Some(ParseSubdirectories(""))) == []
  {
    assert Split("", ',') == [[]];
    assert Trim([]) == [];
  }

  // ----- the per-file ingest step -----

  /** What one ingest call reads from outside. `syncError`, `connectError`,
      `schemaError` are the failures of those steps, if any; `read` is the
      file reader; `backend` gives the store's failure for a file's
      write, if any. */
  datatype IngestIo = IngestIo(
    syncError: Option<string>,
    commit: Option<string>,
    connectError: Option<string>,
    client: DbClient,
    entries: seq<Option<Entry>>,
    schemaError: Option<string>,
    read: string -> Option<string>,
    backend: string -> Option<string>,
    sha256: Digest,
    connectApi: string -> EmbeddingApi,
    now: nat)

  /** The row a file yields, or None when the file counts as failed: too
      large, unreadable, or refused by the store. */
  function IngestOne(maxBytes: nat, b: BatchInserter, io: IngestIo, f: ScannedFile): Option<Record> {
    if f.size > maxBytes then None
    else match io.read(f.path)
      case None => None
      case Some(content) =>
        if io.backend(f.path).Some? then None
        else Some(RecordOf(b, NewDocument(io.sha256, f.path, f.relativePath, content, f.modified, io.now)))
  }

  function IngestOf(maxBytes: nat, b: BatchInserter, io: IngestIo): ScannedFile -> Option<Record> {
    f => IngestOne(maxBytes, b, io, f)
  }

  /** The rows written for a run of files, in order. */
  function Recorded(ingest: ScannedFile -> Option<Record>, files: seq<ScannedFile>): (rows: seq<Record>)
    ensures |rows| <= |files|
  {
    if files == [] then []
    else
      var prev := Recorded(ingest, files[..|files| - 1]);
      match ingest(files[|files| - 1])
      case Some(r) => prev + [r]
      case None => prev
  }

  /** A file above the size limit is never written and counts as
      failed; with a limit of 0 that is every non-empty file. */
  lemma OversizeFails(maxBytes: nat, b: BatchInserter, io: IngestIo, f: ScannedFile)
    ensures f.size > maxBytes ==> IngestOne(maxBytes, b, io, f).None?
    ensures maxBytes == 0 && f.size > 0 ==> IngestOne(maxBytes, b, io, f).None?
  {
  }

  /** A table state after appending rows to one table; no rows leave it
      as it was, so a missing table is not created. */
  function AppendRows(tables: map<string, seq<Record>>, name: string, rows: seq<Record>): map<string, seq<Record>> {
    if rows == [] then tables
    else tables[name := (if name in tables then tables[name] else []) + rows]
  }

  lemma AppendRowsSnoc(tables: map<string, seq<Record>>, name: string, rows: seq<Record>, r: Record)
    ensures var t := AppendRows(tables, name, rows);
      AppendRows(tables, name, rows + [r]) == t[name := (if name in t then t[name] else []) + [r]]
  {
    var prev := if name in tables then tables[name] else [];
    if rows != [] {
      assert prev + rows + [r] == prev + (rows + [r]);
    } else {
      assert rows + [r] == [r];
    }
  }

  /** The ingest statistics a call reports. */
  datatype IngestReport = IngestReport(
    url: string,
    branch: string,
    commit: string,
    fileCount: nat,
    processed: nat,
    failed: nat)

  /** The metadata a successful ingest records. */
  function MetadataOf(url: string, branch: string, commit: string, localPath: string,
                      subdirs: Option<seq<string>>, processed: nat, now: nat): RepositoryMetadata
  {
    RepositoryMetadata(url, branch, commit, localPath, subdirs, processed, now)
  }

  /** The arguments of the ingest tool. */
  datatype IngestParams = IngestParams(
    repoUrl: string,
    reference: Option<string>,
    subdirectories: Option<string>,
    force: Option<bool>)

  function SubdirsOf(params: IngestParams): (r: Option<seq<string>>)
    ensures r.Some? <==> params.subdirectories.Some?
    ensures r.Some? ==> r.value == ParseSubdirectories(params.subdirectories.value)
  {
    if params.subdirectories.Some? then Some(ParseSubdirectories(params.subdirectories.value)) else None
  }

  /** The configuration after the ingest tool's update: the source URL is
      the ingested one and the branch is the reference when one is
      given. */
  function IngestConfig(config: Config, params: IngestParams): (c: Config)
    ensures c.repository.sourceUrl == params.repoUrl
    ensures params.reference.Some? ==> c.repository.branch == params.reference.value
    ensures params.reference.None? ==> c.repository.branch == config.repository.branch
    ensures c.repository.localPath == config.repository.localPath
    ensures c.repository.syncOnStart == config.repository.syncOnStart
    ensures c.database == config.database && c.pipeline == config.pipeline && c.extraction == config.extraction
  {
    var repo := config.repository.(sourceUrl := params.repoUrl);
    config.(repository := if params.reference.Some? then repo.(branch := params.reference.value) else repo)
  }

  /** The files an ingest call considers: the scan of the local path,
      narrowed to the requested subdirectories. */
  function CandidateFiles(config: Config, params: IngestParams, io: IngestIo): seq<ScannedFile> {
    FilterBySubdirs(ScanOf(FileScanner(config.pipeline), config.repository.localPath, io.entries), SubdirsOf(params))
  }

  /** The arguments `update_repository` re-ingests with: the stored URL,
      the new reference or else the stored branch, the stored
      subdirectories joined with ',', and force on. */
  function UpdateParams(meta: RepositoryMetadata, newReference: Option<string>): (p: IngestParams)
    ensures p.repoUrl == meta.url && p.force == Some(true)
    ensures p.reference == Some(if newReference.Some? then newReference.value else meta.branch)
    ensures p.subdirectories.Some? <==> meta.subdirectories.Some?
  {
    IngestParams(meta.url,
                 Some(if newReference.Some? then newReference.value else meta.branch),
                 if meta.subdirectories.Some? then Some(Join(meta.subdirectories.value, ",")) else None,
                 Some(true))
  }

  /** Re-ingesting reads the stored subdirectory list back unchanged. */
  lemma UpdateKeepsSubdirs(meta: RepositoryMetadata, newReference: Option<string>)
    requires meta.subdirectories.Some? ==> WellFormedSubdirs(meta.subdirectories.value)
    ensures SubdirsOf(UpdateParams(meta, newReference)) == meta.subdirectories
  {
    if meta.subdirectories.Some? {
      SubdirectoriesRoundTrip(meta.subdirectories.value);
    }
  }

  /** The registry's shape: each entry sits under its URL's key, and a
      stored subdirectory list is one parsing produced. */
  ghost predicate RegistryWellFormed(repositories: map<string, RepositoryMetadata>) {
    forall k {:trigger EntryWellFormed(k, repositories[k])} :: k in repositories ==> EntryWellFormed(k, repositories[k])
  }

  ghost predicate EntryWellFormed(key: string, meta: RepositoryMetadata) {
    && key == GetRepoKey(meta.url)
    && (meta.subdirectories.Some? ==> WellFormedSubdirs(meta.subdirectories.value))
  }

  /** The branch an ingest records: the reference when one is given,
      "main" otherwise (whatever the configured branch is). */
  function BranchDisplay(params: IngestParams): (b: string)
    ensures params.reference.Some? ==> b == params.reference.value
    ensures params.reference.None? ==> b == "main"
  {
    if params.reference.Some? then params.reference.value else "main"
  }

  /** The error that ends an ingest call before any file is read, if
      any: the sync, then connecting (only when no client exists yet),
      then schema initialization. */
  function IngestFailure(io: IngestIo, connected: bool): (e: Option<McpError>)
    ensures e.Some? ==> e.value.code == InternalError
    ensures e.None? <==> io.syncError.None? && (connected || io.connectError.None?) && io.schemaError.None?
  {
    if io.syncError.Some? then Some(McpError(InternalError, "Repository sync failed: " + io.syncError.value))
    else if !connected && io.connectError.Some? then
      Some(McpError(InternalError, "Failed to connect to LanceDB: " + io.connectError.value))
    else if io.schemaError.Some? then
      Some(McpError(InternalError, "Schema initialization failed: " + io.schemaError.value))
    else None
  }

  /** The `force` argument is read only for a log line: the files, the
      configuration and the recorded metadata do not depend on it. */
  lemma ForceIgnored(config: Config, params: IngestParams, io: IngestIo, force: Option<bool>)
    ensures CandidateFiles(config, params.(force := force), io) == CandidateFiles(config, params, io)
    ensures IngestConfig(config, params.(force := force)) == IngestConfig(config, params)
    ensures BranchDisplay(params.(force := force)) == BranchDisplay(params)
  {
  }

  /** Recording metadata under its URL's key keeps the registry well
      formed. */
  lemma RegistryUpsert(repositories: map<string, RepositoryMetadata>, url: string, meta: RepositoryMetadata)
    requires RegistryWellFormed(repositories)
    requires meta.url == url
    requires meta.subdirectories.Some? ==> WellFormedSubdirs(meta.subdirectories.value)
    ensures RegistryWellFormed(repositories[GetRepoKey(url) := meta])
  {
    var key := GetRepoKey(url);
    assert EntryWellFormed(key, meta);
    UpsertWellFormed(repositories, key, meta);
  }

  lemma UpsertWellFormed(repositories: map<string, RepositoryMetadata>, key: string, meta: RepositoryMetadata)
    requires RegistryWellFormed(repositories) && EntryWellFormed(key, meta)
    ensures RegistryWellFormed(repositories[key := meta])
  {
    var updated := repositories[key := meta];
    forall k | k in updated
      ensures EntryWellFormed(k, updated[k])
    {
      if k == key {
        assert updated[k] == meta;
      } else {
        assert updated[k] == repositories[k];
      }
    }
  }

  /** Dropping an entry keeps the registry well formed. */
  lemma RegistryDrop(repositories: map<string, RepositoryMetadata>, key: string)
    requires RegistryWellFormed(repositories)
    ensures RegistryWellFormed(repositories - {key})
  {
    var rest := repositories - {key};
    forall k | k in rest
      ensures EntryWellFormed(k, rest[k])
    {
      assert rest[k] == repositories[k];
    }
  }

  function NotFound(key: string): McpError {
    McpError(InvalidParams, "Repository '" + key + "' not found. Use list_repositories to see available repositories.")
  }

  /** What the remove tool reports. */
  datatype RemovalReport = RemovalReport(key: string, url: string, filesTracked: nat)

  /** The commit an ingest records: the checked-out commit, or
      "unknown" when it cannot be read. */
  function CommitOf(io: IngestIo): string {
    if io.commit.Some? then io.commit.value else "unknown"
  }

  /** The inserter built on the connected client. */
  function InserterOf(client: DbClient, io: IngestIo): BatchInserter {
    NewBatchInserter(client.tableName, client.groqApiKey, io.connectApi)
  }

  /** The rows an ingest writes: one per considered file that is small
      enough, readable and accepted by the store, in scan order. */
  ghost function IngestRows(config: Config, client: DbClient, params: IngestParams, io: IngestIo): (rows: seq<Record>)
    ensures |rows| <= Min(|CandidateFiles(config, params, io)|, IngestLimit)
  {
    var files := CandidateFiles(config, params, io);
    Recorded(IngestOf(MaxSizeBytes(config.pipeline), InserterOf(client, io), io), files[..Min(|files|, IngestLimit)])
  }

  /** The report of a completed ingest: files found after filtering,
      rows written, and the rest of the considered files as failed. */
  ghost function IngestReportOf(config: Config, client: DbClient, params: IngestParams, io: IngestIo): IngestReport {
    var found := |CandidateFiles(config, params, io)|;
    var rows := IngestRows(config, client, params, io);
    IngestReport(params.repoUrl, BranchDisplay(params), CommitOf(io), found, |rows|, Min(found, IngestLimit) - |rows|)
  }

  lemma IngestRowsOf(config: Config, client: DbClient, params: IngestParams, io: IngestIo,
                     files: seq<ScannedFile>, b: BatchInserter)
    requires files == CandidateFiles(config, params, io) && b == InserterOf(client, io)
    ensures IngestRows(config, client, params, io)
      == Recorded(IngestOf(MaxSizeBytes(config.pipeline), b, io), files[..Min(|files|, IngestLimit)])
    ensures b.tableName == client.tableName
  {
  }

  lemma ReportOfCounts(config: Config, client: DbClient, params: IngestParams, io: IngestIo, processed: nat, failed: nat)
    requires processed == |IngestRows(config, client, params, io)|
    requires processed + failed == Min(|CandidateFiles(config, params, io)|, IngestLimit)
    ensures IngestReportOf(config, client, params, io)
      == IngestReport(params.repoUrl, BranchDisplay(params), CommitOf(io), |CandidateFiles(config, params, io)|,
                      processed, failed)
  {
  }

  /** The registry entry a completed ingest records. */
  ghost function IngestMetadataOf(config: Config, client: DbClient, params: IngestParams, io: IngestIo): RepositoryMetadata {
    MetadataOf(params.repoUrl, BranchDisplay(params), CommitOf(io), config.repository.localPath,
               SubdirsOf(params), |IngestRows(config, client, params, io)|, io.now)
  }

  /** No row of the table carries a repository URL. */
  ghost predicate Untagged(tables: map<string, seq<Record>>, name: string) {
    name in tables ==> forall r :: r in tables[name] ==> r.repositoryUrl.None?
  }

  /** The rows an ingest writes carry no repository URL. */
  lemma {:induction false} RecordedUntagged(maxBytes: nat, b: BatchInserter, io: IngestIo, files: seq<ScannedFile>)
    ensures forall r :: r in Recorded(IngestOf(maxBytes, b, io), files) ==> r.repositoryUrl.None?
  {
    if files != [] {
      RecordedUntagged(maxBytes, b, io, files[..|files| - 1]);
    }
  }

  /** Ingesting keeps a table free of repository URLs. */
  lemma IngestKeepsUntagged(tables: map<string, seq<Record>>, config: Config, client: DbClient,
                            params: IngestParams, io: IngestIo)
    requires Untagged(tables, client.tableName)
    ensures Untagged(AppendRows(tables, client.tableName, IngestRows(config, client, params, io)), client.tableName)
  {
    var files := CandidateFiles(config, params, io);
    RecordedUntagged(MaxSizeBytes(config.pipeline), InserterOf(client, io), io, files[..Min(|files|, IngestLimit)]);
  }

  /** The tables after `delete_by_repository` on one table: the rows
      tagged with the URL are gone, unless the table is missing or the
      store fails. */
  function AfterDelete(tables: map<string, seq<Record>>, name: string, url: string, deleteError: Option<string>)
    : (after: map<string, seq<Record>>)
    ensures after.Keys == tables.Keys
    ensures forall n :: n in tables && n != name ==> after[n] == tables[n]
    ensures name in tables ==> forall r :: r in after[name] <==>
      r in tables[name] && (deleteError.Some? || r.repositoryUrl != Some(url))
  {
    if deleteError.None? && name in tables then tables[name := KeepOthers(tables[name], url)] else tables
  }

  /** Deleting by repository URL removes nothing from a table whose rows
      carry no URL, and ingest never writes one: the remove tool drops
      the registry entry but leaves every ingested row in place. */
  lemma DeleteSparesUntagged(tables: map<string, seq<Record>>, name: string, url: string, deleteError: Option<string>)
    requires Untagged(tables, name)
    ensures AfterDelete(tables, name, url, deleteError) == tables
  {
    if deleteError.None? && name in tables {
      DeleteKeepsInsertedRows(tables[name], url);
    }
  }

  class GitSummarizeMcp {
    var config: Config
    var dbClient: Option<DbClient>
    var repositories: map<string, RepositoryMetadata>
    /** How many database clients this server has created. */
    ghost var clientsCreated: nat
    /** The vector store the client writes to. */
    const store: VectorStore

    /** At most one client is ever created, exactly when the slot is
        filled; the registry is well formed. */
    ghost predicate Valid()
      reads this
    {
      && (dbClient.None? <==> clientsCreated == 0)
      && clientsCreated <= 1
      && RegistryWellFormed(repositories)
    }

    /** `GitSummarizeMcp::new`: no client yet and an empty registry. */
    constructor(config: Config, store: VectorStore)
      ensures Valid()
      ensures this.config == config && this.store == store
      ensures dbClient.None? && repositories == map[]
    {
      this.config := config;
      this.store := store;
      dbClient := None;
      repositories := map[];
      clientsCreated := 0;
    }

    /** `ensure_db_connected`: a client is created only when the slot is
        empty; once filled, the slot and the count stay as they are. */
    method EnsureDbConnected(client: DbClient, connectError: Option<string>) returns (r: Reply<()>)
      requires Valid()
      modifies this
      ensures Valid()
      ensures config == old(config) && repositories == old(repositories)
      ensures old(dbClient).Some? ==> r == Done(()) && dbClient == old(dbClient) && clientsCreated == old(clientsCreated)
      ensures old(dbClient).None? && connectError.None? ==> r == Done(()) && dbClient == Some(client)
      ensures old(dbClient).None? && connectError.Some? ==>
        r == Refused(McpError(InternalError, "Failed to connect to LanceDB: " + connectError.value))
        && dbClient.None?
      ensures r.Done? <==> dbClient.Some?
    {
      if dbClient.None? {
        if connectError.Some? {
          return Refused(McpError(InternalError, "Failed to connect to LanceDB: " + connectError.value));
        }
        dbClient := Some(client);
        clientsCreated := clientsCreated + 1;
      }
      return Done(());
    }

    /** The ingest loop: the first `min(|files|, 100)` files, each
        counted once, as processed when its row is written and as failed
        otherwise. */
    method IngestFiles(files: seq<ScannedFile>, maxBytes: nat, b: BatchInserter, io: IngestIo)
      returns (processed: nat, failed: nat)
      modifies store
      ensures unchanged(this)
      ensures var considered := files[..Min(|files|, IngestLimit)];
        var rows := Recorded(IngestOf(maxBytes, b, io), considered);
        && processed == |rows|
        && processed + failed == |considered|
        && store.tables == AppendRows(old(store.tables), b.tableName, rows)
    {
      ghost var ingest := IngestOf(maxBytes, b, io);
      var limit := Min(|files|, IngestLimit);
      processed, failed := 0, 0;
      var i := 0;
      while i < limit
        invariant 0 <= i <= limit <= |files|
        invariant processed == |Recorded(ingest, files[..i])|
        invariant processed + failed == i
        invariant store.tables == AppendRows(old(store.tables), b.tableName, Recorded(ingest, files[..i]))
      {
        var file := files[i];
        assert files[..i + 1][..i] == files[..i];
        ghost var rows := Recorded(ingest, files[..i]);
        if file.size > maxBytes {
          failed := failed + 1;
        } else {
          var content := io.read(file.path);
          if content.None? {
            failed := failed + 1;
          } else {
            var document := NewDocument(io.sha256, file.path, file.relativePath, content.value, file.modified, io.now);
            var inserted := InsertDocument(b, store, document, io.backend(file.path));
            if inserted.Ok? {
              AppendRowsSnoc(old(store.tables), b.tableName, rows, RecordOf(b, document));
              processed := processed + 1;
            } else {
              failed := failed + 1;
            }
          }
        }
        i := i + 1;
      }
      assert files[..limit] == files[..Min(|files|, IngestLimit)];
    }

    /** `ingest_repository`. The configuration takes the URL and
        reference first and keeps them even when a later step fails. On
        success the files under the requested subdirectories are
        ingested (at most 100), and the registry entry under the URL's
        key is replaced by one recording the processed count. */
    method IngestRepository(params: IngestParams, io: IngestIo) returns (r: Reply<IngestReport>)
      requires Valid()
      modifies this, store
      ensures Valid()
      ensures config == IngestConfig(old(config), params)
      ensures old(dbClient).Some? ==> dbClient == old(dbClient)
      ensures old(dbClient).None? && io.syncError.None? && io.connectError.None? ==> dbClient == Some(io.client)
      ensures IngestFailure(io, old(dbClient).Some?).Some? ==>
        && r == Refused(IngestFailure(io, old(dbClient).Some?).value)
        && repositories == old(repositories)
        && store.tables == old(store.tables)
      ensures IngestFailure(io, old(dbClient).Some?).None? ==>
        && dbClient.Some?
        && r == Done(IngestReportOf(config, dbClient.value, params, io))
        && repositories == old(repositories)[GetRepoKey(params.repoUrl) := IngestMetadataOf(config, dbClient.value, params, io)]
        && store.tables == AppendRows(old(store.tables), dbClient.value.tableName, IngestRows(config, dbClient.value, params, io))
    {
      config := IngestConfig(config, params);
      if io.syncError.Some? {
        return Refused(McpError(InternalError, "Repository sync failed: " + io.syncError.value));
      }
      var commit := CommitOf(io);
      var connected := EnsureDbConnected(io.client, io.connectError);
      if connected.Refused? {
        return Refused(connected.error);
      }
      if io.schemaError.Some? {
        return Refused(McpError(InternalError, "Schema initialization failed: " + io.schemaError.value));
      }
      r := IngestConnected(params, io, commit);
    }

    /** The part of `ingest_repository` after the client is connected
        and the schema is in place: scan, filter, ingest, record. */
    method IngestConnected(params: IngestParams, io: IngestIo, commit: string) returns (r: Reply<IngestReport>)
      requires Valid() && dbClient.Some?
      requires commit == CommitOf(io)
      modifies this, store
      ensures Valid()
      ensures config == old(config) && dbClient == old(dbClient) && clientsCreated == old(clientsCreated)
      ensures r == Done(IngestReportOf(config, dbClient.value, params, io))
      ensures repositories == old(repositories)[GetRepoKey(params.repoUrl) := IngestMetadataOf(config, dbClient.value, params, io)]
      ensures store.tables == AppendRows(old(store.tables), dbClient.value.tableName, IngestRows(config, dbClient.value, params, io))
    {
      var subdirs := SubdirsOf(params);
      var files := CandidateFiles(config, params, io);
      var client := dbClient.value;
      var b := InserterOf(client, io);
      var processed, failed := IngestFiles(files, MaxSizeBytes(config.pipeline), b, io);
      ghost var rows := IngestRows(config, client, params, io);
      IngestRowsOf(config, client, params, io, files, b);
      assert processed == |rows|;
      assert store.tables == AppendRows(old(store.tables), client.tableName, rows);
      ReportOfCounts(config, client, params, io, processed, failed);
      var metadata := MetadataOf(params.repoUrl, BranchDisplay(params), commit, config.repository.localPath,
                                 subdirs, processed, io.now);
      assert metadata == IngestMetadataOf(config, client, params, io);
      RecordIngest(params.repoUrl, metadata);
      r := Done(IngestReport(params.repoUrl, BranchDisplay(params), commit, |files|, processed, failed));
    }

    /** The registry write at the end of `ingest_repository`: the entry
        under the URL's key becomes the new metadata. */
    method RecordIngest(url: string, metadata: RepositoryMetadata)
      requires Valid()
      requires metadata.url == url
      requires metadata.subdirectories.Some? ==> WellFormedSubdirs(metadata.subdirectories.value)
      modifies this
      ensures Valid()
      ensures config == old(config) && dbClient == old(dbClient) && clientsCreated == old(clientsCreated)
      ensures repositories == old(repositories)[GetRepoKey(url) := metadata]
    {
      RegistryUpsert(repositories, url, metadata);
      repositories := repositories[GetRepoKey(url) := metadata];
    }

    /** `remove_repository`. An unknown key changes nothing. A known
        entry is dropped from the registry first and stays dropped even
        when connecting fails; then the rows tagged with its URL are
        deleted, and a failed delete is ignored. */
    method RemoveRepository(identifier: string, client: DbClient, connectError: Option<string>,
                            deleteError: Option<string>) returns (r: Reply<RemovalReport>)
      requires Valid()
      modifies this, store
      ensures Valid()
      ensures config == old(config)
      ensures LookupKey(identifier) !in old(repositories) ==>
        && r == Refused(NotFound(LookupKey(identifier)))
        && repositories == old(repositories) && dbClient == old(dbClient)
        && store.tables == old(store.tables)
      ensures LookupKey(identifier) in old(repositories) ==>
        repositories == old(repositories) - {LookupKey(identifier)}
      ensures LookupKey(identifier) in old(repositories) && old(dbClient).None? && connectError.Some? ==>
        && r == Refused(McpError(InternalError, "Failed to connect to LanceDB: " + connectError.value))
        && store.tables == old(store.tables)
      ensures LookupKey(identifier) in old(repositories) && (old(dbClient).Some? || connectError.None?) ==>
        var key := LookupKey(identifier);
        var meta := old(repositories)[key];
        && dbClient.Some?
        && r == Done(RemovalReport(key, meta.url, meta.fileCount))
        && store.tables == AfterDelete(old(store.tables), dbClient.value.tableName, meta.url, deleteError)
    {
      var key := LookupKey(identifier);
      if key !in repositories {
        return Refused(NotFound(key));
      }
      var metadata := repositories[key];
      RegistryDrop(repositories, key);
      repositories := repositories - {key};
      var purged := PurgeDocuments(metadata.url, client, connectError, deleteError);
      if purged.Refused? {
        return Refused(purged.error);
      }
      return Done(RemovalReport(key, metadata.url, metadata.fileCount));
    }

    /** The database half of `remove_repository`: connect if needed, then
        delete the rows tagged with the URL; a failed delete is
        ignored. */
    method PurgeDocuments(url: string, client: DbClient, connectError: Option<string>, deleteError: Option<string>)
      returns (r: Reply<()>)
      requires Valid()
      modifies this, store
      ensures Valid()
      ensures config == old(config) && repositories == old(repositories)
      ensures old(dbClient).None? && connectError.Some? ==>
        && r == Refused(McpError(InternalError, "Failed to connect to LanceDB: " + connectError.value))
        && store.tables == old(store.tables)
      ensures old(dbClient).Some? || connectError.None? ==>
        && r == Done(())
        && dbClient.Some?
        && store.tables == AfterDelete(old(store.tables), dbClient.value.tableName, url, deleteError)
    {
      var connected := EnsureDbConnected(client, connectError);
      if connected.Refused? {
        return connected;
      }
      var deleted := DeleteByRepository(store, dbClient.value.tableName, url, deleteError);
      return Done(());
    }

    /** `update_repository`: an unknown key changes nothing; otherwise the
        stored repository is ingested again with its URL, the new
        reference or else its branch, and its subdirectories. The entry
        it records sits under the same key and keeps the subdirectory
        list. */
    method UpdateRepository(identifier: string, newReference: Option<string>, io: IngestIo)
      returns (r: Reply<IngestReport>)
      requires Valid()
      modifies this, store
      ensures Valid()
      ensures LookupKey(identifier) !in old(repositories) ==>
        && r == Refused(NotFound(LookupKey(identifier)))
        && config == old(config) && repositories == old(repositories) && dbClient == old(dbClient)
        && store.tables == old(store.tables)
      ensures LookupKey(identifier) in old(repositories) ==>
        var key := LookupKey(identifier);
        var meta := old(repositories)[key];
        && config.repository.sourceUrl == meta.url
        && config.repository.branch == (if newReference.Some? then newReference.value else meta.branch)
        && (IngestFailure(io, old(dbClient).Some?).Some? ==>
              r == Refused(IngestFailure(io, old(dbClient).Some?).value) && repositories == old(repositories))
        && (IngestFailure(io, old(dbClient).Some?).None? ==>
              && r.Done?
              && key in repositories
              && repositories == old(repositories)[key := repositories[key]]
              && repositories[key].url == meta.url
              && repositories[key].branch == (if newReference.Some? then newReference.value else meta.branch)
              && repositories[key].subdirectories == meta.subdirectories
              && repositories[key].fileCount == r.value.processed)
      ensures LookupKey(identifier) in old(repositories) ==>
        var key := LookupKey(identifier);
        var params := UpdateParams(old(repositories)[key], newReference);
        && config == IngestConfig(old(config), params)
        && (old(dbClient).Some? ==> dbClient == old(dbClient))
        && (old(dbClient).None? && io.syncError.None? && io.connectError.None? ==> dbClient == Some(io.client))
        && (IngestFailure(io, old(dbClient).Some?).Some? ==> store.tables == old(store.tables))
        && (IngestFailure(io, old(dbClient).Some?).None? ==>
              && dbClient.Some?
              && r == Done(IngestReportOf(config, dbClient.value, params, io))
              && repositories == old(repositories)[key := IngestMetadataOf(config, dbClient.value, params, io)]
              && store.tables == AppendRows(old(store.tables), dbClient.value.tableName,
                                            IngestRows(config, dbClient.value, params, io)))
    {
      var key := LookupKey(identifier);
      if key !in repositories {
        return Refused(NotFound(key));
      }
      var metadata := repositories[key];
      assert EntryWellFormed(key, metadata);
      var params := UpdateParams(metadata, newReference);
      UpdateKeepsSubdirs(metadata, newReference);
      r := IngestRepository(params, io);
    }
  }
}
