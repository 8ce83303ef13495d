/**
  One ingestion run (src/pipeline/orchestrator.rs): optional repository
  sync, the scan and the choice of the work set, the per-file processing
  loop and the insertion of the results, with the progress tracker
  keeping the counts. The semaphore-bounded parallel loop is modelled as
  a sequential loop over the work set; the sync, the stored hashes, the
  database inserter and the clock are inputs.
*/
module Orchestrator {
  import opened Errors
  import opened AppConfig
  import opened Scanner
  import opened Processor
  import opened Progress

  datatype PipelineOrchestrator = PipelineOrchestrator(
    config: Config,
    processor: FileProcessor,
    maxConcurrentTasks: nat)

  /** `PipelineOrchestrator::new`. `dbClient` is the outcome of opening
      the database client, whose failure is propagated. The concurrency bound is
      the worker count, raised to one when zero is configured. */
  function New(config: Config, dbClient: Outcome): (r: Result<PipelineOrchestrator>)
    ensures r.Err? <==> dbClient.Fail?
    ensures dbClient.Fail? ==> r.error == dbClient.error
    ensures r.Ok? ==> r.value.config == config && r.value.processor == NewProcessor(config)
    ensures r.Ok? ==> r.value.maxConcurrentTasks >= 1
    ensures r.Ok? && config.pipeline.parallelWorkers >= 1 ==>
      r.value.maxConcurrentTasks == config.pipeline.parallelWorkers
    ensures r.Ok? && config.pipeline.parallelWorkers == 0 ==> r.value.maxConcurrentTasks == 1
  {
    if dbClient.Fail? then Err(dbClient.error)
    else Ok(PipelineOrchestrator(config, NewProcessor(config), Max(config.pipeline.parallelWorkers, 1)))
  }

  /** The module's own test: two workers give two concurrent tasks. */
  lemma TwoWorkersTwoTasks(config: Config)
    requires config.pipeline.parallelWorkers == 2
    ensures New(config, Pass).Ok? && New(config, Pass).value.maxConcurrentTasks == 2
  {
  }

  /** `scan_files`: scan the repository's local path; unless forced, keep
      only the files whose content hash is not stored yet. */
  function ScanFilesSpec(o: PipelineOrchestrator, force: bool, entries: seq<Option<Entry>>,
                        stored: Result<seq<string>>, read: string -> Option<string>,
                        sha256: string -> string): Result<seq<ScannedFile>>
  {
    var scanner := FileScanner(o.config.pipeline);
    var files := ScanOf(scanner, o.config.repository.localPath, entries);
    if force then Ok(files)
    else if stored.Err? then Err(stored.error)
    else Ok(FilterByHash(scanner, files, stored.value, read, sha256))
  }

  method ScanFiles(o: PipelineOrchestrator, force: bool, entries: seq<Option<Entry>>,
                   stored: Result<seq<string>>, read: string -> Option<string>, sha256: string -> string)
    returns (r: Result<seq<ScannedFile>>)
    ensures r == ScanFilesSpec(o, force, entries, stored, read, sha256)
  {
    var scanner := FileScanner(o.config.pipeline);
    var scanned := ScanDirectory(scanner, o.config.repository.localPath, entries);
    var files := scanned.value;
    if force {
      return Ok(files);
    }
    if stored.Err? {
      return Err(stored.error);
    }
    return Ok(FilterByHash(scanner, files, stored.value, read, sha256));
  }

  /** The results `process_files` collects: one per file processed
      without error, in work-set order. */
  function Successes(process: ScannedFile -> Result<ProcessingResult>, files: seq<ScannedFile>): seq<ProcessingResult> {
    if files == [] then []
    else
      var prev := Successes(process, files[..|files| - 1]);
      match process(files[|files| - 1])
      case Ok(res) => prev + [res]
      case Err(_) => prev
  }

  /** The number of files whose processing failed. */
  function Failures(process: ScannedFile -> Result<ProcessingResult>, files: seq<ScannedFile>): nat {
    if files == [] then 0
    else Failures(process, files[..|files| - 1]) + (if process(files[|files| - 1]).Err? then 1 else 0)
  }

  /** The scanned sizes of the files processed without error. */
  function SuccessBytes(process: ScannedFile -> Result<ProcessingResult>, files: seq<ScannedFile>): nat {
    if files == [] then 0
    else
      var last := files[|files| - 1];
      SuccessBytes(process, files[..|files| - 1]) + (if process(last).Ok? then last.size else 0)
  }

  /** Processing with a fixed processor and environment, as a function
      of the file. */
  function ProcessOf(p: FileProcessor, env: Environment): ScannedFile -> Result<ProcessingResult>
    requires EnginesSound(env)
  {
    file => ProcessSpec(p, file, env)
  }

  /** Every file of the work set is either a success or a failure. */
  lemma {:induction false} EachFileCountedOnce(process: ScannedFile -> Result<ProcessingResult>, files: seq<ScannedFile>)
    ensures |Successes(process, files)| + Failures(process, files) == |files|
  {
    if files != [] {
      EachFileCountedOnce(process, files[..|files| - 1]);
    }
  }

  /** Each collected result is what processing some file of the work set
      produced. */
  lemma {:induction false} SuccessesComeFromFiles(process: ScannedFile -> Result<ProcessingResult>, files: seq<ScannedFile>)
    ensures forall res :: res in Successes(process, files) ==>
      exists f :: f in files && process(f) == Ok(res)
  {
    if files != [] {
      var init := files[..|files| - 1];
      SuccessesComeFromFiles(process, init);
      forall res | res in Successes(process, files)
        ensures exists f :: f in files && process(f) == Ok(res)
      {
        if res in Successes(process, init) {
          var f :| f in init && process(f) == Ok(res);
          assert f in files;
        } else {
          assert process(files[|files| - 1]) == Ok(res);
        }
      }
    }
  }

  /** A work set in which every file fails yields no results and no
      processed bytes. */
  lemma {:induction false} AllFailNoResults(process: ScannedFile -> Result<ProcessingResult>, files: seq<ScannedFile>)
    requires forall i :: 0 <= i < |files| ==> process(files[i]).Err?
    ensures Successes(process, files) == [] && SuccessBytes(process, files) == 0
    ensures Failures(process, files) == |files|
  {
    if files != [] {
      var init := files[..|files| - 1];
      assert forall i :: 0 <= i < |init| ==> init[i] == files[i];
      AllFailNoResults(process, init);
    }
  }

  /** One more file of the work set: a success adds its result and its
      size, a failure adds one to the failures. */
  lemma CountsStep(process: ScannedFile -> Result<ProcessingResult>, files: seq<ScannedFile>, i: nat)
    requires i < |files|
    ensures var r := process(files[i]);
      && Successes(process, files[..i + 1]) ==
           Successes(process, files[..i]) + (if r.Ok? then [r.value] else [])
      && Failures(process, files[..i + 1]) == Failures(process, files[..i]) + (if r.Err? then 1 else 0)
      && SuccessBytes(process, files[..i + 1]) ==
           SuccessBytes(process, files[..i]) + (if r.Ok? then files[i].size else 0)
  {
    assert files[..i + 1][..i] == files[..i];
    if process(files[i]).Err? {
      assert Successes(process, files[..i]) + [] == Successes(process, files[..i]);
    }
  }

  /** `process_files`, one file after another: a success bumps the
      processed count and adds the file's size, a failure bumps the
      failed count; only successes are collected. */
  method ProcessFiles(p: FileProcessor, files: seq<ScannedFile>, env: Environment, progress: ProgressTracker)
    returns (results: seq<ProcessingResult>)
    requires EnginesSound(env) && progress.Valid()
    modifies progress
    ensures progress.Valid()
    ensures results == Successes(ProcessOf(p, env), files)
    ensures progress.filesProcessed == old(progress.filesProcessed) + |results|
    ensures progress.filesFailed == old(progress.filesFailed) + Failures(ProcessOf(p, env), files)
    ensures progress.bytesProcessed == old(progress.bytesProcessed) + SuccessBytes(ProcessOf(p, env), files)
    ensures progress.documentsCreated == old(progress.documentsCreated)
    ensures progress.cryptoAddresses == old(progress.cryptoAddresses)
    ensures progress.incidents == old(progress.incidents) && progress.iocs == old(progress.iocs)
  {
    ghost var process := ProcessOf(p, env);
    results := [];
    var i := 0;
    while i < |files|
      invariant 0 <= i <= |files|
      invariant progress.Valid()
      invariant results == Successes(process, files[..i])
      invariant progress.filesProcessed == old(progress.filesProcessed) + |results|
      invariant progress.filesFailed == old(progress.filesFailed) + Failures(process, files[..i])
      invariant progress.bytesProcessed == old(progress.bytesProcessed) + SuccessBytes(process, files[..i])
      invariant progress.documentsCreated == old(progress.documentsCreated)
      invariant progress.cryptoAddresses == old(progress.cryptoAddresses)
      invariant progress.incidents == old(progress.incidents) && progress.iocs == old(progress.iocs)
    {
      CountsStep(process, files, i);
      var found := ProcessTask(p, files[i], env, progress);
      if found.Some? {
        results := results + [found.value];
      }
      i := i + 1;
    }
    assert files[..i] == files;
  }

  /** One task of `process_files`: process the file, then count it as
      processed (adding its size) or as failed; the result is kept only on
      success. */
  method ProcessTask(p: FileProcessor, file: ScannedFile, env: Environment, progress: ProgressTracker)
    returns (found: Option<ProcessingResult>)
    requires EnginesSound(env) && progress.Valid()
    modifies progress
    ensures progress.Valid()
    ensures var r := ProcessOf(p, env)(file);
      && found == (if r.Ok? then Some(r.value) else None)
      && progress.filesProcessed == old(progress.filesProcessed) + (if r.Ok? then 1 else 0)
      && progress.filesFailed == old(progress.filesFailed) + (if r.Err? then 1 else 0)
      && progress.bytesProcessed == old(progress.bytesProcessed) + (if r.Ok? then file.size else 0)
    ensures progress.documentsCreated == old(progress.documentsCreated)
    ensures progress.cryptoAddresses == old(progress.cryptoAddresses)
    ensures progress.incidents == old(progress.incidents) && progress.iocs == old(progress.iocs)
  {
    var processed := Process(p, file, env);
    assert processed == ProcessOf(p, env)(file);
    if processed.Ok? {
      progress.IncFilesProcessed();
      progress.AddBytesProcessed(file.size);
      found := Some(processed.value);
    } else {
      progress.IncFilesFailed();
      found := None;
    }
  }

  /** What the batch inserter reports for one result. */
  datatype BatchStats = BatchStats(
    documentsInserted: nat,
    addressesInserted: nat,
    incidentsInserted: nat,
    iocsInserted: nat)

  /** Where insertion stands: the first error met, if any, how many
      results were handed to the inserter, and the counts inserted. */
  datatype InsertState = InsertState(
    error: Option<PipelineError>,
    attempted: nat,
    documents: nat,
    addresses: nat,
    incidents: nat,
    iocs: nat)

  /** `insert_results` as a fold: results are inserted in order, their
      counts added, and the first error stops the insertion. */
  function InsertRun(results: seq<ProcessingResult>, insert: ProcessingResult -> Result<BatchStats>): InsertState {
    if results == [] then InsertState(None, 0, 0, 0, 0, 0)
    else
      var st := InsertRun(results[..|results| - 1], insert);
      if st.error.Some? then st
      else
        match insert(results[|results| - 1])
        case Err(e) => st.(error := Some(e), attempted := st.attempted + 1)
        case Ok(b) =>
          InsertState(None, st.attempted + 1, st.documents + b.documentsInserted,
                      st.addresses + b.addressesInserted, st.incidents + b.incidentsInserted,
                      st.iocs + b.iocsInserted)
  }

  /** Once insertion has failed, later results change nothing: they are
      never handed to the inserter. */
  lemma {:induction false} FailureStopsInsertion(results: seq<ProcessingResult>, more: seq<ProcessingResult>,
                                                 insert: ProcessingResult -> Result<BatchStats>)
    requires InsertRun(results, insert).error.Some?
    ensures InsertRun(results + more, insert) == InsertRun(results, insert)
  {
    if more != [] {
      var init := more[..|more| - 1];
      var all := results + more;
      assert all[..|all| - 1] == results + init;
      FailureStopsInsertion(results, init, insert);
      assert InsertRun(all, insert) == InsertRun(results + init, insert);
    } else {
      assert results + more == results;
    }
  }

  /** The inserter is called on a prefix of the results: all of them when
      every insertion succeeds, and up to and including the first failing
      one otherwise; the error reported is that result's. */
  lemma {:induction false} InsertionPrefix(results: seq<ProcessingResult>, insert: ProcessingResult -> Result<BatchStats>)
    ensures var st := InsertRun(results, insert);
      && st.attempted <= |results|
      && (st.error.None? <==> forall i :: 0 <= i < |results| ==> insert(results[i]).Ok?)
      && (st.error.None? ==> st.attempted == |results|)
      && (st.error.Some? ==>
            && st.attempted >= 1
            && insert(results[st.attempted - 1]) == Err(st.error.value)
            && forall i :: 0 <= i < st.attempted - 1 ==> insert(results[i]).Ok?)
  {
    if results != [] {
      var init := results[..|results| - 1];
      InsertionPrefix(init, insert);
      assert forall i :: 0 <= i < |init| ==> init[i] == results[i];
    }
  }

  /** `insert_results`: nothing to do for no results; otherwise each
      result is inserted in turn and its counts are added to the tracker,
      one `add_document` per inserted document. An error aborts the
      insertion and is returned; what was counted before it stays counted. */
  method InsertResults(results: seq<ProcessingResult>, progress: ProgressTracker,
                       insert: ProcessingResult -> Result<BatchStats>) returns (r: Outcome)
    requires progress.Valid()
    modifies progress
    ensures progress.Valid()
    ensures var st := InsertRun(results, insert);
      && (r.Pass? <==> st.error.None?)
      && (r.Fail? ==> r.error == st.error.value)
      && progress.documentsCreated == old(progress.documentsCreated) + st.documents
      && progress.cryptoAddresses == old(progress.cryptoAddresses) + st.addresses
      && progress.incidents == old(progress.incidents) + st.incidents
      && progress.iocs == old(progress.iocs) + st.iocs
    ensures progress.filesProcessed == old(progress.filesProcessed)
    ensures progress.filesFailed == old(progress.filesFailed)
    ensures progress.bytesProcessed == old(progress.bytesProcessed)
  {
    if |results| == 0 {
      return Pass;
    }
    var i := 0;
    while i < |results|
      invariant 0 <= i <= |results|
      invariant progress.Valid()
      invariant InsertRun(results[..i], insert).error.None?
      invariant var st := InsertRun(results[..i], insert);
        && progress.documentsCreated == old(progress.documentsCreated) + st.documents
        && progress.cryptoAddresses == old(progress.cryptoAddresses) + st.addresses
        && progress.incidents == old(progress.incidents) + st.incidents
        && progress.iocs == old(progress.iocs) + st.iocs
      invariant progress.filesProcessed == old(progress.filesProcessed)
      invariant progress.filesFailed == old(progress.filesFailed)
      invariant progress.bytesProcessed == old(progress.bytesProcessed)
    {
      var result := results[i];
      assert results[..i + 1][..i] == results[..i];
      var inserted := insert(result);
      if inserted.Err? {
        FailureStopsInsertion(results[..i + 1], results[i + 1..], insert);
        assert results[..i + 1] + results[i + 1..] == results;
        return Fail(inserted.error);
      }
      var stats := inserted.value;
      var d := 0;
      while d < stats.documentsInserted
        invariant 0 <= d <= stats.documentsInserted
        invariant progress.Valid()
        invariant progress.documentsCreated == old(progress.documentsCreated) + InsertRun(results[..i], insert).documents + d
        invariant progress.cryptoAddresses == old(progress.cryptoAddresses) + InsertRun(results[..i], insert).addresses
        invariant progress.incidents == old(progress.incidents) + InsertRun(results[..i], insert).incidents
        invariant progress.iocs == old(progress.iocs) + InsertRun(results[..i], insert).iocs
        invariant progress.filesProcessed == old(progress.filesProcessed)
        invariant progress.filesFailed == old(progress.filesFailed)
        invariant progress.bytesProcessed == old(progress.bytesProcessed)
      {
        progress.AddDocument();
        d := d + 1;
      }
      progress.AddCryptoAddresses(stats.addressesInserted);
      progress.AddIncidents(stats.incidentsInserted);
      progress.AddIocs(stats.iocsInserted);
      i := i + 1;
    }
    assert results[..i] == results;
    return Pass;
  }

  /** What the run reads from outside: the sync outcome, the directory
      entries under the local path, the stored content hashes, the file
      reader and SHA-256 used for hash filtering, the per-file
      environment, the batch inserter and the clock at start and end. */
  datatype RunInputs = RunInputs(
    sync: Outcome,
    entries: seq<Option<Entry>>,
    stored: Result<seq<string>>,
    readRaw: string -> Option<string>,
    sha256: string -> string,
    env: Environment,
    insert: ProcessingResult -> Result<BatchStats>,
    startTime: nat,
    endTime: nat)

  /** The statistics of a run over a non-empty work set. */
  function RunStats(o: PipelineOrchestrator, files: seq<ScannedFile>, io: RunInputs): Result<PipelineStats>
    requires EnginesSound(io.env) && io.startTime <= io.endTime
  {
    StatsOf(ProcessOf(o.processor, io.env), files, io.insert, io.endTime - io.startTime)
  }

  /** The statistics of processing the files one by one and inserting the
      successes in order, taking `duration` seconds. */
  function StatsOf(process: ScannedFile -> Result<ProcessingResult>, files: seq<ScannedFile>,
                   insert: ProcessingResult -> Result<BatchStats>, duration: nat): Result<PipelineStats>
  {
    var results := Successes(process, files);
    var st := InsertRun(results, insert);
    if st.error.Some? then Err(st.error.value)
    else Ok(PipelineStats(|results|, Failures(process, files), st.documents, st.addresses,
                          st.incidents, st.iocs, SuccessBytes(process, files), duration))
  }

  /** The statistics assembled from the counters of a run whose insertion
      succeeded are the run's statistics. */
  lemma StatsOfCounters(process: ScannedFile -> Result<ProcessingResult>, files: seq<ScannedFile>,
                        insert: ProcessingResult -> Result<BatchStats>, duration: nat, stats: PipelineStats)
    requires InsertRun(Successes(process, files), insert).error.None?
    requires var st := InsertRun(Successes(process, files), insert);
      stats == PipelineStats(|Successes(process, files)|, Failures(process, files), st.documents,
                             st.addresses, st.incidents, st.iocs, SuccessBytes(process, files), duration)
    ensures StatsOf(process, files, insert, duration) == Ok(stats)
  {
  }

  /** `run`: sync when configured, choose the work set with the effective
      force flag, and stop with all-zero statistics when it is empty. */
  function RunSpec(o: PipelineOrchestrator, force: bool, io: RunInputs): Result<PipelineStats>
    requires EnginesSound(io.env) && io.startTime <= io.endTime
  {
    if o.config.repository.syncOnStart && io.sync.Fail? then Err(io.sync.error)
    else
      var effectiveForce := force || o.config.pipeline.forceReprocess;
      var scanned := ScanFilesSpec(o, effectiveForce, io.entries, io.stored, io.readRaw, io.sha256);
      if scanned.Err? then Err(scanned.error)
      else if scanned.value == [] then Ok(NewStats())
      else RunStats(o, scanned.value, io)
  }

  method Run(o: PipelineOrchestrator, force: bool, io: RunInputs) returns (r: Result<PipelineStats>)
    requires EnginesSound(io.env) && io.startTime <= io.endTime
    ensures r == RunSpec(o, force, io)
  {
    if o.config.repository.syncOnStart && io.sync.Fail? {
      return Err(io.sync.error);
    }
    var effectiveForce := force || o.config.pipeline.forceReprocess;
    var scanned := ScanFiles(o, effectiveForce, io.entries, io.stored, io.readRaw, io.sha256);
    if scanned.Err? {
      return Err(scanned.error);
    }
    var files := scanned.value;
    if |files| == 0 {
      return Ok(NewStats());
    }
    r := ProcessAndInsert(o, files, io);
  }

  /** The part of `run` after a non-empty work set is known: track,
      process, insert, and read the statistics back. */
  method ProcessAndInsert(o: PipelineOrchestrator, files: seq<ScannedFile>, io: RunInputs)
    returns (r: Result<PipelineStats>)
    requires EnginesSound(io.env) && io.startTime <= io.endTime
    ensures r == RunStats(o, files, io)
  {
    var progress, results := TrackAndProcess(o.processor, files, io.env, io.startTime);
    var inserted := InsertResults(results, progress, io.insert);
    if inserted.Fail? {
      return Err(inserted.error);
    }
    var stats := progress.GetStats(io.endTime);
    StatsOfCounters(ProcessOf(o.processor, io.env), files, io.insert, io.endTime - io.startTime, stats);
    return Ok(stats);
  }

  /** A fresh tracker for the work set, then every file processed through
      it: the tracker holds the processing counts and nothing else. */
  method TrackAndProcess(p: FileProcessor, files: seq<ScannedFile>, env: Environment, startTime: nat)
    returns (progress: ProgressTracker, results: seq<ProcessingResult>)
    requires EnginesSound(env)
    ensures fresh(progress) && progress.Valid() && progress.startTime == startTime
    ensures results == Successes(ProcessOf(p, env), files)
    ensures progress.filesProcessed == |results|
    ensures progress.filesFailed == Failures(ProcessOf(p, env), files)
    ensures progress.bytesProcessed == SuccessBytes(ProcessOf(p, env), files)
    ensures progress.documentsCreated == progress.cryptoAddresses == progress.incidents == progress.iocs == 0
  {
    progress := new ProgressTracker(|files|, startTime);
    results := ProcessFiles(p, files, env, progress);
  }

  /** The work set: with the effective force flag set the scan is used as
      is; otherwise it is filtered against the stored hashes, and the
      configuration's own flag is then off, so the filter really
      applies. */
  lemma WorkSetChoice(o: PipelineOrchestrator, force: bool, io: RunInputs)
    requires EnginesSound(io.env) && io.startTime <= io.endTime
    requires !(o.config.repository.syncOnStart && io.sync.Fail?)
    ensures var files := ScanOf(FileScanner(o.config.pipeline), o.config.repository.localPath, io.entries);
      var scanned := ScanFilesSpec(o, force || o.config.pipeline.forceReprocess, io.entries, io.stored,
                                   io.readRaw, io.sha256);
      && ((force || o.config.pipeline.forceReprocess) ==> scanned == Ok(files))
      && (!(force || o.config.pipeline.forceReprocess) && io.stored.Ok? ==>
            scanned.Ok? && IsSubsequence(scanned.value, files)
            && forall f :: f in scanned.value <==>
                 f in files && IncludeByHash(f, io.stored.value, io.readRaw, io.sha256))
  {
  }

  /** An empty work set ends the run with every statistic at zero, before
      any processing or insertion. */
  lemma EmptyWorkSetZeroStats(o: PipelineOrchestrator, force: bool, io: RunInputs)
    requires EnginesSound(io.env) && io.startTime <= io.endTime
    requires !(o.config.repository.syncOnStart && io.sync.Fail?)
    requires ScanFilesSpec(o, force || o.config.pipeline.forceReprocess, io.entries, io.stored,
                           io.readRaw, io.sha256) == Ok([])
    ensures RunSpec(o, force, io) == Ok(PipelineStats(0, 0, 0, 0, 0, 0, 0, 0))
  {
  }

  /** The counter rule of a completed run: every file of the work set is
      counted once, as processed or as failed, and the processed count is
      the number of results handed to insertion. */
  lemma RunCountsEveryFile(o: PipelineOrchestrator, files: seq<ScannedFile>, io: RunInputs)
    requires EnginesSound(io.env) && io.startTime <= io.endTime
    requires RunStats(o, files, io).Ok?
    ensures var s := RunStats(o, files, io).value;
      && s.filesProcessed + s.filesFailed == |files|
      && s.filesProcessed == |Successes(ProcessOf(o.processor, io.env), files)|
      && s.totalBytesProcessed == SuccessBytes(ProcessOf(o.processor, io.env), files)
      && s.durationSecs == io.endTime - io.startTime
  {
    EachFileCountedOnce(ProcessOf(o.processor, io.env), files);
  }

  /** A run fails when the inserter fails on one of the results, with that
      error; a failed sync fails the run before anything is scanned. */
  lemma RunErrors(o: PipelineOrchestrator, force: bool, files: seq<ScannedFile>, io: RunInputs)
    requires EnginesSound(io.env) && io.startTime <= io.endTime
    ensures o.config.repository.syncOnStart && io.sync.Fail? ==> RunSpec(o, force, io) == Err(io.sync.error)
    ensures RunStats(o, files, io).Err? ==>
      exists i :: 0 <= i < |Successes(ProcessOf(o.processor, io.env), files)| &&
        io.insert(Successes(ProcessOf(o.processor, io.env), files)[i]) == Err(RunStats(o, files, io).error)
  {
    var results := Successes(ProcessOf(o.processor, io.env), files);
    InsertionPrefix(results, io.insert);
    var st := InsertRun(results, io.insert);
    if st.error.Some? {
      var i := st.attempted - 1;
      assert 0 <= i < |results|;
      assert io.insert(results[i]) == Err(RunStats(o, files, io).error);
    }
  }
}
