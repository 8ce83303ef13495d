/**
  Run accounting (src/pipeline/progress.rs): the counters a run keeps and
  the statistics derived from them. Rates are exact real quotients.
*/
module Progress {

  datatype PipelineStats = PipelineStats(
    filesProcessed: nat,
    filesFailed: nat,
    documentsCreated: nat,
    cryptoAddressesExtracted: nat,
    incidentsExtracted: nat,
    iocsExtracted: nat,
    totalBytesProcessed: nat,
    durationSecs: nat)

  /** `PipelineStats::new`, the derived default: every field zero. */
  function NewStats(): (s: PipelineStats)
    ensures s.filesProcessed == s.filesFailed == s.documentsCreated == 0
    ensures s.cryptoAddressesExtracted == s.incidentsExtracted == s.iocsExtracted == 0
    ensures s.totalBytesProcessed == s.durationSecs == 0
  {
    PipelineStats(0, 0, 0, 0, 0, 0, 0, 0)
  }

  /** `files_per_second`: zero for a run of no measurable duration. */
  function FilesPerSecond(s: PipelineStats): (r: real)
    ensures s.durationSecs == 0 ==> r == 0.0
    ensures s.durationSecs > 0 ==> r * s.durationSecs as real == s.filesProcessed as real
  {
    if s.durationSecs == 0 then 0.0 else s.filesProcessed as real / s.durationSecs as real
  }

  /** `bytes_per_second`: zero for a run of no measurable duration. */
  function BytesPerSecond(s: PipelineStats): (r: real)
    ensures s.durationSecs == 0 ==> r == 0.0
    ensures s.durationSecs > 0 ==> r * s.durationSecs as real == s.totalBytesProcessed as real
  {
    if s.durationSecs == 0 then 0.0 else s.totalBytesProcessed as real / s.durationSecs as real
  }

  /** `success_rate`: the percentage of files that succeeded; zero when no
      file was handled. */
  function SuccessRate(s: PipelineStats): (r: real)
    ensures s.filesProcessed + s.filesFailed == 0 ==> r == 0.0
    ensures s.filesProcessed + s.filesFailed > 0 ==>
      r * (s.filesProcessed + s.filesFailed) as real == s.filesProcessed as real * 100.0
  {
    var total := s.filesProcessed + s.filesFailed;
    if total == 0 then 0.0 else (s.filesProcessed as real / total as real) * 100.0
  }

  /** The rate is a percentage: 100 exactly when files were handled and
      none failed, 0 exactly when none succeeded. */
  lemma SuccessRateBounds(s: PipelineStats)
    ensures 0.0 <= SuccessRate(s) <= 100.0
    ensures SuccessRate(s) == 100.0 <==> s.filesProcessed > 0 && s.filesFailed == 0
    ensures SuccessRate(s) == 0.0 <==> s.filesProcessed == 0
  {
    var total := (s.filesProcessed + s.filesFailed) as real;
    var r := SuccessRate(s);
    if total > 0.0 {
      assert r * total == s.filesProcessed as real * 100.0;
      if r == 100.0 {
        assert 100.0 * total == s.filesProcessed as real * 100.0;
      }
    }
  }

  /** `total_entities_extracted`. */
  function TotalEntitiesExtracted(s: PipelineStats): (r: nat)
    ensures r >= s.cryptoAddressesExtracted && r >= s.incidentsExtracted && r >= s.iocsExtracted
    ensures r == 0 <==> s.cryptoAddressesExtracted == 0 && s.incidentsExtracted == 0 && s.iocsExtracted == 0
  {
    s.cryptoAddressesExtracted + s.incidentsExtracted + s.iocsExtracted
  }

  /** Each extracted entity counts once in the total: adding `n` to any
      one entity counter adds `n` to the total, and the other fields do
      not take part. */
  lemma TotalCountsEachEntity(s: PipelineStats, n: nat, t: PipelineStats)
    requires t.cryptoAddressesExtracted == s.cryptoAddressesExtracted
    requires t.incidentsExtracted == s.incidentsExtracted
    requires t.iocsExtracted == s.iocsExtracted
    ensures TotalEntitiesExtracted(s.(cryptoAddressesExtracted := s.cryptoAddressesExtracted + n))
            == TotalEntitiesExtracted(s) + n
    ensures TotalEntitiesExtracted(s.(incidentsExtracted := s.incidentsExtracted + n))
            == TotalEntitiesExtracted(s) + n
    ensures TotalEntitiesExtracted(s.(iocsExtracted := s.iocsExtracted + n))
            == TotalEntitiesExtracted(s) + n
    ensures TotalEntitiesExtracted(t) == TotalEntitiesExtracted(s)
  {
  }

  /** The figures of the module's own test: 100 processed and 10 failed in
      10 seconds over 1000 bytes give 10 files and 100 bytes a second and a
      success rate of 1000/11 percent. */
  lemma StatsExample()
    ensures var s := NewStats().(filesProcessed := 100, filesFailed := 10, durationSecs := 10,
                                 totalBytesProcessed := 1000);
      FilesPerSecond(s) == 10.0 && BytesPerSecond(s) == 100.0 && SuccessRate(s) == 1000.0 / 11.0
  {
  }

  /** `ProgressTracker`: the shared counters, the position of the main
      progress bar and the start time (seconds on the caller's clock). */
  class ProgressTracker {
    var filesProcessed: nat
    var filesFailed: nat
    var documentsCreated: nat
    var cryptoAddresses: nat
    var incidents: nat
    var iocs: nat
    var bytesProcessed: nat
    var barPosition: nat
    const barLength: nat
    const startTime: nat

    /** The main bar advances once per file, processed or failed. */
    ghost predicate Valid()
      reads this
    {
      barPosition == filesProcessed + filesFailed
    }

    /** `ProgressTracker::new`: every counter at zero. */
    constructor(totalFiles: nat, now: nat)
      ensures Valid()
      ensures filesProcessed == filesFailed == documentsCreated == 0
      ensures cryptoAddresses == incidents == iocs == bytesProcessed == 0
      ensures barLength == totalFiles && startTime == now
    {
      filesProcessed, filesFailed, documentsCreated := 0, 0, 0;
      cryptoAddresses, incidents, iocs, bytesProcessed := 0, 0, 0, 0;
      barPosition := 0;
      barLength := totalFiles;
      startTime := now;
    }

    method IncFilesProcessed()
      requires Valid()
      modifies this
      ensures Valid()
      ensures filesProcessed == old(filesProcessed) + 1 && barPosition == old(barPosition) + 1
      ensures filesFailed == old(filesFailed) && documentsCreated == old(documentsCreated)
      ensures cryptoAddresses == old(cryptoAddresses) && incidents == old(incidents)
      ensures iocs == old(iocs) && bytesProcessed == old(bytesProcessed)
    {
      filesProcessed := filesProcessed + 1;
      barPosition := barPosition + 1;
    }

    method IncFilesFailed()
      requires Valid()
      modifies this
      ensures Valid()
      ensures filesFailed == old(filesFailed) + 1 && barPosition == old(barPosition) + 1
      ensures filesProcessed == old(filesProcessed) && documentsCreated == old(documentsCreated)
      ensures cryptoAddresses == old(cryptoAddresses) && incidents == old(incidents)
      ensures iocs == old(iocs) && bytesProcessed == old(bytesProcessed)
    {
      filesFailed := filesFailed + 1;
      barPosition := barPosition + 1;
    }

    method AddDocument()
      modifies this
      ensures documentsCreated == old(documentsCreated) + 1
      ensures filesProcessed == old(filesProcessed) && filesFailed == old(filesFailed)
      ensures cryptoAddresses == old(cryptoAddresses) && incidents == old(incidents)
      ensures iocs == old(iocs) && bytesProcessed == old(bytesProcessed) && barPosition == old(barPosition)
    {
      documentsCreated := documentsCreated + 1;
    }

    method AddCryptoAddresses(count: nat)
      modifies this
      ensures cryptoAddresses == old(cryptoAddresses) + count
      ensures filesProcessed == old(filesProcessed) && filesFailed == old(filesFailed)
      ensures documentsCreated == old(documentsCreated) && incidents == old(incidents)
      ensures iocs == old(iocs) && bytesProcessed == old(bytesProcessed) && barPosition == old(barPosition)
    {
      cryptoAddresses := cryptoAddresses + count;
    }

    method AddIncidents(count: nat)
      modifies this
      ensures incidents == old(incidents) + count
      ensures filesProcessed == old(filesProcessed) && filesFailed == old(filesFailed)
      ensures documentsCreated == old(documentsCreated) && cryptoAddresses == old(cryptoAddresses)
      ensures iocs == old(iocs) && bytesProcessed == old(bytesProcessed) && barPosition == old(barPosition)
    {
      incidents := incidents + count;
    }

    method AddIocs(count: nat)
      modifies this
      ensures iocs == old(iocs) + count
      ensures filesProcessed == old(filesProcessed) && filesFailed == old(filesFailed)
      ensures documentsCreated == old(documentsCreated) && cryptoAddresses == old(cryptoAddresses)
      ensures incidents == old(incidents) && bytesProcessed == old(bytesProcessed) && barPosition == old(barPosition)
    {
      iocs := iocs + count;
    }

    method AddBytesProcessed(bytes: nat)
      modifies this
      ensures bytesProcessed == old(bytesProcessed) + bytes
      ensures filesProcessed == old(filesProcessed) && filesFailed == old(filesFailed)
      ensures documentsCreated == old(documentsCreated) && cryptoAddresses == old(cryptoAddresses)
      ensures incidents == old(incidents) && iocs == old(iocs) && barPosition == old(barPosition)
    {
      bytesProcessed := bytesProcessed + bytes;
    }

    /** `get_stats`: the counters as they stand, and the whole seconds
        elapsed since the tracker was made. */
    method GetStats(now: nat) returns (s: PipelineStats)
      requires startTime <= now
      ensures s.filesProcessed == filesProcessed && s.filesFailed == filesFailed
      ensures s.documentsCreated == documentsCreated && s.cryptoAddressesExtracted == cryptoAddresses
      ensures s.incidentsExtracted == incidents && s.iocsExtracted == iocs
      ensures s.totalBytesProcessed == bytesProcessed && s.durationSecs == now - startTime
    {
      s := PipelineStats(filesProcessed, filesFailed, documentsCreated, cryptoAddresses, incidents,
                         iocs, bytesProcessed, now - startTime);
    }
  }

  /** The sequence of the module's tracker test: one success and some
      extraction counts read back unchanged, and two failures counted as
      two. */
  method TrackerExample() returns (s: PipelineStats, t: PipelineStats)
    ensures s.filesProcessed == 1 && s.cryptoAddressesExtracted == 5 && s.incidentsExtracted == 3
    ensures s.iocsExtracted == 10 && s.totalBytesProcessed == 1024
    ensures t.filesFailed == 2 && t.filesProcessed == 0
  {
    var tracker := new ProgressTracker(100, 0);
    tracker.IncFilesProcessed();
    tracker.AddCryptoAddresses(5);
    tracker.AddIncidents(3);
    tracker.AddIocs(10);
    tracker.AddBytesProcessed(1024);
    s := tracker.GetStats(0);
    var other := new ProgressTracker(100, 0);
    other.IncFilesFailed();
    other.IncFilesFailed();
    t := other.GetStats(0);
  }
}
