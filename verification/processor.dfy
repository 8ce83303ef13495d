/**
  The per-file step of a run (src/pipeline/processor.rs): read the file,
  enforce the size ceiling, normalize, parse, build the document and run
  the enabled extractors. What the step cannot see is an input: the file
  system read, the markdown tokenizer, the regular-expression engines,
  SHA-256, the incident readers and the clock.
*/
module Processor {
  import opened Errors
  import opened AppConfig
  import opened DocumentModel
  import opened Normalizer
  import opened Markdown
  import opened ContextWindow
  import opened Scanner
  import opened IncidentModel
  import opened CryptoAddressModel
  import opened IocModel
  import IncidentExtractor
  import CryptoExtractor
  import IocExtractor

  /** `fs::read_to_string`: the content, or the I/O error's message. */
  datatype ReadOutcome = Content(text: string) | IoFailure(cause: string)

  /** Everything `process` consults outside the processor. */
  datatype Environment = Environment(
    read: string -> ReadOutcome,
    tokenize: string -> seq<Event>,
    btc: string -> seq<Match>,
    eth: string -> seq<Match>,
    xmr: string -> seq<Match>,
    trx: string -> seq<Match>,
    ip: string -> seq<Match>,
    domain: string -> seq<Match>,
    hash: string -> seq<Match>,
    email: string -> seq<Match>,
    sha256: Digest,
    readers: IncidentExtractor.SectionReaders,
    now: nat)

  /** Every match an engine reports lies within the text searched. */
  ghost predicate EnginesSound(env: Environment) {
    forall t: string ::
      && InText(t, env.btc(t)) && InText(t, env.eth(t)) && InText(t, env.xmr(t)) && InText(t, env.trx(t))
      && InText(t, env.ip(t)) && InText(t, env.domain(t)) && InText(t, env.hash(t)) && InText(t, env.email(t))
  }

  datatype ProcessingResult = ProcessingResult(
    document: Document,
    cryptoAddresses: seq<CryptoAddress>,
    incidents: seq<Incident>,
    iocs: seq<Ioc>)

  /** The processor: its configuration and whether it holds a
      normalizer. */
  datatype FileProcessor = FileProcessor(config: Config, hasNormalizer: bool)

  /** `FileProcessor::new`: a normalizer exactly when normalization is
      configured. */
  function NewProcessor(config: Config): (p: FileProcessor)
    ensures p.config == config
    ensures p.hasNormalizer <==> config.extraction.normalizeMarkdown
  {
    FileProcessor(config, config.extraction.normalizeMarkdown)
  }

  const BytesPerMb := 1048576

  function MaxBytes(p: FileProcessor): nat {
    p.config.pipeline.maxFileSizeMb * BytesPerMb
  }

  /** The size ceiling: a limit of 0 turns it off. */
  predicate TooLarge(p: FileProcessor, content: string) {
    MaxBytes(p) > 0 && |content| > MaxBytes(p)
  }

  /** The addresses found in `text` by a fresh extractor, with an empty
      attribution. */
  function CryptoFound(text: string, filePath: string, env: Environment): seq<CryptoAddress>
    requires EnginesSound(env)
  {
    CryptoExtractor.ExtractAll(text, env.btc(text), env.eth(text), env.xmr(text), env.trx(text),
                               filePath, "", {}).0
  }

  /** The indicators found in `text` by a fresh extractor. */
  function IocsFound(text: string, env: Environment): seq<Ioc>
    requires EnginesSound(env)
  {
    IocExtractor.ExtractAll(text, env.ip(text), env.domain(text), env.hash(text), env.email(text), {}).0
  }

  function IncidentsFound(content: string, filePath: string, env: Environment): seq<Incident> {
    var events := env.tokenize(content);
    IncidentExtractor.Flush(IncidentExtractor.ExtractRun(events, filePath, env.readers), filePath, env.readers).incidents
  }

  /** What `process` yields for a file. */
  function ProcessSpec(p: FileProcessor, file: ScannedFile, env: Environment): Result<ProcessingResult>
    requires EnginesSound(env)
  {
    match env.read(file.path)
    case IoFailure(cause) => Err(FileOperationError(file.path, cause))
    case Content(content) =>
      if TooLarge(p, content) then Err(ValidationError("File too large: " + file.relativePath))
      else
        var normalized := if p.hasNormalizer then Normalized(content) else content;
        var plain := Finish(Run(env.tokenize(normalized))).plainText;
        var created := NewDocument(env.sha256, file.path, file.relativePath, normalized, file.modified, env.now);
        var document := if p.hasNormalizer then MarkNormalized(created) else created;
        var flags := p.config.extraction;
        Ok(ProcessingResult(
          document,
          if flags.extractCryptoAddresses then CryptoFound(plain, file.path, env) else [],
          if flags.extractIncidents then IncidentsFound(content, file.path, env) else [],
          if flags.extractIocs then IocsFound(plain, env) else []))
  }

  /** `read_file_content`: a failed read becomes a file-operation error
      naming the path. */
  method ReadFileContent(path: string, env: Environment) returns (r: Result<string>)
    ensures env.read(path).Content? ==> r == Ok(env.read(path).text)
    ensures env.read(path).IoFailure? ==> r == Err(FileOperationError(path, env.read(path).cause))
  {
    var outcome := env.read(path);
    if outcome.IoFailure? {
      return Err(FileOperationError(path, outcome.cause));
    }
    return Ok(outcome.text);
  }

  /** `process`. */
  method Process(p: FileProcessor, file: ScannedFile, env: Environment) returns (r: Result<ProcessingResult>)
    requires EnginesSound(env)
    ensures r == ProcessSpec(p, file, env)
  {
    var read := ReadFileContent(file.path, env);
    if read.Err? {
      return Err(read.error);
    }
    var content := read.value;
    var maxBytes := p.config.pipeline.maxFileSizeMb * 1048576;
    if maxBytes > 0 && |content| > maxBytes {
      return Err(ValidationError("File too large: " + file.relativePath));
    }

    var normalizedContent := content;
    if p.hasNormalizer {
      var n := Normalize(content);
      normalizedContent := n.value;
    }
    var parsed := Parse(env.tokenize(normalizedContent));

    var document := NewDocument(env.sha256, file.path, file.relativePath, normalizedContent, file.modified, env.now);
    if p.hasNormalizer {
      document := MarkNormalized(document);
    }

    var plain := parsed.value.plainText;
    var cryptoAddresses, incidents, iocs := ExtractEntities(p.config.extraction, plain, content, file.path, env);
    return Ok(ProcessingResult(document, cryptoAddresses, incidents, iocs));
  }

  /** The extraction step of `process`: each enabled extractor runs, a
      fresh one per file; crypto addresses and indicators come from the
      plain text, incidents from the raw content. */
  method ExtractEntities(flags: ExtractionConfig, plain: string, content: string, filePath: string, env: Environment)
    returns (cryptoAddresses: seq<CryptoAddress>, incidents: seq<Incident>, iocs: seq<Ioc>)
    requires EnginesSound(env)
    ensures cryptoAddresses == if flags.extractCryptoAddresses then CryptoFound(plain, filePath, env) else []
    ensures incidents == if flags.extractIncidents then IncidentsFound(content, filePath, env) else []
    ensures iocs == if flags.extractIocs then IocsFound(plain, env) else []
  {
    cryptoAddresses := [];
    if flags.extractCryptoAddresses {
      var extractor := new CryptoExtractor.CryptoExtractor();
      cryptoAddresses := extractor.ExtractFromText(plain, env.btc(plain), env.eth(plain), env.xmr(plain),
                                                   env.trx(plain), filePath, "");
    }
    incidents := [];
    if flags.extractIncidents {
      incidents := IncidentExtractor.ExtractFromMarkdown(env.tokenize(content), filePath, env.readers);
    }
    iocs := [];
    if flags.extractIocs {
      var extractor := new IocExtractor.IocExtractor();
      iocs := extractor.ExtractFromText(plain, env.ip(plain), env.domain(plain), env.hash(plain), env.email(plain));
    }
  }

  /** A file that cannot be read fails with an error naming its path. */
  lemma ReadFailureNamesPath(p: FileProcessor, file: ScannedFile, env: Environment)
    requires EnginesSound(env) && env.read(file.path).IoFailure?
    ensures ProcessSpec(p, file, env) == Err(FileOperationError(file.path, env.read(file.path).cause))
  {
  }

  /** A readable file is rejected exactly when the ceiling is on and its
      content is longer, and then with a validation error and no
      document; otherwise it is always processed. */
  lemma SizeCeiling(p: FileProcessor, file: ScannedFile, env: Environment)
    requires EnginesSound(env) && env.read(file.path).Content?
    ensures var content := env.read(file.path).text;
      && (ProcessSpec(p, file, env).Err? <==> MaxBytes(p) > 0 && |content| > MaxBytes(p))
      && (ProcessSpec(p, file, env).Err? ==>
            ProcessSpec(p, file, env) == Err(ValidationError("File too large: " + file.relativePath)))
  {
  }

  /** With the ceiling at 0, content of any length is processed. */
  lemma ZeroCeilingDisables(p: FileProcessor, file: ScannedFile, env: Environment)
    requires EnginesSound(env) && env.read(file.path).Content? && p.config.pipeline.maxFileSizeMb == 0
    ensures ProcessSpec(p, file, env).Ok?
  {
  }

  /** The document: marked normalized exactly when the processor holds a
      normalizer, holding the normalized content (the original without
      one), with the scanned file's paths and time and the hash of what it
      holds. */
  lemma DocumentOfResult(p: FileProcessor, file: ScannedFile, env: Environment)
    requires EnginesSound(env) && ProcessSpec(p, file, env).Ok?
    ensures var d := ProcessSpec(p, file, env).value.document;
      var content := env.read(file.path).text;
      && d.normalized == p.hasNormalizer
      && d.content == (if p.hasNormalizer then Normalized(content) else content)
      && d.filePath == file.path && d.relativePath == file.relativePath
      && d.lastModified == file.modified
      && d.contentHash == env.sha256(d.content) && d.fileSize == |d.content|
  {
  }

  /** Each entity list is empty when its extractor is switched off; the
      address and indicator extractors read the plain text of the parsed
      (normalized) content, the incident extractor the raw content. */
  lemma EntitiesOfResult(p: FileProcessor, file: ScannedFile, env: Environment)
    requires EnginesSound(env) && ProcessSpec(p, file, env).Ok?
    ensures var r := ProcessSpec(p, file, env).value;
      var content := env.read(file.path).text;
      var normalized := if p.hasNormalizer then Normalized(content) else content;
      var plain := Finish(Run(env.tokenize(normalized))).plainText;
      && (p.config.extraction.extractCryptoAddresses ==> r.cryptoAddresses == CryptoFound(plain, file.path, env))
      && (!p.config.extraction.extractCryptoAddresses ==> r.cryptoAddresses == [])
      && (p.config.extraction.extractIncidents ==> r.incidents == IncidentsFound(content, file.path, env))
      && (!p.config.extraction.extractIncidents ==> r.incidents == [])
      && (p.config.extraction.extractIocs ==> r.iocs == IocsFound(plain, env))
      && (!p.config.extraction.extractIocs ==> r.iocs == [])
  {
  }

  /** Every address a file yields carries that file's path and an empty
      attribution. */
  lemma AddressesCarryPath(p: FileProcessor, file: ScannedFile, env: Environment)
    requires EnginesSound(env) && ProcessSpec(p, file, env).Ok?
    ensures forall a :: a in ProcessSpec(p, file, env).value.cryptoAddresses ==>
      a.filePath == file.path && a.attribution == ""
  {
    var r := ProcessSpec(p, file, env).value;
    if p.config.extraction.extractCryptoAddresses {
      var content := env.read(file.path).text;
      var normalized := if p.hasNormalizer then Normalized(content) else content;
      var plain := Finish(Run(env.tokenize(normalized))).plainText;
      CryptoExtractor.AllCarry(plain, env.btc(plain), env.eth(plain), env.xmr(plain), env.trx(plain), file.path, "", {});
    }
  }
}
