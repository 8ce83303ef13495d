/**
  Application configuration (src/config.rs): the four configuration
  sections, the built-in defaults and the validation every loaded
  configuration passes.
*/
module AppConfig {
  import opened Errors

  type U16 = x: int | 0 <= x < 0x1_0000

  datatype RepositoryConfig = RepositoryConfig(
    sourceUrl: string,
    localPath: string,
    branch: string,
    syncOnStart: bool)

  datatype DatabaseConfig = DatabaseConfig(
    host: string,
    port: U16,
    database: string,
    username: Option<string>,
    password: Option<string>,
    batchSize: nat)

  datatype PipelineConfig = PipelineConfig(
    parallelWorkers: nat,
    skipPatterns: seq<string>,
    forceReprocess: bool,
    maxFileSizeMb: nat)

  datatype ExtractionConfig = ExtractionConfig(
    extractCryptoAddresses: bool,
    extractIncidents: bool,
    extractIocs: bool,
    normalizeMarkdown: bool)

  datatype Config = Config(
    repository: RepositoryConfig,
    database: DatabaseConfig,
    pipeline: PipelineConfig,
    extraction: ExtractionConfig)

  const WorkersMessage := "parallel_workers must be greater than 0"
  const BatchSizeMessage := "batch_size must be greater than 0"

  /** `Config::validate`: worker count first, then batch size. */
  function Validate(c: Config): (r: Outcome)
    ensures r.Pass? <==> c.pipeline.parallelWorkers > 0 && c.database.batchSize > 0
    ensures c.pipeline.parallelWorkers == 0 ==> r == Fail(ConfigError(WorkersMessage))
    ensures c.pipeline.parallelWorkers > 0 && c.database.batchSize == 0 ==>
      r == Fail(ConfigError(BatchSizeMessage))
  {
    if c.pipeline.parallelWorkers == 0 then Fail(ConfigError(WorkersMessage))
    else if c.database.batchSize == 0 then Fail(ConfigError(BatchSizeMessage))
    else Pass
  }

  /** `Config::from_file`. Reading the TOML file and the `LAZARUS_*`
      environment overrides is the loader's business; `loaded` is what it
      produced. Only a configuration that validates is returned. */
  function FromFile(loaded: Result<Config>): (r: Result<Config>)
    ensures r.Ok? <==> loaded.Ok? && Validate(loaded.value).Pass?
    ensures r.Ok? ==> r.value == loaded.value
    ensures loaded.Err? ==> r == loaded
    ensures loaded.Ok? && Validate(loaded.value).Fail? ==> r == Err(Validate(loaded.value).error)
  {
    match loaded
    case Err(e) => Err(e)
    case Ok(c) =>
      var v := Validate(c);
      if v.Fail? then Err(v.error) else Ok(c)
  }

  /** `Config::default_config`. */
  function DefaultConfig(): Config {
    Config(
      RepositoryConfig(
        "https://github.com/tayvano/lazarus-bluenoroff-research",
        "./data_repo",
        "main",
        true),
      DatabaseConfig("localhost", 8123, "lazarus_research", None, None, 1000),
      PipelineConfig(4, ["*.zip", "*.pdf", ".git/*"], false, 10),
      ExtractionConfig(true, true, true, true))
  }

  /** The defaults pass validation, so a loader that produced them yields
      them unchanged, and every extractor and the normalizer are on. */
  lemma DefaultConfigIsValid()
    ensures Validate(DefaultConfig()).Pass?
    ensures FromFile(Ok(DefaultConfig())) == Ok(DefaultConfig())
    ensures var e := DefaultConfig().extraction;
      e.extractCryptoAddresses && e.extractIncidents && e.extractIocs && e.normalizeMarkdown
    ensures DefaultConfig().pipeline.parallelWorkers == 4 && DefaultConfig().database.batchSize == 1000
  {
  }
}
