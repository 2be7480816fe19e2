/** The configuration: the pinning strategy used when an upper bound is synthesised,
    read from the optional `[tool.pinnochio]` table of the manifest. */
module Config {
  import opened Common

  /** How far above the lower bound the synthesised upper bound lies. */
  datatype PinningStrategy = MAJOR | MINOR | PATCH

  /** The text each strategy is spelled with in the manifest (the enum's value). */
  function StrategyValue(p: PinningStrategy): string
  {
    match p
    case MAJOR => "major"
    case MINOR => "minor"
    case PATCH => "patch"
  }

  /** `PinningStrategy(value)`: the strategy spelled `value`, if any. */
  function StrategyOf(value: string): (r: Option<PinningStrategy>)
    ensures r.Some? <==> value == "major" || value == "minor" || value == "patch"
    ensures r.Some? ==> StrategyValue(r.value) == value
  {
    if value == "major" then Some(MAJOR)
    else if value == "minor" then Some(MINOR)
    else if value == "patch" then Some(PATCH)
    else None
  }

  /** Every strategy is recognised from its own spelling. */
  lemma StrategyOfValue(p: PinningStrategy)
    ensures StrategyOf(StrategyValue(p)) == Some(p)
  {
  }

  datatype Config = Config(pinningStrategy: PinningStrategy)

  /** `Config()`: the dataclass default. */
  function DefaultConfig(): (c: Config)
    ensures c.pinningStrategy == MAJOR
  {
    Config(MAJOR)
  }

  /** The value found under `tool.pinnochio`: a table, whose `pinning-strategy` entry
      is kept as the text `str()` gives of it, or any value that is not a table. */
  datatype PinnochioSection = SectionTable(pinningStrategy: Option<string>) | NotATable

  /** The `[tool]` table, reduced to the one entry read here. */
  datatype ToolTable = ToolTable(pinnochio: Option<PinnochioSection>)

  /** `load_config`: the configuration stated in `[tool.pinnochio]`, or the default. */
  function LoadConfig(tool: Option<ToolTable>): (r: Result<Config>)
    // No [tool] or no [tool.pinnochio]: the defaults.
    ensures (tool.None? || tool.value.pinnochio.None?) ==> r == Ok(DefaultConfig())
    // [tool.pinnochio] that is not a table is rejected.
    ensures tool.Some? && tool.value.pinnochio == Some(NotATable) ==> r == Err(ConfigNotATable)
    // A table without a pinning-strategy key gives MAJOR.
    ensures tool.Some? && tool.value.pinnochio == Some(SectionTable(None)) ==> r == Ok(Config(MAJOR))
    // A pinning-strategy value is accepted exactly when it spells a strategy, and then
    // the loaded strategy is the one it spells; otherwise the value is reported.
    ensures tool.Some? && tool.value.pinnochio.Some? && tool.value.pinnochio.value.SectionTable?
            && tool.value.pinnochio.value.pinningStrategy.Some? ==>
              var v := tool.value.pinnochio.value.pinningStrategy.value;
              (r.Ok? <==> v == "major" || v == "minor" || v == "patch") &&
              (r.Ok? ==> StrategyValue(r.value.pinningStrategy) == v) &&
              (r.Err? ==> r.error == InvalidPinningStrategy(v))
  {
    match tool
    case None => Ok(DefaultConfig())
    case Some(t) =>
      match t.pinnochio
      case None => Ok(DefaultConfig())
      case Some(NotATable) => Err(ConfigNotATable)
      case Some(SectionTable(value)) =>
        match value
        case None => Ok(Config(MAJOR))
        case Some(v) =>
          match StrategyOf(v)
          case Some(p) => Ok(Config(p))
          case None => Err(InvalidPinningStrategy(v))
  }

  /** The three spellings map to their strategies. */
  lemma LoadConfigSpellings()
    ensures LoadConfig(Some(ToolTable(Some(SectionTable(Some("major")))))) == Ok(Config(MAJOR))
    ensures LoadConfig(Some(ToolTable(Some(SectionTable(Some("minor")))))) == Ok(Config(MINOR))
    ensures LoadConfig(Some(ToolTable(Some(SectionTable(Some("patch")))))) == Ok(Config(PATCH))
    ensures LoadConfig(Some(ToolTable(Some(SectionTable(Some("invalid")))))) == Err(InvalidPinningStrategy("invalid"))
  {
  }
}
