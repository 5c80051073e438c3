/** The validated settings of app/config.py (`MonitorSettings`): the
    defaults and the validators applied to values that come from the
    environment. Reading the environment and the `.env` file is not
    modelled: each setting is given as present or absent. */
module Config {
  import opened Wrappers
  import opened Text

  const DefaultCountFile: string := "count.txt"
  const DefaultPayloadFile: string := "data/payload.json"
  const DefaultPollInterval: int := 60
  const MinPollInterval: int := 10
  const DefaultLocationName: string := "Stellenbosch"
  const DefaultLogLevel: string := "INFO"

  /** `Path(text)`, kept as the text it was built from. */
  datatype FsPath = FsPath(text: string)

  /** What a path validator may be handed. */
  datatype PathInput = NoValue | PathValue(path: FsPath) | TextValue(text: string)

  /** `_coerce_path_value(value, default)`: `None` gives the default, a
      `Path` is kept, and text is stripped, blank text giving the default. */
  function CoercePathValue(value: PathInput, default: string): (r: FsPath)
    ensures value.PathValue? ==> r == value.path
    ensures value.NoValue? ==> r == FsPath(default)
    // Text yields the default exactly when nothing but white space was
    // given, and its stripped form otherwise.
    ensures value.TextValue? && Strip(value.text) == "" ==> r == FsPath(default)
    ensures value.TextValue? && Strip(value.text) != "" ==> r.text == Strip(value.text)
  {
    match value
    case NoValue => FsPath(default)
    case PathValue(p) => p
    case TextValue(s) =>
      var stripped := Strip(s);
      if stripped != "" then FsPath(stripped) else FsPath(default)
  }

  /** Coercing the text of a path coerced from text (or from nothing) gives
      the same path back when the default has no surrounding white space. */
  lemma CoercePathIdempotent(value: PathInput, default: string)
    requires !value.PathValue?
    requires Strip(default) == default
    ensures
      var p := CoercePathValue(value, default);
      CoercePathValue(TextValue(p.text), default) == p
  {
    var p := CoercePathValue(value, default);
    if value.TextValue? && Strip(value.text) != "" {
      TrimKeptEnds(p.text, IsSpace);
    }
  }

  /** `_enforce_poll_interval(value)`: intervals below the minimum are
      raised to it. */
  function EnforcePollInterval(value: int): (r: int)
    ensures r >= MinPollInterval
    ensures r >= value
    ensures r == value || r == MinPollInterval
    ensures value >= MinPollInterval ==> r == value
  {
    if value < MinPollInterval then MinPollInterval else value
  }

  /** `_normalise_log_level(value)`: `value.upper()`. */
  function NormaliseLogLevel(value: string): (r: string)
    ensures |r| == |value|
    ensures forall i :: 0 <= i < |r| ==> !IsAsciiLower(r[i])
    ensures forall i :: 0 <= i < |r| ==> !IsAsciiLower(value[i]) ==> r[i] == value[i]
    // Each ASCII lower-case letter becomes its own capital.
    ensures forall i :: 0 <= i < |r| ==> IsAsciiLower(value[i]) ==> r[i] as int == value[i] as int - 32
  {
    Upper(value)
  }

  /** Normalising twice is normalising once. */
  lemma NormaliseLogLevelIdempotent(value: string)
    ensures NormaliseLogLevel(NormaliseLogLevel(value)) == NormaliseLogLevel(value)
  {
  }

  /** Enforcing twice is enforcing once, and larger intervals stay larger. */
  lemma EnforcePollIntervalLaws(a: int, b: int)
    ensures EnforcePollInterval(EnforcePollInterval(a)) == EnforcePollInterval(a)
    ensures a <= b ==> EnforcePollInterval(a) <= EnforcePollInterval(b)
  {
  }

  /** The settings the monitors read. */
  datatype MonitorSettings = MonitorSettings(
    token: string,
    chatId: string,
    countFile: FsPath,
    payloadFile: FsPath,
    pollInterval: int,
    locationName: string,
    runOnce: bool,
    logLevel: string)

  /** The settings built from the values found: an absent value takes the
      field's default, which is not validated; a present one goes through
      its validator. */
  function BuildSettings(
    token: string,
    chatId: string,
    countFile: Option<PathInput>,
    payloadFile: Option<PathInput>,
    pollInterval: Option<int>,
    locationName: Option<string>,
    runOnce: Option<bool>,
    logLevel: Option<string>): (s: MonitorSettings)
    ensures s.pollInterval >= MinPollInterval
    ensures forall i :: 0 <= i < |s.logLevel| ==> !IsAsciiLower(s.logLevel[i])
    ensures countFile.None? ==> s.countFile == FsPath(DefaultCountFile)
    ensures countFile.Some? ==> s.countFile == CoercePathValue(countFile.value, DefaultCountFile)
    ensures payloadFile.None? ==> s.payloadFile == FsPath(DefaultPayloadFile)
    ensures payloadFile.Some? ==> s.payloadFile == CoercePathValue(payloadFile.value, DefaultPayloadFile)
    ensures pollInterval.None? ==> s.pollInterval == DefaultPollInterval
    ensures pollInterval.Some? ==> s.pollInterval == EnforcePollInterval(pollInterval.value)
    ensures locationName.Some? ==> s.locationName == locationName.value
    ensures locationName.None? ==> s.locationName == DefaultLocationName
    ensures runOnce.None? ==> !s.runOnce
    ensures runOnce.Some? ==> s.runOnce == runOnce.value
    ensures logLevel.None? ==> s.logLevel == DefaultLogLevel
    ensures logLevel.Some? ==> s.logLevel == NormaliseLogLevel(logLevel.value)
    ensures s.token == token && s.chatId == chatId
  {
    MonitorSettings(
      token,
      chatId,
      if countFile.Some? then CoercePathValue(countFile.value, DefaultCountFile) else FsPath(DefaultCountFile),
      if payloadFile.Some? then CoercePathValue(payloadFile.value, DefaultPayloadFile) else FsPath(DefaultPayloadFile),
      if pollInterval.Some? then EnforcePollInterval(pollInterval.value) else DefaultPollInterval,
      locationName.GetOr(DefaultLocationName),
      runOnce.GetOr(false),
      if logLevel.Some? then NormaliseLogLevel(logLevel.value) else DefaultLogLevel)
  }

  /** With nothing set but the credentials, every field has its default. */
  lemma AllDefaults(token: string, chatId: string)
    ensures BuildSettings(token, chatId, None, None, None, None, None, None) ==
      MonitorSettings(token, chatId, FsPath("count.txt"), FsPath("data/payload.json"),
                      60, "Stellenbosch", false, "INFO")
  {
  }

  /** A path given as visible ASCII text is kept as it is. */
  lemma CoerceVisibleText(text: string, default: string)
    requires text != ""
    requires forall i :: 0 <= i < |text| ==> '!' <= text[i] <= '~'
    ensures CoercePathValue(TextValue(text), default) == FsPath(text)
  {
    assert IsStripped(text);
    StripOfStripped(text);
  }

  /** The default paths pass their validator unchanged, so skipping the
      validation of defaults makes no difference to them. */
  lemma DefaultCountFileIsValid()
    ensures CoercePathValue(TextValue(DefaultCountFile), DefaultCountFile) == FsPath(DefaultCountFile)
  {
    CoerceVisibleText(DefaultCountFile, DefaultCountFile);
  }

  lemma DefaultPayloadFileIsValid()
    ensures CoercePathValue(TextValue(DefaultPayloadFile), DefaultPayloadFile) == FsPath(DefaultPayloadFile)
  {
    CoerceVisibleText(DefaultPayloadFile, DefaultPayloadFile);
  }

  /** Nor to the default interval and level. */
  lemma DefaultsAreValid()
    ensures EnforcePollInterval(DefaultPollInterval) == DefaultPollInterval
    ensures NormaliseLogLevel(DefaultLogLevel) == DefaultLogLevel
  {
    assert Upper(DefaultLogLevel) == DefaultLogLevel;
  }

  /** The examples of the log levels: case does not matter. */
  lemma LogLevelExamples()
    ensures NormaliseLogLevel("debug") == "DEBUG"
    ensures NormaliseLogLevel("Warning") == "WARNING"
  {
  }
}
