/**
 * The bot's settings as loaded from the environment, the start-up
 * validation that rejects an unusable configuration, and the choice of
 * reply language named in the prompt.
 */
module Config {
  import opened Wrappers

  /**
   * Settings after loading: the four credentials/identifiers are `None`
   * when the environment variable is unset; `language`, `isWait` and
   * `myDemand` have already been lower-cased by the loader and the numbers
   * already parsed.
   */
  datatype Settings = Settings(
    token: Option<string>,
    channelId: Option<string>,
    language: string,
    gptKey: Option<string>,
    maxSleep: int,
    minSleep: int,
    dcId: Option<string>,
    isWait: string,
    myDemand: string,
    maxLoop: int,
    isWaitTime: int)

  /** The four reasons start-up validation gives, in the order it checks them. */
  datatype ConfigError =
    | MissingRequired     // a credential or identifier is unset or empty
    | SleepRangeInverted  // the maximum sleep is below the minimum
    | InvalidIsWait       // the wait flag is neither `yes` nor `no`
    | InvalidLanguage     // the language is neither `english` nor `chinese`

  /** Python truthiness of an optional string: set and non-empty. */
  predicate Truthy(v: Option<string>)
  {
    v.Some? && v.value != ""
  }

  /** Whether setting `s` breaks the rule that error `e` reports. */
  predicate Violates(s: Settings, e: ConfigError)
  {
    match e
    case MissingRequired =>
      !(Truthy(s.token) && Truthy(s.channelId) && Truthy(s.gptKey) && Truthy(s.dcId))
    case SleepRangeInverted => s.maxSleep < s.minSleep
    case InvalidIsWait => s.isWait != "yes" && s.isWait != "no"
    case InvalidLanguage => s.language != "english" && s.language != "chinese"
  }

  /** Position of each check in the validator. */
  function Rank(e: ConfigError): nat
  {
    match e
    case MissingRequired => 0
    case SleepRangeInverted => 1
    case InvalidIsWait => 2
    case InvalidLanguage => 3
  }

  /**
   * Start-up validation: `None` when the settings are usable, otherwise the
   * error of the first failing check. An accepted configuration has all four
   * credentials, a non-empty sleep interval, a known wait flag and a known
   * language; a rejected one names a rule it breaks, and every rule checked
   * before that one holds.
   */
  function ValidateConfig(s: Settings): (r: Option<ConfigError>)
    ensures r.None? <==>
      && Truthy(s.token) && Truthy(s.channelId) && Truthy(s.gptKey) && Truthy(s.dcId)
      && s.minSleep <= s.maxSleep
      && (s.isWait == "yes" || s.isWait == "no")
      && (s.language == "english" || s.language == "chinese")
    ensures r.Some? ==> Violates(s, r.value)
    ensures r.Some? ==> forall e :: Rank(e) < Rank(r.value) ==> !Violates(s, e)
  {
    if !(Truthy(s.token) && Truthy(s.channelId) && Truthy(s.gptKey) && Truthy(s.dcId)) then
      Some(MissingRequired)
    else if s.maxSleep < s.minSleep then
      Some(SleepRangeInverted)
    else if !(s.isWait == "yes" || s.isWait == "no") then
      Some(InvalidIsWait)
    else if !(s.language == "english" || s.language == "chinese") then
      Some(InvalidLanguage)
    else
      None
  }

  /** Settings that passed start-up validation. */
  predicate Valid(s: Settings)
  {
    ValidateConfig(s).None?
  }

  /**
   * On a validated configuration the interval the random sleep between posts
   * is drawn from is never empty.
   */
  lemma SleepRangeOfValid(s: Settings)
    requires Valid(s)
    ensures s.minSleep <= s.maxSleep
  {
  }

  const English: string := "英文"
  const Chinese: string := "中文"

  /**
   * The language name written into the prompt: English exactly when the
   * configured language is `english`, Chinese for everything else.
   */
  function ChatLanguage(language: string): (r: string)
    ensures r == English <==> language == "english"
    ensures r == English || r == Chinese
  {
    if language == "english" then English else Chinese
  }
}
