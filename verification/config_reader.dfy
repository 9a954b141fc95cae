/**
 `readConfig` of the init provider: a walk over the flat JSON object of the
 bundled configuration file, key by key, into seven local values, followed by
 the builder calls those values decide.

 The JSON text itself is not parsed here: the input is the sequence of
 (name, token) pairs the reader delivers, in file order, together with how the
 walk ended (the closing brace, or an I/O error such as malformed syntax).
 */
module ConfigReader {
  import opened Wrappers
  import opened InAppMessaging

  const OptimoveCredentialsKey: string := "optimoveCredentials"
  const OptimobileCredentialsKey: string := "optimobileCredentials"
  const PushIconKey: string := "pushAndroidIconResource"
  const ConsentStrategyKey: string := "inAppConsentStrategy"
  const DisplayModeKey: string := "inAppDisplayMode"
  const DeepLinkingKey: string := "enableDeferredDeepLinking"

  const SdkType: int := 105
  const SdkVersion: string := "3.3.0"
  const RuntimeType: int := 9
  const RuntimeVersion: string := "Unknown"

  /** The kind of the value token following a name, as the JSON reader peeks it. */
  datatype Token =
    | TBool(b: bool)
    | TStr(s: string)
    | TNum(text: string)   // a number; the reader hands out its literal text as a string
    | TOther               // null, an array or a nested object

  type Entry = (string, Token)

  /** How the walk over the object stopped: at its end, or with an I/O error. */
  datatype Ending = Closed | IoFailure

  /**
   The bundled asset: absent; a document whose top-level value is an array,
   on which `beginObject` throws; or the entries read from an object before
   the walk stopped and how it stopped. The strict reader rejects any other
   top-level value with an I/O error before the first entry, which is
   `Present([], IoFailure)`.
   */
  datatype Asset = Missing | NonObject | Present(entries: seq<Entry>, ending: Ending)

  /** The seven locals of the walk. */
  datatype Fields = Fields(
    optimoveCredentials: Option<string>,
    optimobileCredentials: Option<string>,
    inAppConsentStrategy: Option<string>,
    pushIconName: Option<string>,
    enableDeepLinking: bool,
    deepLinkingCname: Option<string>,
    inAppDisplayMode: Option<string>)

  /** The locals before the first key. */
  const Unset: Fields := Fields(None, None, None, None, false, None, None)

  /** The five keys whose value is read with `nextString`. */
  datatype StringKey =
    | OptimoveCredentialsField
    | OptimobileCredentialsField
    | PushIconField
    | ConsentStrategyField
    | DisplayModeField

  function KeyName(k: StringKey): string
  {
    match k
    case OptimoveCredentialsField => OptimoveCredentialsKey
    case OptimobileCredentialsField => OptimobileCredentialsKey
    case PushIconField => PushIconKey
    case ConsentStrategyField => ConsentStrategyKey
    case DisplayModeField => DisplayModeKey
  }

  function Get(f: Fields, k: StringKey): Option<string>
  {
    match k
    case OptimoveCredentialsField => f.optimoveCredentials
    case OptimobileCredentialsField => f.optimobileCredentials
    case PushIconField => f.pushIconName
    case ConsentStrategyField => f.inAppConsentStrategy
    case DisplayModeField => f.inAppDisplayMode
  }

  function Set(f: Fields, k: StringKey, s: string): Fields
  {
    match k
    case OptimoveCredentialsField => f.(optimoveCredentials := Some(s))
    case OptimobileCredentialsField => f.(optimobileCredentials := Some(s))
    case PushIconField => f.(pushIconName := Some(s))
    case ConsentStrategyField => f.(inAppConsentStrategy := Some(s))
    case DisplayModeField => f.(inAppDisplayMode := Some(s))
  }

  /** The string key a name denotes, if any. */
  function StringKeyOf(name: string): (r: Option<StringKey>)
    ensures r.Some? ==> KeyName(r.value) == name
    ensures r.None? ==> forall k: StringKey :: KeyName(k) != name
  {
    if name == OptimoveCredentialsKey then Some(OptimoveCredentialsField)
    else if name == OptimobileCredentialsKey then Some(OptimobileCredentialsField)
    else if name == PushIconKey then Some(PushIconField)
    else if name == ConsentStrategyKey then Some(ConsentStrategyField)
    else if name == DisplayModeKey then Some(DisplayModeField)
    else None
  }

  /** The six names the walk acts on; every other name is skipped. */
  predicate Recognised(name: string)
  {
    name == DeepLinkingKey || StringKeyOf(name).Some?
  }

  /**
   The reader's `nextString`: the text of a string or number token. On any
   other token it throws an `IllegalStateException`, shown here as `None`.
   */
  function NextString(t: Token): Option<string>
  {
    match t
    case TStr(s) => Some(s)
    case TNum(text) => Some(text)
    case _ => None
  }

  /**
   The value of `enableDeferredDeepLinking`, decoded by token kind: a boolean
   is the flag, a string turns the flag on and names the scheme, anything else
   is skipped.
   */
  function DecodeDeepLinking(f: Fields, t: Token): (g: Fields)
    ensures t.TBool? ==> g.enableDeepLinking == t.b && g.deepLinkingCname == f.deepLinkingCname
    ensures t.TStr? ==> g.enableDeepLinking && g.deepLinkingCname == Some(t.s)
    ensures !t.TBool? && !t.TStr? ==> g == f
    ensures g.(enableDeepLinking := f.enableDeepLinking, deepLinkingCname := f.deepLinkingCname) == f
  {
    match t
    case TBool(b) => f.(enableDeepLinking := b)
    case TStr(s) => f.(enableDeepLinking := true, deepLinkingCname := Some(s))
    case _ => f
  }

  /**
   The result of walking entries: the locals, or the name whose value made
   `nextString` throw (the exception is not caught by the walk).
   */
  datatype Walk = Walked(fields: Fields) | Mismatch(key: string)

  /** One iteration of the `while (reader.hasNext())` loop. */
  function Step(f: Fields, e: Entry): Walk
  {
    if e.0 == DeepLinkingKey then Walked(DecodeDeepLinking(f, e.1))
    else
      match StringKeyOf(e.0)
      case None => Walked(f)
      case Some(k) =>
        match NextString(e.1)
        case None => Mismatch(e.0)
        case Some(s) => Walked(Set(f, k, s))
  }

  /** The whole loop, from locals `f`, over `entries` in file order. */
  function WalkFrom(f: Fields, entries: seq<Entry>): Walk
    decreases |entries|
  {
    if |entries| == 0 then Walked(f)
    else
      match Step(f, entries[0])
      case Mismatch(key) => Mismatch(key)
      case Walked(g) => WalkFrom(g, entries[1..])
  }

  /** A `configureDeepLinking` call: with a scheme name, or the handler-only overload. */
  datatype DeepLinkSettings = DeepLinkSettings(cname: Option<string>)

  /** The `{id, version}` object passed to `setSdkInfo` or `setRuntimeInfo`. */
  datatype InstallInfo = InstallInfo(id: int, version: string)

  const SdkInfo: InstallInfo := InstallInfo(SdkType, SdkVersion)
  const RuntimeInfo: InstallInfo := InstallInfo(RuntimeType, RuntimeVersion)

  /**
   The builder `readConfig` returns, as the calls made on it: the two
   credentials of its constructor, at most one in-app call, at most one
   deep-linking call, the push icon's resource name when one was set, and the
   two install-info objects.
   */
  datatype Config = Config(
    optimoveCredentials: Option<string>,
    optimobileCredentials: Option<string>,
    inApp: Option<InAppSettings>,
    deepLinking: Option<DeepLinkSettings>,
    pushIconName: Option<string>,
    sdkInfo: InstallInfo,
    runtimeInfo: InstallInfo)

  /** The builder calls made after a completed walk. */
  function Build(f: Fields): Config
  {
    Config(
      f.optimoveCredentials,
      f.optimobileCredentials,
      ConfigureInAppMessaging(f.inAppConsentStrategy, f.inAppDisplayMode),
      if f.enableDeepLinking then Some(DeepLinkSettings(f.deepLinkingCname)) else None,
      f.pushIconName,
      SdkInfo,
      RuntimeInfo)
  }

  /**
   An `IllegalStateException` from the reader, which neither `readConfig`
   nor `onCreate` catches: `beginObject` on a top-level value that is not an
   object, or `nextString` on the value of the named key.
   */
  datatype Throw = BeginObjectFailed | TypeMismatch(key: string)

  /**
   What `readConfig` does: `NoConfig` is its `null` return (missing asset, or
   an I/O error during the walk), `Thrown` an exception that escapes it.
   */
  datatype ReadOutcome = NoConfig | Built(config: Config) | Thrown(cause: Throw)

  /** `readConfig` as a function of the asset. */
  function ConfigOf(asset: Asset): (r: ReadOutcome)
    ensures asset.Missing? ==> r == NoConfig
    ensures r.Built? <==> asset.Present? && asset.ending.Closed? && WalkFrom(Unset, asset.entries).Walked?
    ensures r.Built? ==> r.config == Build(WalkFrom(Unset, asset.entries).fields)
    ensures r.Thrown? <==> asset.NonObject? || (asset.Present? && WalkFrom(Unset, asset.entries).Mismatch?)
    ensures asset.NonObject? ==> r == Thrown(BeginObjectFailed)
  {
    match asset
    case Missing => NoConfig
    case NonObject => Thrown(BeginObjectFailed)
    case Present(entries, ending) =>
      match WalkFrom(Unset, entries)
      case Mismatch(key) => Thrown(TypeMismatch(key))
      case Walked(f) => if ending.IoFailure? then NoConfig else Built(Build(f))
  }

  /** `readConfig` with the source's loop. */
  method ReadConfig(asset: Asset) returns (r: ReadOutcome)
    ensures r == ConfigOf(asset)
  {
    if asset.Missing? {
      return NoConfig;
    }
    if asset.NonObject? {
      return Thrown(BeginObjectFailed);
    }
    var entries := asset.entries;
    var fields := Unset;
    var i := 0;
    while i < |entries|
      invariant 0 <= i <= |entries|
      invariant WalkFrom(Unset, entries) == WalkFrom(fields, entries[i..])
    {
      var (name, token) := entries[i];
      if name == DeepLinkingKey {
        match token {
          case TBool(b) => fields := fields.(enableDeepLinking := b);
          case TStr(s) => fields := fields.(enableDeepLinking := true, deepLinkingCname := Some(s));
          case _ =>
        }
      } else {
        var key := StringKeyOf(name);
        if key.Some? {
          var value := NextString(token);
          if value.None? {
            return Thrown(TypeMismatch(name));
          }
          fields := Set(fields, key.value, value.value);
        }
      }
      assert entries[i..][1..] == entries[i + 1..];
      i := i + 1;
    }
    if asset.ending.IoFailure? {
      return NoConfig;
    }
    r := Built(Build(fields));
  }
}
