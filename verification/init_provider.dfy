/**
 `onCreate` of the init provider: read the bundled configuration, and when a
 builder comes back, initialise the SDK with it and register the callback
 listeners. The SDK itself is not modelled; what it answers to
 `isOptimobileConfigured()` is a parameter.
 */
module InitProvider {
  import opened Wrappers
  import opened ConfigReader

  /** The SDK callbacks `setAdditionalListeners` registers. */
  datatype Listener = PushOpened | InboxUpdatedListener | DeepLinkPressedListener

  /**
   The end of `onCreate`: initialisation skipped (it returns `true`), the SDK
   initialised with a configuration and the listeners registered (it returns
   `true`), or an exception from the reader that escapes `onCreate`.
   */
  datatype Startup = Skipped | Initialized(config: Config, listeners: set<Listener>) | Crashed(cause: Throw)

  /**
   The listeners registered after initialisation: the push-open handler
   always, the inbox and in-app deep-link listeners only when the SDK reports
   optimobile as configured.
   */
  function AdditionalListeners(optimobileConfigured: bool): (r: set<Listener>)
    ensures PushOpened in r
    ensures InboxUpdatedListener in r <==> optimobileConfigured
    ensures DeepLinkPressedListener in r <==> optimobileConfigured
    ensures |r| == if optimobileConfigured then 3 else 1
  {
    if optimobileConfigured then {PushOpened, InboxUpdatedListener, DeepLinkPressedListener}
    else {PushOpened}
  }

  /** `onCreate`, given the asset and the SDK's answer to `isOptimobileConfigured()`. */
  function OnCreate(asset: Asset, isOptimobileConfigured: Config -> bool): (s: Startup)
    ensures s.Initialized? <==> ConfigOf(asset).Built?
    ensures s.Initialized? ==> s.config == ConfigOf(asset).config
    ensures s.Initialized? ==> s.listeners == AdditionalListeners(isOptimobileConfigured(s.config))
    ensures s.Skipped? <==> ConfigOf(asset) == NoConfig
    ensures s.Crashed? <==> ConfigOf(asset).Thrown?
    ensures s.Crashed? ==> s.cause == ConfigOf(asset).cause
  {
    match ConfigOf(asset)
    case NoConfig => Skipped
    case Thrown(cause) => Crashed(cause)
    case Built(config) => Initialized(config, AdditionalListeners(isOptimobileConfigured(config)))
  }

  /**
   The failure paths never initialise with a partial configuration: a
   missing asset skips initialisation, a top-level array makes `onCreate`
   throw, and an I/O error during the walk skips initialisation unless a
   type mismatch before the error has already thrown.
   */
  lemma FailurePathsSkip(entries: seq<Entry>, isOptimobileConfigured: Config -> bool)
    ensures OnCreate(Missing, isOptimobileConfigured) == Skipped
    ensures OnCreate(NonObject, isOptimobileConfigured) == Crashed(BeginObjectFailed)
    ensures OnCreate(Present(entries, IoFailure), isOptimobileConfigured).Skipped?
            || OnCreate(Present(entries, IoFailure), isOptimobileConfigured).Crashed?
    ensures WalkFrom(Unset, entries).Walked? ==> OnCreate(Present(entries, IoFailure), isOptimobileConfigured) == Skipped
  {
  }
}
