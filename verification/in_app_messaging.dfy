/**
 The in-app messaging decision of the init provider: two optional strings read
 from the configuration file (a consent strategy and a display mode) decide
 whether the SDK builder's `enableInAppMessaging` is called, and with which
 overload.
 */
module InAppMessaging {
  import opened Wrappers

  const AutoEnrollName: string := "auto-enroll"
  const ExplicitByUserName: string := "explicit-by-user"
  const AutomaticName: string := "automatic"
  const PausedName: string := "paused"

  datatype ConsentStrategy = AutoEnroll | ExplicitByUser

  datatype DisplayMode = Automatic | Paused

  /**
   One `enableInAppMessaging` call on the builder: `display == None` is the
   one-argument overload (the SDK's default display behaviour), `Some(d)` the
   overload that takes an explicit display mode.
   */
  datatype InAppSettings = InAppSettings(consent: ConsentStrategy, display: Option<DisplayMode>)

  /** The configuration-file spelling of a consent strategy. */
  function ConsentName(c: ConsentStrategy): string
  {
    match c
    case AutoEnroll => AutoEnrollName
    case ExplicitByUser => ExplicitByUserName
  }

  /** The configuration-file spelling of a display mode. */
  function DisplayName(d: DisplayMode): string
  {
    match d
    case Automatic => AutomaticName
    case Paused => PausedName
  }

  /** Exact, case-sensitive recognition of a consent strategy; `null` is not recognised. */
  function ParseConsent(s: Option<string>): (r: Option<ConsentStrategy>)
    ensures r.Some? <==> s == Some(AutoEnrollName) || s == Some(ExplicitByUserName)
    ensures r.Some? ==> s == Some(ConsentName(r.value))
  {
    if s == Some(AutoEnrollName) then Some(AutoEnroll)
    else if s == Some(ExplicitByUserName) then Some(ExplicitByUser)
    else None
  }

  /** Exact, case-sensitive recognition of a (present) display mode string. */
  function ParseDisplay(s: string): (r: Option<DisplayMode>)
    ensures r.Some? <==> s == AutomaticName || s == PausedName
    ensures r.Some? ==> s == DisplayName(r.value)
  {
    if s == AutomaticName then Some(Automatic)
    else if s == PausedName then Some(Paused)
    else None
  }

  /** A consent strategy the builder accepts. */
  predicate RecognisedConsent(s: Option<string>)
  {
    s == Some(AutoEnrollName) || s == Some(ExplicitByUserName)
  }

  /** A display mode that does not stop the enable call: absent, or one of the two names. */
  predicate AdmissibleDisplay(s: Option<string>)
  {
    s == None || s == Some(AutomaticName) || s == Some(PausedName)
  }

  /**
   The builder call made for a consent strategy and a display mode, or `None`
   when no call is made: an unrecognised (or absent) consent strategy, and also
   a recognised one with a present but unrecognised display mode.
   */
  function ConfigureInAppMessaging(consentStrategy: Option<string>, displayMode: Option<string>): (r: Option<InAppSettings>)
    ensures r.Some? <==> RecognisedConsent(consentStrategy) && AdmissibleDisplay(displayMode)
    ensures r.Some? ==> consentStrategy == Some(ConsentName(r.value.consent))
    ensures r.Some? ==> displayMode == r.value.display.Map(DisplayName)
  {
    match ParseConsent(consentStrategy)
    case None => None
    case Some(consent) =>
      if displayMode.None? then Some(InAppSettings(consent, None))
      else
        match ParseDisplay(displayMode.value)
        case None => None
        case Some(display) => Some(InAppSettings(consent, Some(display)))
  }

  /**
   Every builder call is reachable from exactly the strings that name it: the
   configuration spelling of a setting decodes back to that setting.
   */
  lemma InAppRoundTrip(s: InAppSettings)
    ensures ConfigureInAppMessaging(Some(ConsentName(s.consent)), s.display.Map(DisplayName)) == Some(s)
  {
  }

  /**
   The decision is injective on the calls it makes: two string pairs that lead
   to the same builder call are the same pair.
   */
  lemma InAppDecisionInjective(c1: Option<string>, d1: Option<string>, c2: Option<string>, d2: Option<string>)
    requires ConfigureInAppMessaging(c1, d1).Some?
    requires ConfigureInAppMessaging(c1, d1) == ConfigureInAppMessaging(c2, d2)
    ensures c1 == c2 && d1 == d2
  {
  }
}
