/**
 What the walk of `readConfig` promises about the configuration it builds,
 stated against the entries of the file rather than against the loop:
 unknown names are ignored, the last write of a recognised name wins, the
 deep-linking value is decoded by token kind, and a builder made from a
 completed walk always carries the fixed install information.
 */
module ConfigProperties {
  import opened Wrappers
  import opened InAppMessaging
  import opened ConfigReader

  /** A local of the walk, as something entries can write. */
  datatype Field = StrField(k: StringKey) | FlagField | SchemeField

  datatype FieldValue = Text(text: Option<string>) | Flag(on: bool)

  function Read(f: Fields, fld: Field): FieldValue
  {
    match fld
    case StrField(k) => Text(Get(f, k))
    case FlagField => Flag(f.enableDeepLinking)
    case SchemeField => Text(f.deepLinkingCname)
  }

  /**
   Whether an entry writes a local: a string key writes its own local; the
   deep-linking key writes the flag when its token is a boolean or a string,
   and the scheme name only when it is a string.
   */
  predicate Writes(fld: Field, e: Entry)
  {
    match fld
    case StrField(k) => e.0 == KeyName(k)
    case FlagField => e.0 == DeepLinkingKey && (e.1.TBool? || e.1.TStr?)
    case SchemeField => e.0 == DeepLinkingKey && e.1.TStr?
  }

  /** The value a writing entry's token leaves in a local. */
  function Written(fld: Field, t: Token): FieldValue
  {
    match fld
    case StrField(_) => Text(NextString(t))
    case FlagField => Flag(if t.TBool? then t.b else true)
    case SchemeField => Text(if t.TStr? then Some(t.s) else None)
  }

  /** `i` is the last entry that writes `fld`. */
  predicate IsLastWrite(entries: seq<Entry>, fld: Field, i: int)
  {
    0 <= i < |entries| && Writes(fld, entries[i])
    && forall j | i < j < |entries| :: !Writes(fld, entries[j])
  }

  /** No entry writes `fld`. */
  predicate NeverWritten(entries: seq<Entry>, fld: Field)
  {
    forall i | 0 <= i < |entries| :: !Writes(fld, entries[i])
  }

  /** One iteration writes exactly the locals the entry writes, and nothing else. */
  lemma StepWrites(f: Fields, e: Entry, fld: Field)
    requires Step(f, e).Walked?
    ensures Writes(fld, e) ==> Read(Step(f, e).fields, fld) == Written(fld, e.1)
    ensures !Writes(fld, e) ==> Read(Step(f, e).fields, fld) == Read(f, fld)
  {
    if e.0 != DeepLinkingKey && StringKeyOf(e.0).Some? {
      var k := StringKeyOf(e.0).value;
      match fld
      case StrField(k') =>
        if k' != k {
          assert KeyName(k') != KeyName(k) by {
            match k case _ => match k' case _ =>
          }
        }
      case _ =>
    }
  }

  /**
   Last write wins: after a walk that did not throw, every local holds what
   the last entry writing it wrote, or its starting value when no entry
   writes it.
   */
  lemma {:induction false} LastWriteWins(f: Fields, entries: seq<Entry>, fld: Field)
    requires WalkFrom(f, entries).Walked?
    ensures NeverWritten(entries, fld) ==> Read(WalkFrom(f, entries).fields, fld) == Read(f, fld)
    ensures forall i | IsLastWrite(entries, fld, i) :: Read(WalkFrom(f, entries).fields, fld) == Written(fld, entries[i].1)
    decreases |entries|
  {
    if |entries| > 0 {
      var rest := entries[1..];
      assert Step(f, entries[0]).Walked?;
      var g := Step(f, entries[0]).fields;
      assert WalkFrom(f, entries) == WalkFrom(g, rest);
      StepWrites(f, entries[0], fld);
      LastWriteWins(g, rest, fld);
      forall i | IsLastWrite(entries, fld, i)
        ensures Read(WalkFrom(f, entries).fields, fld) == Written(fld, entries[i].1)
      {
        UnwrittenAfterShifts(entries, fld, i);
        if i > 0 {
          assert rest[i - 1] == entries[i];
          assert IsLastWrite(rest, fld, i - 1);
        }
      }
      if NeverWritten(entries, fld) {
        UnwrittenAfterShifts(entries, fld, 0);
      }
    }
  }

  /**
   No entry after index `k` writes `fld`, so no entry of the rest after the
   first one, from index `k - 1` on, writes it either.
   */
  lemma UnwrittenAfterShifts(entries: seq<Entry>, fld: Field, k: nat)
    requires 0 < |entries|
    requires forall j | k < j < |entries| :: !Writes(fld, entries[j])
    ensures forall j | k - 1 < j < |entries| - 1 :: !Writes(fld, entries[1..][j])
  {
    forall j | k - 1 < j < |entries| - 1 ensures !Writes(fld, entries[1..][j]) {
      assert entries[1..][j] == entries[j + 1];
    }
  }

  /** The entries with an unrecognised name removed. */
  function OnlyRecognised(entries: seq<Entry>): (r: seq<Entry>)
    ensures forall i | 0 <= i < |r| :: Recognised(r[i].0)
    ensures |r| <= |entries|
  {
    if |entries| == 0 then []
    else if Recognised(entries[0].0) then [entries[0]] + OnlyRecognised(entries[1..])
    else OnlyRecognised(entries[1..])
  }

  /** An entry with an unrecognised name is skipped: the locals are unchanged. */
  lemma UnknownKeySkipped(f: Fields, e: Entry)
    requires !Recognised(e.0)
    ensures Step(f, e) == Walked(f)
  {
  }

  /**
   Unknown names are irrelevant to the whole walk: it ends the same way
   (including a thrown exception) with or without them.
   */
  lemma {:induction false} UnknownKeysIgnored(f: Fields, entries: seq<Entry>)
    ensures WalkFrom(f, entries) == WalkFrom(f, OnlyRecognised(entries))
    decreases |entries|
  {
    if |entries| > 0 {
      var rest := entries[1..];
      if Recognised(entries[0].0) {
        var filtered := [entries[0]] + OnlyRecognised(rest);
        assert filtered[0] == entries[0] && filtered[1..] == OnlyRecognised(rest);
        match Step(f, entries[0])
        case Mismatch(_) =>
        case Walked(g) => UnknownKeysIgnored(g, rest);
      } else {
        UnknownKeySkipped(f, entries[0]);
        UnknownKeysIgnored(f, rest);
      }
    }
  }

  /** The locals at the end of a walk of the whole file that did not throw. */
  function Locals(asset: Asset): Fields
    requires asset.Present? && WalkFrom(Unset, asset.entries).Walked?
  {
    WalkFrom(Unset, asset.entries).fields
  }

  /** Every builder `readConfig` returns carries the fixed SDK and runtime install information. */
  lemma BuiltInstallInfo(asset: Asset)
    requires ConfigOf(asset).Built?
    ensures ConfigOf(asset).config.sdkInfo == InstallInfo(105, "3.3.0")
    ensures ConfigOf(asset).config.runtimeInfo == InstallInfo(9, "Unknown")
  {
  }

  /**
   The builder's credentials are the last ones written, passed through
   unchanged, and absent (Java `null`) when the file never names them.
   */
  lemma BuiltCredentials(asset: Asset)
    requires ConfigOf(asset).Built?
    ensures NeverWritten(asset.entries, StrField(OptimoveCredentialsField)) ==>
              ConfigOf(asset).config.optimoveCredentials == None
    ensures forall i | IsLastWrite(asset.entries, StrField(OptimoveCredentialsField), i) ::
              ConfigOf(asset).config.optimoveCredentials == NextString(asset.entries[i].1)
    ensures NeverWritten(asset.entries, StrField(OptimobileCredentialsField)) ==>
              ConfigOf(asset).config.optimobileCredentials == None
    ensures forall i | IsLastWrite(asset.entries, StrField(OptimobileCredentialsField), i) ::
              ConfigOf(asset).config.optimobileCredentials == NextString(asset.entries[i].1)
  {
    LastWriteWins(Unset, asset.entries, StrField(OptimoveCredentialsField));
    LastWriteWins(Unset, asset.entries, StrField(OptimobileCredentialsField));
  }

  /** A push icon is set exactly when the file names one, and it is the last one named. */
  lemma BuiltPushIcon(asset: Asset)
    requires ConfigOf(asset).Built?
    ensures ConfigOf(asset).config.pushIconName.Some? <==> !NeverWritten(asset.entries, StrField(PushIconField))
    ensures forall i | IsLastWrite(asset.entries, StrField(PushIconField), i) ::
              ConfigOf(asset).config.pushIconName == NextString(asset.entries[i].1)
  {
    var es := asset.entries;
    var icon := StrField(PushIconField);
    LastWriteWins(Unset, es, icon);
    if !NeverWritten(es, icon) {
      var i :| 0 <= i < |es| && Writes(icon, es[i]);
      var last := LastWriteExists(es, icon, i);
      WalkedWritesAreStrings(Unset, es, PushIconField, last);
    }
  }

  /**
   Deep linking is configured exactly when the last boolean-or-string value
   of `enableDeferredDeepLinking` turned it on, with the last string value as
   scheme name when there was one and the handler-only call otherwise.
   */
  lemma BuiltDeepLinking(asset: Asset)
    requires ConfigOf(asset).Built?
    ensures ConfigOf(asset).config.deepLinking.Some? <==>
              exists i :: IsLastWrite(asset.entries, FlagField, i) && Written(FlagField, asset.entries[i].1) == Flag(true)
    ensures ConfigOf(asset).config.deepLinking.Some? && NeverWritten(asset.entries, SchemeField) ==>
              ConfigOf(asset).config.deepLinking.value.cname == None
    ensures forall i | IsLastWrite(asset.entries, SchemeField, i) && ConfigOf(asset).config.deepLinking.Some? ::
              ConfigOf(asset).config.deepLinking.value.cname == Some(asset.entries[i].1.s)
  {
    var es := asset.entries;
    LastWriteWins(Unset, es, FlagField);
    LastWriteWins(Unset, es, SchemeField);
    if Locals(asset).enableDeepLinking {
      assert !NeverWritten(es, FlagField);
      var i :| 0 <= i < |es| && Writes(FlagField, es[i]);
      var last := LastWriteExists(es, FlagField, i);
      assert IsLastWrite(es, FlagField, last) && Written(FlagField, es[last].1) == Flag(true);
    }
  }

  /** The in-app call is decided by the last consent strategy and display mode written. */
  lemma BuiltInApp(asset: Asset)
    requires ConfigOf(asset).Built?
    ensures forall i, j | IsLastWrite(asset.entries, StrField(ConsentStrategyField), i)
                        && IsLastWrite(asset.entries, StrField(DisplayModeField), j) ::
              ConfigOf(asset).config.inApp == ConfigureInAppMessaging(NextString(asset.entries[i].1), NextString(asset.entries[j].1))
    ensures forall i | IsLastWrite(asset.entries, StrField(ConsentStrategyField), i)
                     && NeverWritten(asset.entries, StrField(DisplayModeField)) ::
              ConfigOf(asset).config.inApp == ConfigureInAppMessaging(NextString(asset.entries[i].1), None)
    ensures NeverWritten(asset.entries, StrField(ConsentStrategyField)) ==> ConfigOf(asset).config.inApp == None
  {
    LastWriteWins(Unset, asset.entries, StrField(ConsentStrategyField));
    LastWriteWins(Unset, asset.entries, StrField(DisplayModeField));
  }

  /** Some entry writes `fld`, so a last one does. */
  lemma LastWriteExists(entries: seq<Entry>, fld: Field, i: int) returns (last: int)
    requires 0 <= i < |entries| && Writes(fld, entries[i])
    ensures IsLastWrite(entries, fld, last) && i <= last
    decreases |entries| - i
  {
    if exists j :: i < j < |entries| && Writes(fld, entries[j]) {
      var j :| i < j < |entries| && Writes(fld, entries[j]);
      last := LastWriteExists(entries, fld, j);
    } else {
      last := i;
    }
  }

  /** In a walk that did not throw, every value of a string key was a string or a number. */
  lemma {:induction false} WalkedWritesAreStrings(f: Fields, entries: seq<Entry>, k: StringKey, i: int)
    requires WalkFrom(f, entries).Walked?
    requires 0 <= i < |entries| && entries[i].0 == KeyName(k)
    ensures NextString(entries[i].1).Some?
    decreases |entries|
  {
    assert Step(f, entries[0]).Walked?;
    if i == 0 {
      assert StringKeyOf(entries[0].0) == Some(k) by {
        match k case _ =>
      }
    } else {
      assert entries[1..][i - 1] == entries[i];
      WalkedWritesAreStrings(Step(f, entries[0]).fields, entries[1..], k, i - 1);
    }
  }

  /** A walk over one entry is one iteration. */
  lemma WalkOne(f: Fields, e: Entry)
    ensures WalkFrom(f, [e]) == Step(f, e)
  {
    assert [e][1..] == [];
  }

  /** A walk over two entries is two iterations. */
  lemma WalkTwo(f: Fields, e1: Entry, e2: Entry)
    ensures Step(f, e1).Walked? ==> WalkFrom(f, [e1, e2]) == Step(Step(f, e1).fields, e2)
  {
    assert [e1, e2][1..] == [e2];
    if Step(f, e1).Walked? {
      WalkOne(Step(f, e1).fields, e2);
    }
  }

  /**
   A scheme name followed by a later `false` leaves the scheme name set in
   the locals but deep linking off in the builder.
   */
  lemma SchemeThenFalse(name: string)
    ensures WalkFrom(Unset, [(DeepLinkingKey, TStr(name)), (DeepLinkingKey, TBool(false))])
            == Walked(Unset.(deepLinkingCname := Some(name)))
    ensures ConfigOf(Present([(DeepLinkingKey, TStr(name)), (DeepLinkingKey, TBool(false))], Closed)).Built?
    ensures ConfigOf(Present([(DeepLinkingKey, TStr(name)), (DeepLinkingKey, TBool(false))], Closed)).config.deepLinking == None
  {
    WalkTwo(Unset, (DeepLinkingKey, TStr(name)), (DeepLinkingKey, TBool(false)));
  }

  /** The three token kinds of the deep-linking value, each as the sole entry of a file. */
  lemma DeepLinkingByTokenKind(name: string, text: string)
    ensures ConfigOf(Present([(DeepLinkingKey, TBool(true))], Closed)) == Built(Build(Unset.(enableDeepLinking := true)))
    ensures Build(Unset.(enableDeepLinking := true)).deepLinking == Some(DeepLinkSettings(None))
    ensures ConfigOf(Present([(DeepLinkingKey, TStr(name))], Closed)) == Built(Build(Unset.(enableDeepLinking := true, deepLinkingCname := Some(name))))
    ensures Build(Unset.(enableDeepLinking := true, deepLinkingCname := Some(name))).deepLinking == Some(DeepLinkSettings(Some(name)))
    ensures ConfigOf(Present([(DeepLinkingKey, TBool(false))], Closed)) == Built(Build(Unset))
    ensures ConfigOf(Present([(DeepLinkingKey, TNum(text))], Closed)) == Built(Build(Unset))
    ensures ConfigOf(Present([(DeepLinkingKey, TOther)], Closed)) == Built(Build(Unset))
    ensures Build(Unset).deepLinking == None
  {
    WalkOne(Unset, (DeepLinkingKey, TBool(true)));
    WalkOne(Unset, (DeepLinkingKey, TBool(false)));
    WalkOne(Unset, (DeepLinkingKey, TStr(name)));
    WalkOne(Unset, (DeepLinkingKey, TNum(text)));
    WalkOne(Unset, (DeepLinkingKey, TOther));
  }

  /** Continues a walk result over further entries. */
  function Then(w: Walk, rest: seq<Entry>): Walk
  {
    match w
    case Mismatch(key) => Mismatch(key)
    case Walked(g) => WalkFrom(g, rest)
  }

  /** Walking `a + b` is walking `a` and then `b` from where `a` left the locals. */
  lemma {:induction false} WalkAppend(f: Fields, a: seq<Entry>, b: seq<Entry>)
    ensures WalkFrom(f, a + b) == Then(WalkFrom(f, a), b)
    decreases |a|
  {
    if |a| == 0 {
      assert a + b == b;
    } else {
      assert (a + b)[0] == a[0];
      assert (a + b)[1..] == a[1..] + b;
      match Step(f, a[0])
      case Mismatch(_) =>
      case Walked(g) => WalkAppend(g, a[1..], b);
    }
  }

  /** The entry a configuration file holds for an optional string value. */
  function TextEntry(name: string, value: Option<string>): seq<Entry>
  {
    if value.Some? then [(name, TStr(value.value))] else []
  }

  /** The entries that request an in-app call. */
  function InAppEntries(inApp: Option<InAppSettings>): seq<Entry>
  {
    match inApp
    case None => []
    case Some(s) =>
      [(ConsentStrategyKey, TStr(ConsentName(s.consent)))] + TextEntry(DisplayModeKey, s.display.Map(DisplayName))
  }

  /** The entries that request a deep-linking call: a scheme name as a string, the handler-only call as `true`. */
  function DeepLinkEntries(deepLinking: Option<DeepLinkSettings>): seq<Entry>
  {
    match deepLinking
    case None => []
    case Some(DeepLinkSettings(None)) => [(DeepLinkingKey, TBool(true))]
    case Some(DeepLinkSettings(Some(name))) => [(DeepLinkingKey, TStr(name))]
  }

  /** A configuration file that asks for the builder `c`. */
  function Encode(c: Config): seq<Entry>
  {
    TextEntry(OptimoveCredentialsKey, c.optimoveCredentials)
    + TextEntry(OptimobileCredentialsKey, c.optimobileCredentials)
    + TextEntry(PushIconKey, c.pushIconName)
    + InAppEntries(c.inApp)
    + DeepLinkEntries(c.deepLinking)
  }

  /** A string value written under its own key, or nothing. */
  lemma WalkTextEntry(f: Fields, k: StringKey, value: Option<string>)
    ensures WalkFrom(f, TextEntry(KeyName(k), value)) == Walked(if value.Some? then Set(f, k, value.value) else f)
  {
    if value.Some? {
      WalkOne(f, (KeyName(k), TStr(value.value)));
      assert StringKeyOf(KeyName(k)) == Some(k) by {
        match k case _ =>
      }
    }
  }

  /** The locals after the in-app entries of a builder's file. */
  function InAppLocals(f: Fields, inApp: Option<InAppSettings>): Fields
  {
    f.(inAppConsentStrategy := inApp.Map((s: InAppSettings) => ConsentName(s.consent)),
       inAppDisplayMode := if inApp.Some? then inApp.value.display.Map(DisplayName) else None)
  }

  /** The in-app entries write the two strings that decide the same in-app call again. */
  lemma WalkInAppEntries(f: Fields, inApp: Option<InAppSettings>)
    requires f.inAppConsentStrategy.None? && f.inAppDisplayMode.None?
    ensures WalkFrom(f, InAppEntries(inApp)) == Walked(InAppLocals(f, inApp))
    ensures ConfigureInAppMessaging(InAppLocals(f, inApp).inAppConsentStrategy, InAppLocals(f, inApp).inAppDisplayMode) == inApp
  {
    if inApp.Some? {
      var e := (ConsentStrategyKey, TStr(ConsentName(inApp.value.consent)));
      var g := f.(inAppConsentStrategy := Some(ConsentName(inApp.value.consent)));
      WalkOne(f, e);
      assert WalkFrom(f, [e]) == Walked(g);
      WalkTextEntry(g, DisplayModeField, inApp.value.display.Map(DisplayName));
      WalkAppend(f, [e], TextEntry(DisplayModeKey, inApp.value.display.Map(DisplayName)));
      InAppRoundTrip(inApp.value);
    }
  }

  /** The deep-linking entries set the flag and scheme name that ask for the same call again. */
  lemma WalkDeepLinkEntries(f: Fields, deepLinking: Option<DeepLinkSettings>)
    requires !f.enableDeepLinking && f.deepLinkingCname.None?
    ensures WalkFrom(f, DeepLinkEntries(deepLinking)) ==
              Walked(if deepLinking.Some? then f.(enableDeepLinking := true, deepLinkingCname := deepLinking.value.cname) else f)
  {
    if deepLinking.Some? {
      WalkOne(f, DeepLinkEntries(deepLinking)[0]);
    }
  }

  /**
   Round trip: every builder `readConfig` can return is returned for the
   file `Encode` writes for it, so the walk and the builder calls lose none
   of what a configuration file can ask for.
   */
  lemma EncodeRoundTrip(c: Config)
    requires c.sdkInfo == SdkInfo && c.runtimeInfo == RuntimeInfo
    ensures ConfigOf(Present(Encode(c), Closed)) == Built(c)
  {
    var s1 := TextEntry(OptimoveCredentialsKey, c.optimoveCredentials);
    var s2 := TextEntry(OptimobileCredentialsKey, c.optimobileCredentials);
    var s3 := TextEntry(PushIconKey, c.pushIconName);
    var s4 := InAppEntries(c.inApp);
    var s5 := DeepLinkEntries(c.deepLinking);

    var f1 := Unset.(optimoveCredentials := c.optimoveCredentials);
    WalkTextEntry(Unset, OptimoveCredentialsField, c.optimoveCredentials);

    var f2 := f1.(optimobileCredentials := c.optimobileCredentials);
    WalkTextEntry(f1, OptimobileCredentialsField, c.optimobileCredentials);
    WalkAppend(Unset, s1, s2);

    var f3 := f2.(pushIconName := c.pushIconName);
    WalkTextEntry(f2, PushIconField, c.pushIconName);
    WalkAppend(Unset, s1 + s2, s3);

    var f4 := InAppLocals(f3, c.inApp);
    WalkInAppEntries(f3, c.inApp);
    WalkAppend(Unset, s1 + s2 + s3, s4);

    var f5 := if c.deepLinking.Some?
      then f4.(enableDeepLinking := true, deepLinkingCname := c.deepLinking.value.cname)
      else f4;
    WalkDeepLinkEntries(f4, c.deepLinking);
    WalkAppend(Unset, s1 + s2 + s3 + s4, s5);
    assert WalkFrom(Unset, Encode(c)) == Walked(f5);
  }
}
