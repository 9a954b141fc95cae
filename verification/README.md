# Optimove Flutter init provider — Dafny model

This project models the configuration and event logic of the Android
`OptimoveInitProvider` of the Optimove Flutter SDK. At process start this
content provider reads the bundled `optimove.json`, turns it into an
`OptimoveConfig.Builder`, initialises the native Optimove SDK, and connects
the SDK's callbacks to the Flutter event sinks.

The model covers three parts:

- **The configuration walk** (`ConfigReader`, `config_reader.dfy`). The JSON
  object arrives as the (name, token) pairs the reader delivers, plus how the
  walk ended (the closing brace or an I/O error). The walk folds these pairs
  into the seven locals of `readConfig`:
  - the five string keys are read with `nextString`;
  - `enableDeferredDeepLinking` is decoded by token kind;
  - every other name is skipped.
  The builder calls then follow from the locals: the constructor
  credentials, the in-app call, the deep-linking call, the push icon, and the
  install info. `ReadConfig` is the source's loop, proved equal to the
  functional `ConfigOf`.
- **The in-app decision table** (`InAppMessaging`, `in_app_messaging.dfy`).
- **The callback envelopes** (`Events`, `events.dfy`) and the `onCreate`
  composition with listener gating (`InitProvider`, `init_provider.dfy`).

`ConfigProperties` (`config_properties.dfy`) states the walk's promises
against the file's entries:
- last write wins;
- unknown names are irrelevant;
- a builder made from a completed walk has a known shape field by field;
- encoding a builder as a file and reading it back returns the same builder.

## Behaviour worth noting

- A recognised consent strategy with a present but unrecognised display mode
  makes no `enableInAppMessaging` call (lines 215-217).
- The inbox envelope holds only `type` (lines 232-234).
- The inbox and in-app deep-link listeners are registered only when the SDK's
  `isOptimobileConfigured()` holds (lines 226-228). That answer is a
  parameter of `OnCreate`.
- The reader throws an `IllegalStateException` in two places, and neither
  `readConfig` nor `onCreate` catches it, so `onCreate` throws:
  - `beginObject` on a document whose top-level value is an array (line 137);
  - `nextString` on a string key whose value is a boolean, `null`, an array or
    an object (lines 142-154).
  The model records both as `Thrown` / `Crashed`. A number is accepted by
  `nextString`, as its literal text.

## Model

| member | source | states |
|---|---|---|
| InAppMessaging.ParseConsent | android/src/main/java/com/optimove/flutter/OptimoveInitProvider.java:198-204 | a consent strategy is recognised exactly when the string is `auto-enroll` or `explicit-by-user`; `null` and every other string are not, and a recognised one is spelled by its strategy's name |
| InAppMessaging.ParseDisplay | android/src/main/java/com/optimove/flutter/OptimoveInitProvider.java:211-217 | a display mode is recognised exactly when the string is `automatic` or `paused`, and it is spelled by its mode's name |
| InAppMessaging.ConfigureInAppMessaging | android/src/main/java/com/optimove/flutter/OptimoveInitProvider.java:194-220 | an in-app call is made iff the consent strategy is recognised and the display mode is absent or recognised (so a recognised consent with an unknown display mode makes no call); the call's consent and display match the strings, with the default-display overload exactly when no display mode was given |
| InAppMessaging.InAppRoundTrip | android/src/main/java/com/optimove/flutter/OptimoveInitProvider.java:194-220 | each possible in-app call is produced by the configuration spelling of its own consent and display mode |
| InAppMessaging.InAppDecisionInjective | android/src/main/java/com/optimove/flutter/OptimoveInitProvider.java:194-220 | two (consent, display) string pairs that lead to the same in-app call are the same pair |
| ConfigReader.StringKeyOf | android/src/main/java/com/optimove/flutter/OptimoveInitProvider.java:140-155 | a name selects a string-valued local exactly when it is one of the five key constants, and then the one it spells |
| ConfigReader.DecodeDeepLinking | android/src/main/java/com/optimove/flutter/OptimoveInitProvider.java:156-166 | a boolean token sets the enable flag to its value and keeps the scheme name; a string token turns the flag on and makes the string the scheme name; any other token changes nothing; no other local is ever touched |
| ConfigReader.ConfigOf | android/src/main/java/com/optimove/flutter/OptimoveInitProvider.java:122-192 | a missing asset gives no configuration; a top-level array throws from `beginObject`; a builder comes back iff the asset is present, the walk did not throw and ended at the closing brace (an I/O error never yields a partial builder); the walk's thrown exception escapes |
| ConfigReader.ReadConfig | android/src/main/java/com/optimove/flutter/OptimoveInitProvider.java:122-192 | the source's loop over the entries computes the same outcome as the fold `ConfigOf` |
| ConfigProperties.StepWrites | android/src/main/java/com/optimove/flutter/OptimoveInitProvider.java:140-170 | one iteration of the walk (`ConfigReader.Step`) writes the local its entry names (for `enableDeferredDeepLinking`: the flag on a boolean or string token, the scheme name only on a string token) and leaves every other local unchanged |
| ConfigProperties.LastWriteWins | android/src/main/java/com/optimove/flutter/OptimoveInitProvider.java:138-171 | after a walk (`ConfigReader.WalkFrom`) that did not throw, each local holds what the last entry writing it wrote, or its initial value when no entry writes it |
| ConfigProperties.UnknownKeySkipped | android/src/main/java/com/optimove/flutter/OptimoveInitProvider.java:167-169 | an entry whose name is not one of the six keys leaves the locals unchanged |
| ConfigProperties.UnknownKeysIgnored | android/src/main/java/com/optimove/flutter/OptimoveInitProvider.java:138-171 | removing every unknown-name entry from a file does not change the walk (`ConfigReader.WalkFrom`)'s outcome, thrown exceptions included |
| ConfigProperties.WalkedWritesAreStrings | android/src/main/java/com/optimove/flutter/OptimoveInitProvider.java:141-155 | in a walk that did not throw, every value given to a string key was a string or number token |
| ConfigProperties.BuiltInstallInfo | android/src/main/java/com/optimove/flutter/OptimoveInitProvider.java:266-281 | every builder returned (`ConfigReader.Build` after a completed walk) carries SDK info id 105 / version "3.3.0" and runtime info id 9 / version "Unknown" |
| ConfigProperties.BuiltCredentials | android/src/main/java/com/optimove/flutter/OptimoveInitProvider.java:128-178 | the builder's (`ConfigReader.Build`) two credentials are the last values written for their keys, unchanged, and null when never written |
| ConfigProperties.BuiltPushIcon | android/src/main/java/com/optimove/flutter/OptimoveInitProvider.java:185-187 | `ConfigReader.Build` sets a push icon iff some entry names an icon resource, and it is the last one named |
| ConfigProperties.BuiltDeepLinking | android/src/main/java/com/optimove/flutter/OptimoveInitProvider.java:156-184 | `ConfigReader.Build` configures deep linking iff the last boolean-or-string value of `enableDeferredDeepLinking` turned it on; it uses the last string value as scheme name, and the handler-only overload when no string value was given |
| ConfigProperties.BuiltInApp | android/src/main/java/com/optimove/flutter/OptimoveInitProvider.java:150-180 | the in-app call `ConfigReader.Build` makes is the decision for the last consent strategy and display mode written; no consent strategy in the file means no in-app call |
| ConfigProperties.SchemeThenFalse | android/src/main/java/com/optimove/flutter/OptimoveInitProvider.java:156-166 | a string value followed by `false` leaves the scheme name set in the locals but deep linking off in the builder |
| ConfigProperties.DeepLinkingByTokenKind | android/src/main/java/com/optimove/flutter/OptimoveInitProvider.java:156-166 | as the only entry, `true` enables deep linking without a scheme name, a string enables it with that scheme name, and `false`, a number or any other token leaves it off |
| ConfigProperties.EncodeRoundTrip | android/src/main/java/com/optimove/flutter/OptimoveInitProvider.java:122-192 | every builder `readConfig` can return is returned for the file that spells it out |
| Events.InboxUpdated | android/src/main/java/com/optimove/flutter/OptimoveInitProvider.java:231-235 | the inbox envelope holds only `type = "inbox.updated"`, with no `data` key, and goes to the immediate sink |
| Events.DeepLinkPressed | android/src/main/java/com/optimove/flutter/OptimoveInitProvider.java:238-252 | the in-app deep-link envelope is `{type, data}` on the immediate sink. `data` holds the message id. It holds the converted deep-link payload iff that conversion succeeds. It holds `messageData` iff the first conversion succeeds and the message payload is null (kept as `null`) or converts |
| Events.LinkMap | android/src/main/java/com/optimove/flutter/OptimoveInitProvider.java:285-300 | the link map holds the content title and description, plus `data` (null when the link has no data); `data` is missing only when converting it fails |
| Events.LinkResolved | android/src/main/java/com/optimove/flutter/OptimoveInitProvider.java:284-312 | the deferred-deep-link envelope has `type = "deep-linking.linkResolved"` and `data` with exactly `url`, `resolution` (the ordinal) and `link`; `link` is null exactly when no link content was passed; it goes to the delayed sink |
| Events.EnvelopesAnnounceKindAndSink | android/src/main/java/com/optimove/flutter/OptimoveInitProvider.java:230-312 | each envelope's `type` tag names its own callback, and its sink is the delayed one exactly for resolved deferred deep links |
| Events.FailedDeepLinkDropsMessage | android/src/main/java/com/optimove/flutter/OptimoveInitProvider.java:243-249 | when the deep-link payload fails to convert, the message payload is dropped too, even if it would convert |
| InitProvider.AdditionalListeners | android/src/main/java/com/optimove/flutter/OptimoveInitProvider.java:222-253 | the push-open handler is always registered; the inbox and in-app deep-link listeners are registered iff optimobile is configured |
| InitProvider.OnCreate | android/src/main/java/com/optimove/flutter/OptimoveInitProvider.java:54-74 | the SDK is initialised iff `readConfig` returns a builder, with that configuration and the gated listeners; no configuration means initialisation is skipped; an exception from the reader escapes with its cause |
| InitProvider.FailurePathsSkip | android/src/main/java/com/optimove/flutter/OptimoveInitProvider.java:57-67 | a missing asset skips initialisation; a top-level array crashes `onCreate`; an I/O error during the walk never initialises, and skips unless an earlier value already threw |

## Left out

- The content-provider CRUD methods (`query`, `getType`, `insert`, `delete`, `update`) return constants and belong to the Android framework.
- Opening the asset and JSON tokenisation (`getConfigReader`, `JsonReader`) are I/O and a library. The input is the token sequence the reader delivers plus how the walk ended. A missing asset is `Missing`. Malformed syntax and other reader I/O errors are `IoFailure` at the point where reading stopped.
- The `catch (IOException)` around `readConfig` in `onCreate` is not modelled separately: `readConfig` catches the walk's I/O errors itself and returns `null`.
- `Optimove.initialize`, the `Optimove`/`OptimoveInApp` singletons, `PushReceiver::handlePushOpen` and `isOptimobileConfigured()` are SDK calls. Initialisation is recorded as the `Initialized` outcome. The SDK's answer about optimobile is a parameter.
- The icon resource lookup (`getResources().getIdentifier`) is a platform call. The model records the icon resource name instead of the numeric id. It takes `getContext()` to be non-null, as it is once the provider is created.
- `JsonUtils.toMap` is not part of this model. It is a parameter that either returns a map or fails. Only the failures each handler catches are modelled; any other throwable from it is out of scope.
- The deferred-deep-link resolution is taken as its enum ordinal (a natural number), because the SDK's enum is not visible. A link content whose `content` object is null is not modelled.
- The `JSONException` path of `overrideInstallInfo` is left out. `put` with these constant keys and values does not throw, so the install info is always set.
- A top-level string, number or `null` is rejected by the strict reader with an `IOException` before any entry is read. The model writes such a file as `IoFailure` with no entries, so initialisation is skipped.
- Other exceptions the JSON reader may throw are the library's and are not modelled; the model covers its `IOException`s (as `IoFailure`) and the two `IllegalStateException`s described above.
- The event-sink transport (`eventSink`, `eventSinkDelayed`) and the threads the SDK calls back on are out of scope. The model records only which sink an envelope is sent to.
