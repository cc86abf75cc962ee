# MenuSystem session workflow in Dafny

This project models the online-session part of `AMenuSystemCharacter` from the
MenuSystem Unreal project, together with the small helpers it relies on.
The character creates a game session (destroying an existing one first),
searches for sessions, joins every result whose `MatchType`/`PlayerGuy`
settings match (ignoring case), and travels once a create or a join completes. It reports
progress through `GEngineInterface::AddOnScreenDebugMessage` and builds the
message texts with `util::to_str`.

Files and modules:

- `GEngineInterface.dfy`
  - module `Util`: `util::to_str` over strings. `ToStr` is the one-argument
    overload. `ToStrArgs` is the variadic overload, taking the argument pack
    as a non-empty sequence.
  - module `GEngineInterface`: the on-screen message wrapper. `Forwarded`
    gives what one call hands to the engine. `AddOnScreenDebugMessage`
    appends that to an `Engine` object's message list.
- `SessionService.dfy` (module `SessionService`): case-insensitive text
  comparison (`Fold`, `SameText`); the values passed to and
  returned by the online-session interface (settings, search query, search
  results, join result codes); the `Event` type, one per observable action of
  the character; and projections of an event log (registrations per delegate
  kind, joined results, texts shown, travels) with their append laws.
- `MenuSystemCharacter.dfy` (module `MenuSystemCharacter`):
  - one pure "effects" function per entry point, giving the events it
    appends, and lemmas about each;
  - class `Character`, whose methods append to `events` step by step, as the
    C++ code does. Its counters `createDelegates`, `findDelegates` and
    `joinDelegates` are the lengths of the interface's three delegate lists.
    `Valid()` ties these counters to the registration counts of the log.

Everything the character does goes into one ordered log, `Character.events`.
This includes the on-screen messages (`Screen` events), so the order of
screen output relative to session calls is part of what is proved. A screen
event is recorded exactly when `AddOnScreenDebugMessage` would forward it,
that is, when the engine exists. `SessionService.Say` encodes this rule by
reusing `GEngineInterface.Forwarded`.

The session service itself is not modelled. Its answers are inputs:

- whether a named session exists is a parameter of `CreateGameSession`;
- the search results are the `searchResults` field;
- the resolved connect string is a parameter of `OnJoinSessionComplete`,
  `None` when resolution fails;
- whether the interface, the engine, the world, the local player and the
  player controller exist are fields fixed at construction.

Matching follows Unreal's comparison rules. `FString` `==` ignores ASCII
case (`SameText`). Every settings map (the create settings, the search
query's settings, a search result's settings) is keyed by `FName`, and two
names are the same `FName` when they are `SameText`. The model's `FNameMap`
therefore indexes each entry by the `Fold` of its name and keeps the spelling
it was stored under. `Lookup` finds an entry whatever the case of either
spelling, and `Put` (`Set`) replaces the entry for the same name.

So a result whose settings are `Put(Put(map[], "MatchType", "FreeForAll"),
"PlayerGuy", "VatsalSux")`, the spelling the character advertises, matches
(`AdvertisedSpellingMatches`). One with
`Put(Put(map[], "matchtype", "freeforall"), "PLAYERGUY", "VatsalSux")` is
joined too (`CaseVariantJoined`). The joining line shows the value as the
result spells it (`JoiningTextOwnSpelling`).

Points where the code's behaviour is easy to misread:

- Every matching search result is joined. The loop has no `break`, so a
  search whose results include two matches submits two joins
  (`BothOfTwoMatchesJoined`). Nothing limits the character to the first
  match.
- Delegates are added and never removed, so they accumulate across calls
  (`CreateDelegatesAccumulate`, `SearchTwice`). No completion handler
  deregisters its delegate.
- When an old session exists, the destroy request is issued and the create
  request follows immediately, without waiting for the destroy to complete.
- `CreateGameSession` takes no capacity: it always asks for 4 public
  connections. The search always asks for up to 1000000 results.
- `OnCreateSessionComplete` does not check the session interface, unlike the
  other three entry points.
- `OnFindSessionsComplete` never reads `bWasSuccessful`.
- `OnJoinSessionComplete` never reads the result code. It travels whenever a
  player controller exists, with an empty address if resolution failed. It
  shows the connect string only when resolution succeeds, and shows nothing
  on failure.

## Model

| member | source | states |
|---|---|---|
| Util.ToStr | Source/MenuSystem/GEngineInterface.h:9-14 | definition: streaming one string into an `ostringstream` and reading it back gives that string |
| Util.ToStrArgs | Source/MenuSystem/GEngineInterface.h:16-19 | the result's length is the sum of the argument lengths, and the first argument is a prefix of it |
| Util.ToStrArgsSingle | Source/MenuSystem/GEngineInterface.h:9-14 | one string argument comes back unchanged |
| Util.ToStrArgsCons | Source/MenuSystem/GEngineInterface.h:16-19 | `to_str(v, rest...)` is `to_str(v)` followed by `to_str(rest...)` |
| Util.ToStrArgsIsConcat | Source/MenuSystem/GEngineInterface.h:9-19 | over strings, the variadic call equals the left-to-right concatenation of its arguments (an independent fold) |
| Util.ToStrArgsAppend | Source/MenuSystem/GEngineInterface.h:16-19 | splitting the argument list splits the result accordingly |
| Util.ToStrArgsAt | Source/MenuSystem/GEngineInterface.h:16-19 | argument i appears in the result exactly at the offset given by the lengths of the arguments before it |
| Util.ToStrArgsPair | Source/MenuSystem/MenuSystemCharacter.cpp:147 | the two-argument form used for the log lines is `a + b` |
| Util.ToStrArgsFour | Source/MenuSystem/MenuSystemCharacter.cpp:178 | the four-argument form used for the result line is `a + b + c + d` |
| Util.ToStrArgsOrderMatters | Source/MenuSystem/GEngineInterface.h:16-19 | swapping two arguments changes the result |
| GEngineInterface.Forwarded | Source/MenuSystem/GEngineInterface.h:30-36 | definition: the messages one wrapper call hands to the engine, one with key -1, 10 seconds, the color and the text when the engine exists, none otherwise |
| GEngineInterface.ForwardedExactlyWhenPresent | Source/MenuSystem/GEngineInterface.h:30-36 | one message with key -1, 10 seconds, the given color and text is forwarded when the engine exists, none otherwise |
| GEngineInterface.AddOnScreenDebugMessage | Source/MenuSystem/GEngineInterface.h:30-36 | with an engine, its message list grows by exactly that message; with none, nothing is modified |
| SessionService.Say | Source/MenuSystem/GEngineInterface.h:30-36 | definition: the log entries of one wrapper call, one screen event per forwarded message |
| SessionService.SayShows | Source/MenuSystem/GEngineInterface.h:30-36 | a logged message shows its text once if the engine exists and nothing otherwise; it registers, joins and travels nothing |
| SessionService.Fold | Source/MenuSystem/MenuSystemCharacter.cpp:180 | definition: the text with each ASCII capital replaced by its lower-case letter |
| SessionService.SameText | Source/MenuSystem/MenuSystemCharacter.cpp:180 | definition: `FString ==`, equality after folding ASCII case |
| SessionService.Lookup | Source/MenuSystem/MenuSystemCharacter.cpp:175-176 | definition: the value stored for an `FName`, found by the name's folded identity, or none |
| SessionService.Put | Source/MenuSystem/MenuSystemCharacter.cpp:117-118 | definition: `Set` stores the value under this spelling, replacing the entry for the same name |
| SessionService.LookupFinds | Source/MenuSystem/MenuSystemCharacter.cpp:175-176 | a lookup succeeds exactly when some entry's stored name is the same name ignoring case, and then yields that entry's value |
| SessionService.PutLookup | Source/MenuSystem/MenuSystemCharacter.cpp:117-118 | after `Set`, the name reads back the new value in any case and every other name reads what it read before |
| SessionService.FoldIdempotent | Source/MenuSystem/MenuSystemCharacter.cpp:175-180 | folding ASCII case twice is folding once, and text without capitals is its own fold |
| SessionService.SameTextIsEquivalence | Source/MenuSystem/MenuSystemCharacter.cpp:175-180 | case-insensitive equality is reflexive, symmetric and transitive, keeps length, and relates every text to its fold |
| SessionService.SameTextExamples | Source/MenuSystem/MenuSystemCharacter.cpp:175-180 | "FreeForAll" equals "freeforall" and "FREEFORALL" ignoring case, and differs from "FreeForAl"; "VatsalSux" differs from "VatsalSuy" |
| MenuSystemCharacter.CreateGameEffects | Source/MenuSystem/MenuSystemCharacter.cpp:95-122 | definition: the destroy request when a session exists, then the create-delegate registration and the create request with the fixed settings |
| MenuSystemCharacter.CreateGameOrder | Source/MenuSystem/MenuSystemCharacter.cpp:95-122 | destroy comes first, and only when a session exists; then the create delegate is registered; then the create request is submitted with the fixed settings; one create delegate, no other registration, no travel, no text |
| MenuSystemCharacter.GameSettingsValues | Source/MenuSystem/MenuSystemCharacter.cpp:107-118 | every create request carries the constant `GameSettings`: non-LAN, 4 public connections, join in progress, join via presence, advertise, presence, lobbies, and exactly two custom settings, stored under the names `MatchType` (value `FreeForAll`) and `PlayerGuy` (value `VatsalSux`), both advertised via service and ping |
| MenuSystemCharacter.PresenceQuery | Source/MenuSystem/MenuSystemCharacter.cpp:135-137 | definition: the three updates the character makes to the shared search object |
| MenuSystemCharacter.PresenceQueryFields | Source/MenuSystem/MenuSystemCharacter.cpp:135-137 | the search object asks for up to 1000000 results, is non-LAN, and `PRESENCESEARCH` (in any case) reads `true` with `Equals` comparison; every other query setting reads as before; applying it twice equals applying it once |
| MenuSystemCharacter.FindRequestRegistrations | Source/MenuSystem/MenuSystemCharacter.cpp:133-140 | the search registers exactly one find delegate, and no other delegate, before it submits the query |
| MenuSystemCharacter.CreateCompleteEffects | Source/MenuSystem/MenuSystemCharacter.cpp:143-159 | definition: the create completion's message and, on success with a world, the travel to the lobby |
| MenuSystemCharacter.CreateCompleteOutcome | Source/MenuSystem/MenuSystemCharacter.cpp:143-159 | on success it shows "Created session: name" and travels to the lobby URL iff the world exists, with the travel last; on failure it shows "Failed to create session! name" and does not travel; nothing is registered or joined |
| MenuSystemCharacter.SettingOf | Source/MenuSystem/MenuSystemCharacter.cpp:173-176 | definition: `Lookup` of the setting name, ignoring the case of both the stored and the requested spelling, or "" when it is missing |
| MenuSystemCharacter.Matches | Source/MenuSystem/MenuSystemCharacter.cpp:173-180 | definition: both settings read, and compared with `==` ignoring case |
| MenuSystemCharacter.FoldedNames | Source/MenuSystem/MenuSystemCharacter.cpp:173-180 | the folded forms of the two setting names and the two expected values |
| MenuSystemCharacter.MatchesIff | Source/MenuSystem/MenuSystemCharacter.cpp:173-180 | a result matches exactly when some entry's stored name is `MatchType` ignoring case with value `FreeForAll` ignoring case, and some entry's stored name is `PlayerGuy` ignoring case with value `VatsalSux` ignoring case; a result with no such name never matches |
| MenuSystemCharacter.JoiningTextOwnSpelling | Source/MenuSystem/MenuSystemCharacter.cpp:180-182 | for a match, the joining line shows the result's own `MatchType` value, which equals "Joining Match Type: FreeForAll" ignoring case |
| MenuSystemCharacter.AdvertisedSpellingMatches | Source/MenuSystem/MenuSystemCharacter.cpp:173-182 | a result whose settings were set as `MatchType = FreeForAll` and `PlayerGuy = VatsalSux` matches, and its joining line reads "Joining Match Type: FreeForAll" |
| MenuSystemCharacter.CaseVariantMatches | Source/MenuSystem/MenuSystemCharacter.cpp:173-182 | a result whose settings were set as `matchtype = freeforall` and `PLAYERGUY = VatsalSux` matches, and its joining line reads "Joining Match Type: freeforall" |
| MenuSystemCharacter.SingleSearch | Source/MenuSystem/MenuSystemCharacter.cpp:168-189 | a search with one result runs the loop body once |
| MenuSystemCharacter.OneMatchJoined | Source/MenuSystem/MenuSystemCharacter.cpp:168-189 | a search with one matching result joins it and shows its ID/User line and then its joining line |
| MenuSystemCharacter.CaseVariantJoined | Source/MenuSystem/MenuSystemCharacter.cpp:168-189 | the case-variant result above is joined, and the lines shown are its ID/User line and "Joining Match Type: freeforall" |
| MenuSystemCharacter.FilterIsMatchingSubsequence | Source/MenuSystem/MenuSystemCharacter.cpp:168-188 | the results selected for joining are no more than the results, and are exactly the matching results as a set |
| MenuSystemCharacter.FilterCounts | Source/MenuSystem/MenuSystemCharacter.cpp:168-188 | each matching result is selected as many times as it occurs, and no other result is selected |
| MenuSystemCharacter.FilterAppend | Source/MenuSystem/MenuSystemCharacter.cpp:168-188 | selecting over two result lists in turn is selecting over each and concatenating, so the selection keeps result order |
| MenuSystemCharacter.IdLine | Source/MenuSystem/MenuSystemCharacter.cpp:170-178 | definition: "ID: " + session id + "User: " + owning user name, the text of `to_str("ID: ", Id, "User: ", User)` |
| MenuSystemCharacter.JoiningText | Source/MenuSystem/MenuSystemCharacter.cpp:182 | definition: "Joining Match Type: " + the result's `MatchType` value |
| MenuSystemCharacter.ResultEffects | Source/MenuSystem/MenuSystemCharacter.cpp:170-188 | definition: one loop body, the ID/User line, then for a match the joining line, a join-delegate registration and the join |
| MenuSystemCharacter.FindCompleteEffects | Source/MenuSystem/MenuSystemCharacter.cpp:168-189 | definition: the loop bodies over all results in order |
| MenuSystemCharacter.ResultJoins | Source/MenuSystem/MenuSystemCharacter.cpp:180-188 | one iteration joins its result iff it matches, right after registering a join delegate |
| MenuSystemCharacter.ResultEffectsTexts | Source/MenuSystem/MenuSystemCharacter.cpp:178-182 | one iteration shows its ID/User line, followed by the joining line with the result's own `MatchType` value iff it matches; it shows nothing without an engine |
| MenuSystemCharacter.ResultIdLines | Source/MenuSystem/MenuSystemCharacter.cpp:178-182 | of one iteration's lines, only the first starts with "ID: " |
| MenuSystemCharacter.FindCompleteJoins | Source/MenuSystem/MenuSystemCharacter.cpp:168-189 | the loop joins exactly the matching results, in result order, with no early exit, and each join directly follows its own delegate registration |
| MenuSystemCharacter.FindCompleteRegistrations | Source/MenuSystem/MenuSystemCharacter.cpp:168-189 | the number of join delegates registered equals the number of matches; no create or find delegate is registered; there is no travel |
| MenuSystemCharacter.FindCompleteIdLines | Source/MenuSystem/MenuSystemCharacter.cpp:168-178 | with an engine, there is one ID/User line per result, in result order, with line i built from result i's id and owner, and one more line per match |
| MenuSystemCharacter.FindCompleteSilentWithoutEngine | Source/MenuSystem/MenuSystemCharacter.cpp:178 | without an engine the loop shows nothing |
| MenuSystemCharacter.FilterOfThree | Source/MenuSystem/MenuSystemCharacter.cpp:180 | of three results where only the second matches, only the second is selected |
| MenuSystemCharacter.OnlySecondOfThreeJoined | Source/MenuSystem/MenuSystemCharacter.cpp:168-189 | of three results where only the second matches, exactly the second is joined |
| MenuSystemCharacter.BothOfTwoMatchesJoined | Source/MenuSystem/MenuSystemCharacter.cpp:168-189 | when two results match, both are joined in order and two join delegates are registered |
| MenuSystemCharacter.JoinCompleteEffects | Source/MenuSystem/MenuSystemCharacter.cpp:199-209 | definition: the connect-string message when resolution succeeds, then the client travel |
| MenuSystemCharacter.ClientTravels | Source/MenuSystem/MenuSystemCharacter.cpp:205-209 | definition: an absolute travel to the address when a player controller exists, nothing otherwise |
| MenuSystemCharacter.JoinCompleteOutcome | Source/MenuSystem/MenuSystemCharacter.cpp:199-209 | with a player controller it travels absolutely to the resolved address, or to "" when resolution failed; it shows "Connect string: address" only when resolution succeeded and the engine exists; nothing is registered or joined |
| MenuSystemCharacter.CountedExtend | Source/MenuSystem/MenuSystemCharacter.cpp:104 | appending events adds their registrations to each delegate-list length |
| MenuSystemCharacter.CreateGameCounted | Source/MenuSystem/MenuSystemCharacter.cpp:104 | a create request adds one create delegate and keeps the other two lists |
| MenuSystemCharacter.FindRequestCounted | Source/MenuSystem/MenuSystemCharacter.cpp:133 | a search adds one find delegate and keeps the other two lists |
| MenuSystemCharacter.CreateCompleteCounted | Source/MenuSystem/MenuSystemCharacter.cpp:143-159 | the create completion leaves all three delegate lists as they were |
| MenuSystemCharacter.FindCompleteCounted | Source/MenuSystem/MenuSystemCharacter.cpp:184 | the search loop adds one join delegate per matching result |
| MenuSystemCharacter.JoinCompleteCounted | Source/MenuSystem/MenuSystemCharacter.cpp:192-210 | the join completion leaves all three delegate lists as they were |
| MenuSystemCharacter.CreateDelegatesAccumulate | Source/MenuSystem/MenuSystemCharacter.cpp:104 | two create requests leave two more create delegates than before; none is removed |
| MenuSystemCharacter.Character.constructor | Source/MenuSystem/MenuSystemCharacter.cpp:59-68 | the session interface is valid iff a subsystem exists and hands out a valid one; "Found Subsystem: name" is shown iff a subsystem exists; no delegate is registered yet |
| MenuSystemCharacter.Character.Log | Source/MenuSystem/GEngineInterface.h:30-36 | the log grows by the screen event the wrapper would forward, and by nothing without an engine |
| MenuSystemCharacter.Character.LogPair | Source/MenuSystem/MenuSystemCharacter.cpp:147 | logging `to_str(a, b)` shows `a + b` |
| MenuSystemCharacter.Character.LogFour | Source/MenuSystem/MenuSystemCharacter.cpp:178 | logging `to_str(a, b, c, d)` shows `a + b + c + d` |
| MenuSystemCharacter.Character.CreateGameSession | Source/MenuSystem/MenuSystemCharacter.cpp:86-123 | with an invalid interface nothing happens; otherwise the log grows by the create sequence, hosted by the local player, and the create-delegate count grows by one |
| MenuSystemCharacter.Character.JoinGameSession | Source/MenuSystem/MenuSystemCharacter.cpp:125-141 | with an invalid interface nothing happens; otherwise the shared search is updated in place, a find delegate is registered, and the search is then submitted for the local player |
| MenuSystemCharacter.Character.OnCreateSessionComplete | Source/MenuSystem/MenuSystemCharacter.cpp:143-159 | the log grows by the create-completion events whatever the interface state; the delegate counts are kept |
| MenuSystemCharacter.Character.OnFindSessionsComplete | Source/MenuSystem/MenuSystemCharacter.cpp:161-190 | with an invalid interface nothing happens; otherwise the log grows by the loop's events over all results, and the join-delegate count grows by the number of matches, whatever `wasSuccessful` is |
| MenuSystemCharacter.Character.HandleResults | Source/MenuSystem/MenuSystemCharacter.cpp:168-189 | the loop handles every result in order; the log equals the loop's effects over all results |
| MenuSystemCharacter.Character.HandleResult | Source/MenuSystem/MenuSystemCharacter.cpp:170-188 | one loop body appends the ID/User line, and only for a matching result also the joining line, a join-delegate registration and the join |
| MenuSystemCharacter.Character.OnJoinSessionComplete | Source/MenuSystem/MenuSystemCharacter.cpp:192-210 | with an invalid interface nothing happens; otherwise the log grows by the join-completion events, independently of the result code; the delegate counts are kept |
| MenuSystemCharacter.SearchTwice | Source/MenuSystem/MenuSystemCharacter.cpp:133 | two searches register two more find delegates |

## Left out

- Movement, camera, `BeginPlay`, input binding and the `Move`/`Look`
  handlers (MenuSystemCharacter.cpp outside lines 19-23, 59-68 and 86-210)
  have nothing to do with sessions.
- The online session service is not modelled. Its answers are inputs, as
  described above. Delegate invocation is not modelled either: a completion
  handler is called directly, as a method, and registrations are only
  counted and logged.
- Asynchrony and the threads that deliver completions are not modelled.
  Each method runs to completion in one step.
- The C++ code dereferences `GetWorld()`, the first local player and its
  unique net id without checking them, in `CreateGameSession`,
  `JoinGameSession` and the join branch of `OnFindSessionsComplete`. Those
  dereferences become `requires` clauses. `GetGameInstance()` in
  `OnJoinSessionComplete` is also unchecked. The model assumes a game
  instance exists and tracks only whether it has a player controller.
- Case-insensitive comparison folds only the ASCII letters A-Z; every other
  character compares exactly. The `FName` number suffix is not modelled.
- `FName`/`FString`/`TCHAR_TO_UTF8` conversions are identity on strings.
  `ToStr` covers only strings, the only type the character passes. The
  `ostringstream` formatting of other types is left out.
- Only the string-valued custom settings of a search result are modelled.
  `Get` on a non-string value is left out.
- Only the query fields the character sets, plus the custom query settings,
  are modelled. The C++ object starts with 1 result, not LAN, and no
  settings. Its other defaults (ping bucket, timeout) are not modelled.
- `SessionService.Say` records an on-screen message in the character's log;
  it does not update a separate `Engine` object. `AddOnScreenDebugMessage`
  on an `Engine` models the wrapper on its own.
- Plugins/MultiplayerSessions/…/MultiplayerSessionsSubsystem.h and the
  top-level GEngineInterface.h are not part of this model.
