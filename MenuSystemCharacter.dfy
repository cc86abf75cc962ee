// The session workflow of AMenuSystemCharacter
// (Source/MenuSystem/MenuSystemCharacter.cpp): create a game session, search
// for sessions, join every matching result, and travel once a create or join
// completes. Each entry point appends to one ordered log of events; what it
// appends is given by a pure "effects" function, and the lemmas below state
// what those functions guarantee.

module MenuSystemCharacter {
  import opened Util
  import opened GEngineInterface
  import opened SessionService

  /** `NAME_GameSession`. */
  const GameSession: string := "GameSession"
  const LobbyUrl: string := "/Game/ThirdPerson/Maps/Lobby?listen"
  const MatchTypeKey: string := "MatchType"
  const FreeForAll: string := "FreeForAll"
  const PlayerGuyKey: string := "PlayerGuy"
  const VatsalSux: string := "VatsalSux"
  /** The key behind `SEARCH_PRESENCE`. */
  const SearchPresence: string := "PRESENCESEARCH"
  const QueryCap: int := 1000000

  /** The settings every create request carries. */
  const GameSettings: SessionSettings := SessionSettings(
    isLanMatch := false,
    numPublicConnections := 4,
    allowJoinInProgress := true,
    allowJoinViaPresence := true,
    shouldAdvertise := true,
    usesPresence := true,
    useLobbiesIfAvailable := true,
    settings := Put(Put(map[], MatchTypeKey, SettingValue(FreeForAll, ViaOnlineServiceAndPing)),
                    PlayerGuyKey, SettingValue(VatsalSux, ViaOnlineServiceAndPing)))

  // ---------------------------------------------------------------------
  // CreateGameSession

  /** Destroy (only if a game session exists, and without waiting for it),
      register the create delegate, submit the create request. */
  function CreateGameEffects(sessionExists: bool, hostId: string): seq<Event>
  {
    (if sessionExists then [DestroySession(GameSession)] else [])
    + [RegisterDelegate(CreateSessionComplete), CreateSession(hostId, GameSession, GameSettings)]
  }

  lemma CreateGameOrder(sessionExists: bool, hostId: string)
    ensures var es := CreateGameEffects(sessionExists, hostId);
      && |es| == (if sessionExists then 3 else 2)
      && (DestroySession(GameSession) in es <==> sessionExists)
      && (sessionExists ==> es[0] == DestroySession(GameSession))
      && es[|es| - 2] == RegisterDelegate(CreateSessionComplete)
      && es[|es| - 1] == CreateSession(hostId, GameSession, GameSettings)
      && Registrations(es, CreateSessionComplete) == 1
      && Registrations(es, FindSessionsComplete) == 0
      && Registrations(es, JoinSessionComplete) == 0
      && Travels(es) == [] && Texts(es) == []
  {
    var es := CreateGameEffects(sessionExists, hostId);
    var reg := RegisterDelegate(CreateSessionComplete);
    var create := CreateSession(hostId, GameSession, GameSettings);
    var tail := [reg, create];
    OneEvent(reg);
    OneEvent(create);
    assert tail == [reg] + [create];
    forall kind ensures Registrations(tail, kind) == if kind == CreateSessionComplete then 1 else 0 {
      RegistrationsAppend([reg], [create], kind);
    }
    TravelsAppend([reg], [create]);
    TextsAppend([reg], [create]);
    if sessionExists {
      var destroy := DestroySession(GameSession);
      OneEvent(destroy);
      assert es == [destroy] + tail;
      forall kind ensures Registrations(es, kind) == Registrations(tail, kind) {
        RegistrationsAppend([destroy], tail, kind);
      }
      TravelsAppend([destroy], tail);
      TextsAppend([destroy], tail);
    } else {
      assert es == tail;
    }
  }

  lemma GameSettingsValues()
    ensures !GameSettings.isLanMatch && GameSettings.numPublicConnections == 4
    ensures GameSettings.allowJoinInProgress && GameSettings.allowJoinViaPresence
    ensures GameSettings.shouldAdvertise && GameSettings.usesPresence && GameSettings.useLobbiesIfAvailable
    ensures GameSettings.settings.Keys == {"matchtype", "playerguy"}
    ensures GameSettings.settings["matchtype"] == Named("MatchType", SettingValue("FreeForAll", ViaOnlineServiceAndPing))
    ensures GameSettings.settings["playerguy"] == Named("PlayerGuy", SettingValue("VatsalSux", ViaOnlineServiceAndPing))
  {
    FoldedNames();
  }

  // ---------------------------------------------------------------------
  // JoinGameSession

  /** The shared search object after `JoinGameSession` has set its fields in
      place: every other query setting is kept. */
  function PresenceQuery(q: SearchQuery): SearchQuery
  {
    q.(maxSearchResults := QueryCap,
       isLanQuery := false,
       querySettings := Put(q.querySettings, SearchPresence, QuerySetting(true, Equals)))
  }

  lemma PresenceQueryFields(q: SearchQuery)
    ensures PresenceQuery(q).maxSearchResults == 1000000
    ensures !PresenceQuery(q).isLanQuery
    ensures Lookup(PresenceQuery(q).querySettings, "PRESENCESEARCH") == Some(QuerySetting(true, Equals))
    ensures Lookup(PresenceQuery(q).querySettings, "presencesearch") == Some(QuerySetting(true, Equals))
    ensures PresenceQuery(q).querySettings.Keys == q.querySettings.Keys + {"presencesearch"}
    ensures forall n | !SameText(n, SearchPresence) ::
      Lookup(PresenceQuery(q).querySettings, n) == Lookup(q.querySettings, n)
    ensures PresenceQuery(PresenceQuery(q)) == PresenceQuery(q)
  {
    assert Fold("PRESENCESEARCH") == "presencesearch";
    assert Fold("presencesearch") == "presencesearch";
  }

  /** The find delegate is registered before the query is submitted, and
      nothing else is registered. */
  lemma FindRequestRegistrations(searcherId: string, query: SearchQuery)
    ensures var es := [RegisterDelegate(FindSessionsComplete), FindSessions(searcherId, query)];
      && Registrations(es, FindSessionsComplete) == 1
      && Registrations(es, CreateSessionComplete) == 0
      && Registrations(es, JoinSessionComplete) == 0
  {
    var reg := RegisterDelegate(FindSessionsComplete);
    var find := FindSessions(searcherId, query);
    OneEvent(reg);
    OneEvent(find);
    assert [reg, find] == [reg] + [find];
    RegistrationsAppend([reg], [find], FindSessionsComplete);
    RegistrationsAppend([reg], [find], CreateSessionComplete);
    RegistrationsAppend([reg], [find], JoinSessionComplete);
  }

  // ---------------------------------------------------------------------
  // OnCreateSessionComplete

  function CreateCompleteEffects(enginePresent: bool, worldPresent: bool, sessionName: string, wasSuccessful: bool): seq<Event>
  {
    if wasSuccessful then
      Say(enginePresent, Blue, "Created session: " + sessionName)
      + (if worldPresent then [ServerTravel(LobbyUrl)] else [])
    else
      Say(enginePresent, Red, "Failed to create session! " + sessionName)
  }

  lemma CreateCompleteOutcome(enginePresent: bool, worldPresent: bool, sessionName: string, wasSuccessful: bool)
    ensures var es := CreateCompleteEffects(enginePresent, worldPresent, sessionName, wasSuccessful);
      && Travels(es) == (if wasSuccessful && worldPresent then [ServerTravel("/Game/ThirdPerson/Maps/Lobby?listen")] else [])
      && Texts(es) == (if !enginePresent then []
                       else if wasSuccessful then ["Created session: " + sessionName]
                       else ["Failed to create session! " + sessionName])
      && (wasSuccessful && worldPresent ==> es[|es| - 1] == ServerTravel(LobbyUrl))
      && (forall kind :: Registrations(es, kind) == 0)
      && Joined(es) == []
  {
    var es := CreateCompleteEffects(enginePresent, worldPresent, sessionName, wasSuccessful);
    if wasSuccessful {
      var msg := "Created session: " + sessionName;
      SayShows(enginePresent, Blue, msg);
      var travel: seq<Event> := if worldPresent then [ServerTravel(LobbyUrl)] else [];
      assert travel != [] ==> travel[..0] == [];
      TravelsAppend(Say(enginePresent, Blue, msg), travel);
      TextsAppend(Say(enginePresent, Blue, msg), travel);
      JoinedAppend(Say(enginePresent, Blue, msg), travel);
      forall kind ensures Registrations(es, kind) == 0 {
        RegistrationsAppend(Say(enginePresent, Blue, msg), travel, kind);
      }
    } else {
      SayShows(enginePresent, Red, "Failed to create session! " + sessionName);
    }
  }

  // ---------------------------------------------------------------------
  // OnFindSessionsComplete

  /** `SessionSettings.Get(FName(key), value)` into an empty `FString`: the
      lookup finds the setting whose name is `key` up to ASCII case, and the
      value stays empty when there is none. */
  function SettingOf(settings: FNameMap<string>, key: string): string
  {
    Lookup(settings, key).GetOr("")
  }

  /** The join rule of the search loop: both comparisons are `FString ==`,
      which ignores ASCII case. */
  predicate Matches(r: SearchResult)
  {
    SameText(SettingOf(r.settings, MatchTypeKey), FreeForAll) && SameText(SettingOf(r.settings, PlayerGuyKey), VatsalSux)
  }

  /** The names and values the join rule compares, by their identity. */
  lemma FoldedNames()
    ensures Fold(MatchTypeKey) == "matchtype" && Fold(PlayerGuyKey) == "playerguy"
    ensures Fold(FreeForAll) == "freeforall" && Fold(VatsalSux) == "vatsalsux"
  {
    assert Fold("MatchType") == "matchtype";
    assert Fold("PlayerGuy") == "playerguy";
    assert Fold("FreeForAll") == "freeforall";
    assert Fold("VatsalSux") == "vatsalsux";
  }

  /** A result matches exactly when it carries both settings, stored under
      names spelt in any case, with the expected values up to ASCII case; a
      missing setting never matches. */
  lemma MatchesIff(r: SearchResult)
    ensures Matches(r) <==>
      && (exists k | k in r.settings :: SameText(r.settings[k].name, MatchTypeKey) && SameText(r.settings[k].value, FreeForAll))
      && (exists k | k in r.settings :: SameText(r.settings[k].name, PlayerGuyKey) && SameText(r.settings[k].value, VatsalSux))
    ensures (forall k | k in r.settings :: !SameText(r.settings[k].name, MatchTypeKey)) ==> !Matches(r)
    ensures (forall k | k in r.settings :: !SameText(r.settings[k].name, PlayerGuyKey)) ==> !Matches(r)
  {
    FoldedNames();
    assert Fold("") == "";
    assert "freeforall" != "" && "vatsalsux" != "";
  }

  /** The joining line shows the match type as the result spells it. */
  lemma JoiningTextOwnSpelling(r: SearchResult)
    requires Matches(r)
    ensures exists k | k in r.settings ::
      SameText(r.settings[k].name, MatchTypeKey) && JoiningText(r) == "Joining Match Type: " + r.settings[k].value
    ensures SameText(JoiningText(r), "Joining Match Type: FreeForAll")
  {
    FoldedNames();
    assert Fold("") == "";
    var k := Fold(MatchTypeKey);
    assert k in r.settings;
    var v := r.settings[k].value;
    var a := "Joining Match Type: ";
    assert JoiningText(r) == a + v;
    assert Fold(a + v) == Fold(a) + Fold(v);
    assert Fold(a + FreeForAll) == Fold(a) + Fold(FreeForAll);
  }

  /** A result carrying the settings as the character advertises them
      matches, and its joining line reads "Joining Match Type: FreeForAll". */
  lemma AdvertisedSpellingMatches(r: SearchResult)
    requires r.settings == Put(Put(map[], "MatchType", "FreeForAll"), "PlayerGuy", "VatsalSux")
    ensures Matches(r)
    ensures JoiningText(r) == "Joining Match Type: FreeForAll"
  {
    FoldedNames();
  }

  /** Names and values in another case match too, and the joining line keeps
      the result's own spelling. */
  lemma CaseVariantMatches(r: SearchResult)
    requires r.settings == Put(Put(map[], "matchtype", "freeforall"), "PLAYERGUY", "VatsalSux")
    ensures Matches(r)
    ensures JoiningText(r) == "Joining Match Type: freeforall"
  {
    FoldedNames();
    assert Fold("freeforall") == "freeforall";
    assert Fold("matchtype") == "matchtype";
    assert Fold("PLAYERGUY") == "playerguy";
  }

  /** A search returning one result runs the loop body once. */
  lemma SingleSearch(enginePresent: bool, userId: string, r: SearchResult)
    ensures FindCompleteEffects(enginePresent, userId, [r]) == ResultEffects(enginePresent, userId, r)
  {
    assert [r][..0] == [];
    assert [] + ResultEffects(enginePresent, userId, r) == ResultEffects(enginePresent, userId, r);
  }

  /** A search returning one matching result joins it and shows its ID/User
      line and its joining line. */
  lemma OneMatchJoined(userId: string, r: SearchResult)
    requires Matches(r)
    ensures Joined(FindCompleteEffects(true, userId, [r])) == [r]
    ensures Texts(FindCompleteEffects(true, userId, [r])) == [IdLine(r), JoiningText(r)]
  {
    SingleSearch(true, userId, r);
    ResultJoins(true, userId, r);
    ResultEffectsTexts(true, userId, r);
  }

  /** A case-variant result is joined. */
  lemma CaseVariantJoined(userId: string, r: SearchResult)
    requires r.settings == Put(Put(map[], "matchtype", "freeforall"), "PLAYERGUY", "VatsalSux")
    ensures Matches(r)
    ensures Joined(FindCompleteEffects(true, userId, [r])) == [r]
    ensures Texts(FindCompleteEffects(true, userId, [r])) == [IdLine(r), "Joining Match Type: freeforall"]
  {
    CaseVariantMatches(r);
    OneMatchJoined(userId, r);
  }

  /** The matching results, in result order. */
  function Filter(rs: seq<SearchResult>): seq<SearchResult>
  {
    if rs == [] then []
    else Filter(rs[..|rs| - 1]) + (if Matches(rs[|rs| - 1]) then [rs[|rs| - 1]] else [])
  }

  lemma {:induction false} FilterHasMatch(rs: seq<SearchResult>, i: nat)
    requires i < |rs| && Matches(rs[i])
    ensures Filter(rs) != []
    decreases |rs|
  {
    if i < |rs| - 1 {
      FilterHasMatch(rs[..|rs| - 1], i);
    }
  }

  lemma {:induction false} FilterIsMatchingSubsequence(rs: seq<SearchResult>)
    ensures |Filter(rs)| <= |rs|
    ensures forall r | r in Filter(rs) :: r in rs && Matches(r)
    ensures forall r | r in rs && Matches(r) :: r in Filter(rs)
    decreases |rs|
  {
    if rs != [] {
      var init := rs[..|rs| - 1];
      FilterIsMatchingSubsequence(init);
      assert rs == init + [rs[|rs| - 1]];
    }
  }

  /** Each matching result is kept as often as it occurs; no other is kept. */
  lemma {:induction false} FilterCounts(rs: seq<SearchResult>)
    ensures forall r :: multiset(Filter(rs))[r] == if Matches(r) then multiset(rs)[r] else 0
    decreases |rs|
  {
    if rs != [] {
      var init, last := rs[..|rs| - 1], rs[|rs| - 1];
      FilterCounts(init);
      assert rs == init + [last];
      assert multiset(rs) == multiset(init) + multiset{last};
      var tail := if Matches(last) then [last] else [];
      assert multiset(Filter(rs)) == multiset(Filter(init)) + multiset(tail);
    }
  }

  /** Filtering splits over concatenation, so matches keep their order. */
  lemma {:induction false} FilterAppend(a: seq<SearchResult>, b: seq<SearchResult>)
    ensures Filter(a + b) == Filter(a) + Filter(b)
    decreases |b|
  {
    if b == [] {
      assert a + b == a;
    } else {
      var init, last := b[..|b| - 1], b[|b| - 1];
      FilterAppend(a, init);
      assert (a + b)[..|a + b| - 1] == a + init;
      assert (a + b)[|a + b| - 1] == last;
    }
  }

  function IdLine(r: SearchResult): string
  {
    "ID: " + r.sessionId + "User: " + r.owningUserName
  }

  function JoiningText(r: SearchResult): string
  {
    "Joining Match Type: " + SettingOf(r.settings, MatchTypeKey)
  }

  /** One iteration of the search loop: log the result; if it matches, log,
      register a join delegate and join it. */
  function ResultEffects(enginePresent: bool, userId: string, r: SearchResult): seq<Event>
  {
    Say(enginePresent, Cyan, IdLine(r))
    + (if Matches(r) then
         Say(enginePresent, Cyan, JoiningText(r))
         + [RegisterDelegate(JoinSessionComplete), JoinSession(userId, GameSession, r)]
       else [])
  }

  /** The whole search loop over `rs`. */
  function FindCompleteEffects(enginePresent: bool, userId: string, rs: seq<SearchResult>): seq<Event>
  {
    if rs == [] then []
    else FindCompleteEffects(enginePresent, userId, rs[..|rs| - 1]) + ResultEffects(enginePresent, userId, rs[|rs| - 1])
  }

  /** One more iteration of the search loop. */
  lemma FindCompleteStep(enginePresent: bool, userId: string, rs: seq<SearchResult>, i: nat)
    requires i < |rs|
    ensures FindCompleteEffects(enginePresent, userId, rs[..i + 1])
         == FindCompleteEffects(enginePresent, userId, rs[..i]) + ResultEffects(enginePresent, userId, rs[i])
    ensures |Filter(rs[..i + 1])| == |Filter(rs[..i])| + (if Matches(rs[i]) then 1 else 0)
  {
    assert rs[..i + 1][..i] == rs[..i];
  }

  /** `FindCompleteStep` for a log that already holds `before`. */
  lemma FindCompleteLogStep(before: seq<Event>, enginePresent: bool, userId: string, rs: seq<SearchResult>, i: nat)
    requires i < |rs|
    ensures before + FindCompleteEffects(enginePresent, userId, rs[..i]) + ResultEffects(enginePresent, userId, rs[i])
         == before + FindCompleteEffects(enginePresent, userId, rs[..i + 1])
    ensures |Filter(rs[..i + 1])| == |Filter(rs[..i])| + (if Matches(rs[i]) then 1 else 0)
  {
    FindCompleteStep(enginePresent, userId, rs, i);
    var done := FindCompleteEffects(enginePresent, userId, rs[..i]);
    var step := ResultEffects(enginePresent, userId, rs[i]);
    assert before + done + step == before + (done + step);
  }

  /** Screen lines whose text starts "ID: ". */
  function IdLines(ts: seq<string>): seq<string>
  {
    if ts == [] then []
    else IdLines(ts[..|ts| - 1]) + (if "ID: " <= ts[|ts| - 1] then [ts[|ts| - 1]] else [])
  }

  lemma {:induction false} IdLinesAppend(a: seq<string>, b: seq<string>)
    ensures IdLines(a + b) == IdLines(a) + IdLines(b)
    decreases |b|
  {
    if b == [] {
      assert a + b == a;
    } else {
      var init := b[..|b| - 1];
      assert (a + b)[..|a + b| - 1] == a + init;
      assert (a + b)[|a + b| - 1] == b[|b| - 1];
      IdLinesAppend(a, init);
    }
  }

  /** The join tail of a matching iteration. */
  lemma JoinPairShape(userId: string, r: SearchResult)
    ensures var c := [RegisterDelegate(JoinSessionComplete), JoinSession(userId, GameSession, r)];
      && Joined(c) == [r]
      && Registrations(c, JoinSessionComplete) == 1
      && Registrations(c, CreateSessionComplete) == 0
      && Registrations(c, FindSessionsComplete) == 0
      && Travels(c) == [] && Texts(c) == []
      && JoinsRegistered(c)
  {
    var reg := RegisterDelegate(JoinSessionComplete);
    var join := JoinSession(userId, GameSession, r);
    OneEvent(reg);
    OneEvent(join);
    assert [reg, join] == [reg] + [join];
    assert [reg, join][..1] == [reg];
    JoinedAppend([reg], [join]);
    TravelsAppend([reg], [join]);
    TextsAppend([reg], [join]);
    RegistrationsAppend([reg], [join], JoinSessionComplete);
    RegistrationsAppend([reg], [join], CreateSessionComplete);
    RegistrationsAppend([reg], [join], FindSessionsComplete);
  }

  /** The screen lines of one iteration, and what they leave out. */
  lemma ResultSays(enginePresent: bool, r: SearchResult)
    ensures var a := Say(enginePresent, Cyan, IdLine(r));
      var b := Say(enginePresent, Cyan, JoiningText(r));
      && (forall kind :: Registrations(a, kind) == 0 && Registrations(b, kind) == 0)
      && Joined(a) == [] && Joined(b) == []
      && Travels(a) == [] && Travels(b) == []
      && JoinsRegistered(a) && JoinsRegistered(b)
  {
    SayShows(enginePresent, Cyan, IdLine(r));
    SayShows(enginePresent, Cyan, JoiningText(r));
  }

  /** What one iteration joins. */
  lemma ResultJoins(enginePresent: bool, userId: string, r: SearchResult)
    ensures Joined(ResultEffects(enginePresent, userId, r)) == if Matches(r) then [r] else []
    ensures JoinsRegistered(ResultEffects(enginePresent, userId, r))
  {
    var a := Say(enginePresent, Cyan, IdLine(r));
    ResultSays(enginePresent, r);
    if Matches(r) {
      var b := Say(enginePresent, Cyan, JoiningText(r));
      var c := [RegisterDelegate(JoinSessionComplete), JoinSession(userId, GameSession, r)];
      JoinPairShape(userId, r);
      JoinsRegisteredAppend(b, c);
      JoinsRegisteredAppend(a, b + c);
      JoinedAppend(b, c);
      JoinedAppend(a, b + c);
    } else {
      assert a + [] == a;
      assert ResultEffects(enginePresent, userId, r) == a;
    }
  }

  /** What one iteration registers and travels. */
  lemma ResultRegistrations(enginePresent: bool, userId: string, r: SearchResult)
    ensures var es := ResultEffects(enginePresent, userId, r);
      && Registrations(es, JoinSessionComplete) == (if Matches(r) then 1 else 0)
      && Registrations(es, CreateSessionComplete) == 0
      && Registrations(es, FindSessionsComplete) == 0
      && Travels(es) == []
  {
    var a := Say(enginePresent, Cyan, IdLine(r));
    ResultSays(enginePresent, r);
    if Matches(r) {
      var b := Say(enginePresent, Cyan, JoiningText(r));
      var c := [RegisterDelegate(JoinSessionComplete), JoinSession(userId, GameSession, r)];
      JoinPairShape(userId, r);
      forall kind ensures Registrations(a + (b + c), kind) == Registrations(c, kind) {
        RegistrationsAppend(b, c, kind);
        RegistrationsAppend(a, b + c, kind);
      }
      TravelsAppend(b, c);
      TravelsAppend(a, b + c);
    } else {
      assert a + [] == a;
      assert ResultEffects(enginePresent, userId, r) == a;
    }
  }

  /** What one iteration shows on screen. */
  lemma ResultEffectsTexts(enginePresent: bool, userId: string, r: SearchResult)
    ensures Texts(ResultEffects(enginePresent, userId, r)) ==
      if !enginePresent then []
      else [IdLine(r)] + (if Matches(r) then [JoiningText(r)] else [])
  {
    JoinPairShape(userId, r);
    BodyTexts(enginePresent, IdLine(r), JoiningText(r), Matches(r),
              [RegisterDelegate(JoinSessionComplete), JoinSession(userId, GameSession, r)]);
  }

  /** The lines shown by a loop body, with the match outcome `m`, the two
      lines and the join events `c` taken as parameters. */
  lemma BodyTexts(enginePresent: bool, id: string, j: string, m: bool, c: seq<Event>)
    ensures
      Texts(Say(enginePresent, Cyan, id) + (if m then Say(enginePresent, Cyan, j) + c else []))
      == (if enginePresent then [id] else []) + (if m then (if enginePresent then [j] else []) + Texts(c) else [])
  {
    var a := Say(enginePresent, Cyan, id);
    SayShows(enginePresent, Cyan, id);
    if m {
      var b := Say(enginePresent, Cyan, j);
      SayShows(enginePresent, Cyan, j);
      TextsAppend(b, c);
      TextsAppend(a, b + c);
    } else {
      assert a + [] == a;
      assert (if enginePresent then [id] else []) + [] == (if enginePresent then [id] else []);
    }
  }

  /** Of one iteration's lines, only the first is an "ID: " line. */
  lemma ResultIdLines(enginePresent: bool, userId: string, r: SearchResult)
    ensures IdLines(Texts(ResultEffects(enginePresent, userId, r))) == if enginePresent then [IdLine(r)] else []
  {
    ResultEffectsTexts(enginePresent, userId, r);
    var id := IdLine(r);
    assert "ID: " <= id;
    assert [id][..0] == [];
    assert IdLines([id]) == [id];
    if enginePresent && Matches(r) {
      var j := JoiningText(r);
      assert !("ID: " <= j) by { assert j[0] == 'J'; }
      assert [id, j][..1] == [id];
      assert IdLines([id, j]) == [id];
    } else if enginePresent {
      assert [id] + [] == [id];
    }
  }

  /** The search loop joins exactly the matching results, in result order,
      each right after registering its own join delegate. */
  lemma {:induction false} FindCompleteJoins(enginePresent: bool, userId: string, rs: seq<SearchResult>)
    ensures Joined(FindCompleteEffects(enginePresent, userId, rs)) == Filter(rs)
    ensures JoinsRegistered(FindCompleteEffects(enginePresent, userId, rs))
    decreases |rs|
  {
    if rs != [] {
      var init := rs[..|rs| - 1];
      var pre := FindCompleteEffects(enginePresent, userId, init);
      var post := ResultEffects(enginePresent, userId, rs[|rs| - 1]);
      FindCompleteJoins(enginePresent, userId, init);
      ResultJoins(enginePresent, userId, rs[|rs| - 1]);
      JoinedAppend(pre, post);
      JoinsRegisteredAppend(pre, post);
    }
  }

  /** The search loop registers one join delegate per matching result, no
      other delegate, and never travels. */
  lemma {:induction false} FindCompleteRegistrations(enginePresent: bool, userId: string, rs: seq<SearchResult>)
    ensures var es := FindCompleteEffects(enginePresent, userId, rs);
      && Registrations(es, JoinSessionComplete) == |Filter(rs)|
      && Registrations(es, CreateSessionComplete) == 0
      && Registrations(es, FindSessionsComplete) == 0
      && Travels(es) == []
    decreases |rs|
  {
    if rs != [] {
      var init := rs[..|rs| - 1];
      var pre := FindCompleteEffects(enginePresent, userId, init);
      var post := ResultEffects(enginePresent, userId, rs[|rs| - 1]);
      FindCompleteRegistrations(enginePresent, userId, init);
      ResultRegistrations(enginePresent, userId, rs[|rs| - 1]);
      RegistrationsAppend(pre, post, JoinSessionComplete);
      RegistrationsAppend(pre, post, CreateSessionComplete);
      RegistrationsAppend(pre, post, FindSessionsComplete);
      TravelsAppend(pre, post);
    }
  }

  /** The "ID: " line of each result, in order. */
  function IdLineList(rs: seq<SearchResult>): seq<string>
  {
    if rs == [] then [] else IdLineList(rs[..|rs| - 1]) + [IdLine(rs[|rs| - 1])]
  }

  lemma {:induction false} IdLineListAt(rs: seq<SearchResult>)
    ensures |IdLineList(rs)| == |rs|
    ensures forall i | 0 <= i < |rs| :: IdLineList(rs)[i] == "ID: " + rs[i].sessionId + "User: " + rs[i].owningUserName
    decreases |rs|
  {
    if rs != [] {
      var init := rs[..|rs| - 1];
      IdLineListAt(init);
      forall i | 0 <= i < |rs|
        ensures IdLineList(rs)[i] == "ID: " + rs[i].sessionId + "User: " + rs[i].owningUserName
      {
        if i < |rs| - 1 {
          assert rs[i] == init[i];
        }
      }
    }
  }

  lemma {:induction false} FindCompleteTexts(userId: string, rs: seq<SearchResult>)
    ensures var ts := Texts(FindCompleteEffects(true, userId, rs));
      |ts| == |rs| + |Filter(rs)| && IdLines(ts) == IdLineList(rs)
    decreases |rs|
  {
    if rs != [] {
      var init := rs[..|rs| - 1];
      var last := rs[|rs| - 1];
      var pre := FindCompleteEffects(true, userId, init);
      var post := ResultEffects(true, userId, last);
      assert FindCompleteEffects(true, userId, rs) == pre + post;
      assert IdLineList(rs) == IdLineList(init) + [IdLine(last)];
      FindCompleteTexts(userId, init);
      ResultIdLines(true, userId, last);
      TextsAppend(pre, post);
      IdLinesAppend(Texts(pre), Texts(post));
      ResultEffectsTexts(true, userId, last);
      assert |Texts(post)| == 1 + (if Matches(last) then 1 else 0);
    }
  }

  /** With the engine present, the loop shows exactly one "ID: ...User: ..."
      line per result, in result order, and one more line per match. */
  lemma FindCompleteIdLines(userId: string, rs: seq<SearchResult>)
    ensures var ts := Texts(FindCompleteEffects(true, userId, rs));
      && |ts| == |rs| + |Filter(rs)|
      && |IdLines(ts)| == |rs|
      && forall i | 0 <= i < |rs| :: IdLines(ts)[i] == "ID: " + rs[i].sessionId + "User: " + rs[i].owningUserName
  {
    FindCompleteTexts(userId, rs);
    IdLineListAt(rs);
  }

  /** Without an engine the loop shows nothing. */
  lemma {:induction false} FindCompleteSilentWithoutEngine(userId: string, rs: seq<SearchResult>)
    ensures Texts(FindCompleteEffects(false, userId, rs)) == []
    decreases |rs|
  {
    if rs != [] {
      var init := rs[..|rs| - 1];
      FindCompleteSilentWithoutEngine(userId, init);
      ResultEffectsTexts(false, userId, rs[|rs| - 1]);
      TextsAppend(FindCompleteEffects(false, userId, init), ResultEffects(false, userId, rs[|rs| - 1]));
    }
  }

  lemma FilterOfThree(a: SearchResult, b: SearchResult, c: SearchResult)
    requires !Matches(a) && Matches(b) && !Matches(c)
    ensures Filter([a, b, c]) == [b]
  {
    assert [a, b, c][..2] == [a, b];
    assert [a, b][..1] == [a];
    assert [a][..0] == [];
    assert Filter([a]) == [];
    assert Filter([a, b]) == [b];
  }

  /** Of three results where only the second matches, only the second is
      joined. */
  lemma OnlySecondOfThreeJoined(enginePresent: bool, userId: string, a: SearchResult, b: SearchResult, c: SearchResult)
    requires !Matches(a) && Matches(b) && !Matches(c)
    ensures Joined(FindCompleteEffects(enginePresent, userId, [a, b, c])) == [b]
  {
    FindCompleteJoins(enginePresent, userId, [a, b, c]);
    FilterOfThree(a, b, c);
  }

  /** There is no `break`: two matching results are both joined. */
  lemma BothOfTwoMatchesJoined(enginePresent: bool, userId: string, a: SearchResult, b: SearchResult)
    requires Matches(a) && Matches(b)
    ensures Joined(FindCompleteEffects(enginePresent, userId, [a, b])) == [a, b]
    ensures Registrations(FindCompleteEffects(enginePresent, userId, [a, b]), JoinSessionComplete) == 2
  {
    FindCompleteJoins(enginePresent, userId, [a, b]);
    FindCompleteRegistrations(enginePresent, userId, [a, b]);
    assert [a, b][..1] == [a];
    assert [a][..0] == [];
    assert Filter([a]) == [a];
    assert Filter([a, b]) == [a, b];
  }

  // ---------------------------------------------------------------------
  // OnJoinSessionComplete

  /** `resolved` is what `GetResolvedConnectString` yields; the address stays
      empty when it fails. */
  function JoinCompleteEffects(enginePresent: bool, controllerPresent: bool, resolved: Option<string>): seq<Event>
  {
    match resolved
    case Some(address) => Say(enginePresent, Yellow, "Connect string: " + address) + ClientTravels(controllerPresent, address)
    case None => ClientTravels(controllerPresent, "")
  }

  /** The absolute client travel, when a player controller exists. */
  function ClientTravels(controllerPresent: bool, address: string): seq<Event>
  {
    if controllerPresent then [ClientTravel(address, Absolute)] else []
  }

  lemma ClientTravelsShow(controllerPresent: bool, address: string)
    ensures var es := ClientTravels(controllerPresent, address);
      && Travels(es) == es
      && Texts(es) == []
      && Joined(es) == []
      && (forall kind :: Registrations(es, kind) == 0)
  {
    if controllerPresent {
      OneEvent(ClientTravel(address, Absolute));
    }
  }

  lemma JoinCompleteOutcome(enginePresent: bool, controllerPresent: bool, resolved: Option<string>)
    ensures var es := JoinCompleteEffects(enginePresent, controllerPresent, resolved);
      && Travels(es) == (if controllerPresent then [ClientTravel(resolved.GetOr(""), Absolute)] else [])
      && Texts(es) == (if enginePresent && resolved.Some? then ["Connect string: " + resolved.value] else [])
      && (resolved.None? && controllerPresent ==> es == [ClientTravel("", Absolute)])
      && (forall kind :: Registrations(es, kind) == 0)
      && Joined(es) == []
  {
    match resolved
    case None =>
      ClientTravelsShow(controllerPresent, "");
    case Some(address) =>
      var shown := Say(enginePresent, Yellow, "Connect string: " + address);
      var travel := ClientTravels(controllerPresent, address);
      SayShows(enginePresent, Yellow, "Connect string: " + address);
      ClientTravelsShow(controllerPresent, address);
      TravelsAppend(shown, travel);
      TextsAppend(shown, travel);
      JoinedAppend(shown, travel);
      forall kind ensures Registrations(shown + travel, kind) == 0 {
        RegistrationsAppend(shown, travel, kind);
      }
  }

  // ---------------------------------------------------------------------
  // The character

  /** The three delegate-list lengths are the registration counts of a log. */
  ghost predicate Counted(es: seq<Event>, create: nat, find: nat, join: nat)
  {
    && create == Registrations(es, CreateSessionComplete)
    && find == Registrations(es, FindSessionsComplete)
    && join == Registrations(es, JoinSessionComplete)
  }

  /** Extending a log adds the extension's registrations to each count. */
  lemma CountedExtend(es: seq<Event>, more: seq<Event>, create: nat, find: nat, join: nat)
    requires Counted(es, create, find, join)
    ensures Counted(es + more,
      create + Registrations(more, CreateSessionComplete),
      find + Registrations(more, FindSessionsComplete),
      join + Registrations(more, JoinSessionComplete))
  {
    RegistrationsAppend(es, more, CreateSessionComplete);
    RegistrationsAppend(es, more, FindSessionsComplete);
    RegistrationsAppend(es, more, JoinSessionComplete);
  }

  /** Each handler keeps the delegate-list lengths equal to the registration
      counts: creating registers one create delegate, searching one find
      delegate, the search loop one join delegate per match, and the two
      completion handlers none. */
  lemma CreateGameCounted(es: seq<Event>, create: nat, find: nat, join: nat, sessionExists: bool, hostId: string)
    requires Counted(es, create, find, join)
    ensures Counted(es + CreateGameEffects(sessionExists, hostId), create + 1, find, join)
  {
    CreateGameOrder(sessionExists, hostId);
    CountedExtend(es, CreateGameEffects(sessionExists, hostId), create, find, join);
  }

  lemma FindRequestCounted(es: seq<Event>, create: nat, find: nat, join: nat, searcherId: string, query: SearchQuery)
    requires Counted(es, create, find, join)
    ensures Counted(es + [RegisterDelegate(FindSessionsComplete), FindSessions(searcherId, query)], create, find + 1, join)
  {
    FindRequestRegistrations(searcherId, query);
    CountedExtend(es, [RegisterDelegate(FindSessionsComplete), FindSessions(searcherId, query)], create, find, join);
  }

  lemma CreateCompleteCounted(es: seq<Event>, create: nat, find: nat, join: nat,
                              enginePresent: bool, worldPresent: bool, sessionName: string, wasSuccessful: bool)
    requires Counted(es, create, find, join)
    ensures Counted(es + CreateCompleteEffects(enginePresent, worldPresent, sessionName, wasSuccessful), create, find, join)
  {
    CreateCompleteOutcome(enginePresent, worldPresent, sessionName, wasSuccessful);
    CountedExtend(es, CreateCompleteEffects(enginePresent, worldPresent, sessionName, wasSuccessful), create, find, join);
  }

  lemma FindCompleteCounted(es: seq<Event>, create: nat, find: nat, join: nat,
                            enginePresent: bool, userId: string, rs: seq<SearchResult>)
    requires Counted(es, create, find, join)
    ensures Counted(es + FindCompleteEffects(enginePresent, userId, rs), create, find, join + |Filter(rs)|)
  {
    FindCompleteRegistrations(enginePresent, userId, rs);
    CountedExtend(es, FindCompleteEffects(enginePresent, userId, rs), create, find, join);
  }

  lemma JoinCompleteCounted(es: seq<Event>, create: nat, find: nat, join: nat,
                            enginePresent: bool, controllerPresent: bool, resolved: Option<string>)
    requires Counted(es, create, find, join)
    ensures Counted(es + JoinCompleteEffects(enginePresent, controllerPresent, resolved), create, find, join)
  {
    JoinCompleteOutcome(enginePresent, controllerPresent, resolved);
    CountedExtend(es, JoinCompleteEffects(enginePresent, controllerPresent, resolved), create, find, join);
  }

  class Character {
    /** `OnlineSessionInterface.IsValid()`. */
    var interfaceValid: bool
    /** `GEngine != nullptr`. */
    var enginePresent: bool
    /** `GetWorld() != nullptr`. */
    var worldPresent: bool
    /** The preferred unique net id of the world's first local player, if any. */
    var localPlayerId: Option<string>
    /** `GetFirstLocalPlayerController() != nullptr`. */
    var playerControllerPresent: bool
    /** The query fields of the shared `SessionSearch` object. */
    var search: SearchQuery
    /** Its `SearchResults`, written by the session service. */
    var searchResults: seq<SearchResult>
    /** Everything the character has done, in order. */
    var events: seq<Event>
    /** Lengths of the interface's three completion-delegate lists. */
    var createDelegates: nat
    var findDelegates: nat
    var joinDelegates: nat

    /** The delegate lists hold one entry per registration in the log. */
    ghost predicate Valid()
      reads this
    {
      Counted(events, createDelegates, findDelegates, joinDelegates)
    }

    function PlayerId(): string
      reads this`localPlayerId
    {
      localPlayerId.GetOr("")
    }

    /** The session part of the constructor: take the subsystem's session
        interface and report which subsystem was found. */
    constructor (subsystem: Option<Subsystem>, enginePresent: bool, worldPresent: bool,
                 localPlayerId: Option<string>, playerControllerPresent: bool)
      ensures Valid()
      ensures interfaceValid == (subsystem.Some? && subsystem.value.sessionInterfaceValid)
      ensures events == if subsystem.Some? then Say(enginePresent, Blue, "Found Subsystem: " + subsystem.value.name) else []
      ensures this.enginePresent == enginePresent && this.worldPresent == worldPresent
      ensures this.localPlayerId == localPlayerId && this.playerControllerPresent == playerControllerPresent
      ensures search == SearchQuery(1, false, map[]) && searchResults == []
      ensures createDelegates == 0 && findDelegates == 0 && joinDelegates == 0
    {
      this.enginePresent := enginePresent;
      this.worldPresent := worldPresent;
      this.localPlayerId := localPlayerId;
      this.playerControllerPresent := playerControllerPresent;
      search := SearchQuery(1, false, map[]);
      searchResults := [];
      createDelegates, findDelegates, joinDelegates := 0, 0, 0;
      if subsystem.Some? {
        interfaceValid := subsystem.value.sessionInterfaceValid;
        var text := ToStrArgs(["Found Subsystem: ", subsystem.value.name]);
        ToStrArgsPair("Found Subsystem: ", subsystem.value.name);
        SayShows(enginePresent, Blue, text);
        events := Say(enginePresent, Blue, text);
      } else {
        interfaceValid := false;
        events := [];
      }
    }

    /** `GEngineInterface::AddOnScreenDebugMessage`, recorded in the log. */
    method Log(color: Color, text: string)
      modifies this`events
      ensures events == old(events) + Say(enginePresent, color, text)
    {
      events := events + Say(enginePresent, color, text);
    }

    /** `Log(color, util::to_str(a, b))` over two strings. */
    method LogPair(color: Color, a: string, b: string)
      modifies this`events
      ensures events == old(events) + Say(enginePresent, color, a + b)
    {
      var text := ToStrArgs([a, b]);
      ToStrArgsPair(a, b);
      Log(color, text);
    }

    /** `Log(color, util::to_str(a, b, c, d))` over four strings. */
    method LogFour(color: Color, a: string, b: string, c: string, d: string)
      modifies this`events
      ensures events == old(events) + Say(enginePresent, color, a + b + c + d)
    {
      var text := ToStrArgs([a, b, c, d]);
      ToStrArgsFour(a, b, c, d);
      Log(color, text);
    }

    /** `sessionExists` is whether `GetNamedSession(NAME_GameSession)` is set. */
    method CreateGameSession(sessionExists: bool)
      requires Valid()
      requires interfaceValid ==> worldPresent && localPlayerId.Some?
      modifies this`events, this`createDelegates
      ensures Valid()
      ensures events == old(events) + (if interfaceValid then CreateGameEffects(sessionExists, PlayerId()) else [])
      ensures createDelegates == old(createDelegates) + (if interfaceValid then 1 else 0)
    {
      ghost var before, create0, find0, join0 := events, createDelegates, findDelegates, joinDelegates;
      if !interfaceValid {
        return;
      }
      if sessionExists {
        events := events + [DestroySession(GameSession)];
      }
      events := events + [RegisterDelegate(CreateSessionComplete)];
      createDelegates := createDelegates + 1;
      var settings := GameSettings;
      var host := localPlayerId.value;
      events := events + [CreateSession(host, GameSession, settings)];
      assert events == before + CreateGameEffects(sessionExists, host);
      CreateGameCounted(before, create0, find0, join0, sessionExists, host);
    }

    method JoinGameSession()
      requires Valid()
      requires interfaceValid ==> worldPresent && localPlayerId.Some?
      modifies this`events, this`findDelegates, this`search
      ensures Valid()
      ensures search == if interfaceValid then PresenceQuery(old(search)) else old(search)
      ensures events == old(events) +
        (if interfaceValid then [RegisterDelegate(FindSessionsComplete), FindSessions(PlayerId(), search)] else [])
      ensures findDelegates == old(findDelegates) + (if interfaceValid then 1 else 0)
    {
      ghost var before, create0, find0, join0 := events, createDelegates, findDelegates, joinDelegates;
      if !interfaceValid {
        return;
      }
      events := events + [RegisterDelegate(FindSessionsComplete)];
      findDelegates := findDelegates + 1;
      search := search.(maxSearchResults := QueryCap);
      search := search.(isLanQuery := false);
      search := search.(querySettings := Put(search.querySettings, SearchPresence, QuerySetting(true, Equals)));
      var searcher := localPlayerId.value;
      events := events + [FindSessions(searcher, search)];
      assert events == before + [RegisterDelegate(FindSessionsComplete), FindSessions(searcher, search)];
      FindRequestCounted(before, create0, find0, join0, searcher, search);
    }

    /** Not guarded by the interface check. */
    method OnCreateSessionComplete(sessionName: string, wasSuccessful: bool)
      requires Valid()
      modifies this`events
      ensures Valid()
      ensures events == old(events) + CreateCompleteEffects(enginePresent, worldPresent, sessionName, wasSuccessful)
    {
      ghost var before, create0, find0, join0 := events, createDelegates, findDelegates, joinDelegates;
      if wasSuccessful {
        LogPair(Blue, "Created session: ", sessionName);
        if worldPresent {
          events := events + [ServerTravel(LobbyUrl)];
        }
      } else {
        LogPair(Red, "Failed to create session! ", sessionName);
      }
      assert events == before + CreateCompleteEffects(enginePresent, worldPresent, sessionName, wasSuccessful);
      CreateCompleteCounted(before, create0, find0, join0, enginePresent, worldPresent, sessionName, wasSuccessful);
    }

    /** `wasSuccessful` is never read. The world is dereferenced for every
        matching result, so it and the local player must exist when one
        matches. */
    method OnFindSessionsComplete(wasSuccessful: bool)
      requires Valid()
      requires interfaceValid && Filter(searchResults) != [] ==> worldPresent && localPlayerId.Some?
      modifies this`events, this`joinDelegates
      ensures Valid()
      ensures events == old(events) +
        (if interfaceValid then FindCompleteEffects(enginePresent, PlayerId(), searchResults) else [])
      ensures joinDelegates == old(joinDelegates) + (if interfaceValid then |Filter(searchResults)| else 0)
    {
      ghost var before, create0, find0, join0 := events, createDelegates, findDelegates, joinDelegates;
      if !interfaceValid {
        return;
      }
      HandleResults(searchResults);
      FindCompleteCounted(before, create0, find0, join0, enginePresent, PlayerId(), searchResults);
    }

    /** The search loop: handle every result, in order, with no early exit. */
    method HandleResults(results: seq<SearchResult>)
      requires Filter(results) != [] ==> worldPresent && localPlayerId.Some?
      modifies this`events, this`joinDelegates
      ensures events == old(events) + FindCompleteEffects(enginePresent, PlayerId(), results)
      ensures joinDelegates == old(joinDelegates) + |Filter(results)|
    {
      ghost var before, join0 := events, joinDelegates;
      ghost var userId := PlayerId();
      for i := 0 to |results|
        invariant events == before + FindCompleteEffects(enginePresent, userId, results[..i])
        invariant joinDelegates == join0 + |Filter(results[..i])|
      {
        var result := results[i];
        if Matches(result) {
          FilterHasMatch(results, i);
        }
        HandleResult(result);
        FindCompleteLogStep(before, enginePresent, userId, results, i);
      }
      assert results[..|results|] == results;
    }


    /** One pass of the search loop's body: log the result's id and owner,
        and join it if its match type and player-guy settings match. */
    method HandleResult(result: SearchResult)
      requires Matches(result) ==> worldPresent && localPlayerId.Some?
      modifies this`events, this`joinDelegates
      ensures events == old(events) + ResultEffects(enginePresent, PlayerId(), result)
      ensures joinDelegates == old(joinDelegates) + (if Matches(result) then 1 else 0)
    {
      var id := result.sessionId;
      var user := result.owningUserName;
      var matchType := SettingOf(result.settings, MatchTypeKey);
      var playerGuy := SettingOf(result.settings, PlayerGuyKey);
      LogFour(Cyan, "ID: ", id, "User: ", user);
      ghost var logged := events;
      assert Matches(result) <==> SameText(matchType, FreeForAll) && SameText(playerGuy, VatsalSux);
      if SameText(matchType, FreeForAll) && SameText(playerGuy, VatsalSux) {
        assert "Joining Match Type: " + matchType == JoiningText(result);
        LogPair(Cyan, "Joining Match Type: ", matchType);
        events := events + [RegisterDelegate(JoinSessionComplete)];
        joinDelegates := joinDelegates + 1;
        var player := localPlayerId.value;
        events := events + [JoinSession(player, GameSession, result)];
        assert events == logged + (Say(enginePresent, Cyan, JoiningText(result))
          + [RegisterDelegate(JoinSessionComplete), JoinSession(PlayerId(), GameSession, result)]);
      } else {
        assert events == logged + [];
      }
    }

    /** The result code is never read; `resolved` is what
        `GetResolvedConnectString(NAME_GameSession)` yields. */
    method OnJoinSessionComplete(sessionName: string, result: JoinResult, resolved: Option<string>)
      requires Valid()
      modifies this`events
      ensures Valid()
      ensures events == old(events) +
        (if interfaceValid then JoinCompleteEffects(enginePresent, playerControllerPresent, resolved) else [])
    {
      ghost var before, create0, find0, join0 := events, createDelegates, findDelegates, joinDelegates;
      if !interfaceValid {
        return;
      }
      var address := "";
      if resolved.Some? {
        address := resolved.value;
        LogPair(Yellow, "Connect string: ", address);
      }
      ghost var shown := events;
      if playerControllerPresent {
        events := events + [ClientTravel(address, Absolute)];
      }
      assert events == shown + ClientTravels(playerControllerPresent, address);
      assert events == before + JoinCompleteEffects(enginePresent, playerControllerPresent, resolved) by {
        if resolved.Some? {
          var logged := Say(enginePresent, Yellow, "Connect string: " + address);
          assert shown == before + logged;
          assert before + logged + ClientTravels(playerControllerPresent, address)
              == before + (logged + ClientTravels(playerControllerPresent, address));
        } else {
          assert shown == before;
        }
      }
      JoinCompleteCounted(before, create0, find0, join0, enginePresent, playerControllerPresent, resolved);
    }
  }

  /** Delegates are never removed: each create request adds one more create
      delegate, however many are registered already. */
  lemma CreateDelegatesAccumulate(es: seq<Event>, first: bool, second: bool, hostId: string)
    ensures Registrations(es + CreateGameEffects(first, hostId) + CreateGameEffects(second, hostId), CreateSessionComplete)
         == Registrations(es, CreateSessionComplete) + 2
  {
    var once := es + CreateGameEffects(first, hostId);
    CreateGameOrder(first, hostId);
    CreateGameOrder(second, hostId);
    RegistrationsAppend(es, CreateGameEffects(first, hostId), CreateSessionComplete);
    RegistrationsAppend(once, CreateGameEffects(second, hostId), CreateSessionComplete);
  }

  /** Delegates are never removed: searching twice leaves two find delegates
      registered. */
  method SearchTwice(c: Character)
    requires c.Valid() && c.interfaceValid && c.worldPresent && c.localPlayerId.Some?
    modifies c
    ensures c.Valid()
    ensures c.findDelegates == old(c.findDelegates) + 2
    ensures Registrations(c.events, FindSessionsComplete) == Registrations(old(c.events), FindSessionsComplete) + 2
  {
    c.JoinGameSession();
    c.JoinGameSession();
  }
}
