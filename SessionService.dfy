// The online-session interface as the character sees it: the values it
// passes in and gets back, and an ordered log of everything the character
// asks of the interface, the world, the player controller and the engine's
// on-screen message list (Source/MenuSystem/MenuSystemCharacter.cpp).

module SessionService {
  import opened GEngineInterface

  datatype Option<T> = None | Some(value: T) {
    function GetOr(default: T): T
    {
      match this
      case Some(v) => v
      case None => default
    }
  }

  /** An `IOnlineSubsystem`: its name, and whether the session interface it
      hands out is valid. */
  datatype Subsystem = Subsystem(name: string, sessionInterfaceValid: bool)

  /** The three completion delegates the character binds to its handlers. */
  datatype DelegateKind = CreateSessionComplete | FindSessionsComplete | JoinSessionComplete

  /** `EOnlineDataAdvertisementType`; the character only uses this one. */
  datatype AdvertisementType = ViaOnlineServiceAndPing

  datatype SettingValue = SettingValue(data: string, advertisement: AdvertisementType)

  /** `FOnlineSessionSettings`: the flags the character sets, and the custom
      key/value settings added with `Set`. */
  datatype SessionSettings = SessionSettings(
    isLanMatch: bool,
    numPublicConnections: int,
    allowJoinInProgress: bool,
    allowJoinViaPresence: bool,
    shouldAdvertise: bool,
    usesPresence: bool,
    useLobbiesIfAvailable: bool,
    settings: FNameMap<SettingValue>)

  /** `EOnlineComparisonOp`; the character only uses this one. */
  datatype ComparisonOp = Equals

  datatype QuerySetting = QuerySetting(value: bool, comparison: ComparisonOp)

  /** The query part of `FOnlineSessionSearch`. */
  datatype SearchQuery = SearchQuery(
    maxSearchResults: int,
    isLanQuery: bool,
    querySettings: FNameMap<QuerySetting>)

  // ---------------------------------------------------------------------
  // Unreal string comparison: `FString ==` and `FName` equality ignore the
  // case of ASCII letters and compare every other character exactly.

  function ToLowerAscii(c: char): char
  {
    if 'A' <= c <= 'Z' then (c as int + 32) as char else c
  }

  /** The text with every ASCII capital replaced by its lower-case letter. */
  function Fold(s: string): string
  {
    seq(|s|, i requires 0 <= i < |s| => ToLowerAscii(s[i]))
  }

  /** `a == b` on two `FString`s. */
  predicate SameText(a: string, b: string)
  {
    Fold(a) == Fold(b)
  }

  /** Folding twice is folding once, and a text without ASCII capitals is
      its own fold. */
  lemma FoldIdempotent(s: string)
    ensures Fold(Fold(s)) == Fold(s)
    ensures (forall i | 0 <= i < |s| :: !('A' <= s[i] <= 'Z')) ==> Fold(s) == s
  {
  }

  /** The comparison is an equivalence that only relates texts of the same
      length, and every text equals its own fold. */
  lemma SameTextIsEquivalence(a: string, b: string, c: string)
    ensures SameText(a, a)
    ensures SameText(a, b) ==> SameText(b, a) && |a| == |b|
    ensures SameText(a, b) && SameText(b, c) ==> SameText(a, c)
    ensures SameText(a, Fold(a))
  {
    FoldIdempotent(a);
  }

  /** Case variants compare equal; different letters do not. */
  lemma SameTextExamples()
    ensures SameText("FreeForAll", "freeforall")
    ensures SameText("FreeForAll", "FREEFORALL")
    ensures !SameText("FreeForAll", "FreeForAl")
    ensures !SameText("VatsalSux", "VatsalSuy")
  {
    assert Fold("FreeForAll") == "freeforall";
    assert Fold("freeforall") == "freeforall";
    assert Fold("FREEFORALL") == "freeforall";
    assert Fold("VatsalSux")[8] == 'x';
    assert Fold("VatsalSuy")[8] == 'y';
  }

  // ---------------------------------------------------------------------
  // Maps keyed by `FName`. Two names are the same `FName` exactly when they
  // are `SameText`, so an entry is indexed by the `Fold` of its name, the
  // name's case-independent identity, and keeps the spelling it was stored
  // under.

  datatype Named<V> = Named(name: string, value: V)

  predicate IndexedByName<V>(m: map<string, Named<V>>)
  {
    forall k | k in m :: k == Fold(m[k].name)
  }

  type FNameMap<V> = m: map<string, Named<V>> | IndexedByName(m) witness map[]

  /** The value stored under `name`, whatever the case of either spelling. */
  function Lookup<V>(m: FNameMap<V>, name: string): Option<V>
  {
    if Fold(name) in m then Some(m[Fold(name)].value) else None
  }

  /** `Set(name, v)`: the entry for `name`, stored under this spelling,
      replaces any entry for the same name. */
  function Put<V>(m: FNameMap<V>, name: string, v: V): FNameMap<V>
  {
    m[Fold(name) := Named(name, v)]
  }

  /** A lookup finds a value exactly when some entry's name is the same
      name, and then it finds that entry's value. */
  lemma LookupFinds<V>(m: FNameMap<V>, name: string)
    ensures Lookup(m, name).Some? <==> exists k | k in m :: SameText(m[k].name, name)
    ensures forall k | k in m && SameText(m[k].name, name) :: Lookup(m, name) == Some(m[k].value)
  {
  }

  /** After `Put`, the name put reads back the new value (in any case), and
      every other name reads what it read before. */
  lemma PutLookup<V>(m: FNameMap<V>, name: string, v: V, n: string)
    ensures Put(m, name, v).Keys == m.Keys + {Fold(name)}
    ensures Lookup(Put(m, name, v), n) == if SameText(n, name) then Some(v) else Lookup(m, n)
  {
  }

  /** `FOnlineSessionSearchResult`: session id, owning user name and the
      session's string-valued custom settings, keyed by `FName`. */
  datatype SearchResult = SearchResult(
    sessionId: string,
    owningUserName: string,
    settings: FNameMap<string>)

  /** `EOnJoinSessionCompleteResult::Type`. */
  datatype JoinResult =
    | Success
    | SessionIsFull
    | SessionDoesNotExist
    | CouldNotRetrieveAddress
    | AlreadyInSession
    | UnknownError

  /** `ETravelType`. */
  datatype TravelType = Absolute | Partial | Relative

  /** One observable action of the character, in the order it happens. */
  datatype Event =
    | RegisterDelegate(kind: DelegateKind)
    | DestroySession(name: string)
    | CreateSession(hostId: string, name: string, settings: SessionSettings)
    | FindSessions(searcherId: string, query: SearchQuery)
    | JoinSession(userId: string, name: string, result: SearchResult)
    | ServerTravel(url: string)
    | ClientTravel(address: string, travelType: TravelType)
    | Screen(message: DebugMessage)

  /** The screen events for what `AddOnScreenDebugMessage` forwards. */
  function Say(enginePresent: bool, color: Color, text: string): (es: seq<Event>)
  {
    Screens(Forwarded(enginePresent, color, text))
  }

  function Screens(ms: seq<DebugMessage>): seq<Event>
  {
    if ms == [] then [] else Screens(ms[..|ms| - 1]) + [Screen(ms[|ms| - 1])]
  }

  // ---------------------------------------------------------------------
  // Projections of a log. Each is defined on the last event, so that a log
  // growing one event at a time grows each projection by its image.

  /** How many delegates of `kind` the log registers. */
  function Registrations(es: seq<Event>, kind: DelegateKind): nat
  {
    if es == [] then 0
    else Registrations(es[..|es| - 1], kind) + (if es[|es| - 1] == RegisterDelegate(kind) then 1 else 0)
  }

  /** The search results joined, in order. */
  function Joined(es: seq<Event>): seq<SearchResult>
  {
    if es == [] then []
    else Joined(es[..|es| - 1]) + (if es[|es| - 1].JoinSession? then [es[|es| - 1].result] else [])
  }

  /** The texts shown on screen, in order. */
  function Texts(es: seq<Event>): seq<string>
  {
    if es == [] then []
    else Texts(es[..|es| - 1]) + (if es[|es| - 1].Screen? then [es[|es| - 1].message.text] else [])
  }

  /** The travels performed, in order. */
  function Travels(es: seq<Event>): seq<Event>
  {
    if es == [] then []
    else
      var last := es[|es| - 1];
      Travels(es[..|es| - 1]) + (if last.ServerTravel? || last.ClientTravel? then [last] else [])
  }

  /** Every join is immediately preceded by the registration of a join
      delegate. */
  predicate JoinsRegistered(es: seq<Event>)
  {
    if es == [] then true
    else
      && JoinsRegistered(es[..|es| - 1])
      && (es[|es| - 1].JoinSession? ==> |es| >= 2 && es[|es| - 2] == RegisterDelegate(JoinSessionComplete))
  }

  /** `JoinsRegistered`, position by position. */
  lemma {:induction false} JoinsRegisteredAt(es: seq<Event>, k: nat)
    requires JoinsRegistered(es)
    requires k < |es| && es[k].JoinSession?
    ensures 0 < k && es[k - 1] == RegisterDelegate(JoinSessionComplete)
    decreases |es|
  {
    if k < |es| - 1 {
      var init := es[..|es| - 1];
      assert init[k] == es[k];
      JoinsRegisteredAt(init, k);
      assert init[k - 1] == es[k - 1];
    }
  }

  lemma {:induction false} RegistrationsAppend(a: seq<Event>, b: seq<Event>, kind: DelegateKind)
    ensures Registrations(a + b, kind) == Registrations(a, kind) + Registrations(b, kind)
    decreases |b|
  {
    if b == [] {
      assert a + b == a;
    } else {
      var init := b[..|b| - 1];
      assert (a + b)[..|a + b| - 1] == a + init;
      assert (a + b)[|a + b| - 1] == b[|b| - 1];
      RegistrationsAppend(a, init, kind);
    }
  }

  lemma {:induction false} JoinedAppend(a: seq<Event>, b: seq<Event>)
    ensures Joined(a + b) == Joined(a) + Joined(b)
    decreases |b|
  {
    if b == [] {
      assert a + b == a;
    } else {
      var init := b[..|b| - 1];
      assert (a + b)[..|a + b| - 1] == a + init;
      assert (a + b)[|a + b| - 1] == b[|b| - 1];
      JoinedAppend(a, init);
    }
  }

  lemma {:induction false} TextsAppend(a: seq<Event>, b: seq<Event>)
    ensures Texts(a + b) == Texts(a) + Texts(b)
    decreases |b|
  {
    if b == [] {
      assert a + b == a;
    } else {
      var init := b[..|b| - 1];
      assert (a + b)[..|a + b| - 1] == a + init;
      assert (a + b)[|a + b| - 1] == b[|b| - 1];
      TextsAppend(a, init);
    }
  }

  lemma {:induction false} TravelsAppend(a: seq<Event>, b: seq<Event>)
    ensures Travels(a + b) == Travels(a) + Travels(b)
    decreases |b|
  {
    if b == [] {
      assert a + b == a;
    } else {
      var init := b[..|b| - 1];
      assert (a + b)[..|a + b| - 1] == a + init;
      assert (a + b)[|a + b| - 1] == b[|b| - 1];
      TravelsAppend(a, init);
    }
  }

  /** The projections of a one-event log. */
  lemma OneEvent(e: Event)
    ensures forall kind :: Registrations([e], kind) == if e == RegisterDelegate(kind) then 1 else 0
    ensures Joined([e]) == if e.JoinSession? then [e.result] else []
    ensures Texts([e]) == if e.Screen? then [e.message.text] else []
    ensures Travels([e]) == if e.ServerTravel? || e.ClientTravel? then [e] else []
    ensures JoinsRegistered([e]) == !e.JoinSession?
  {
    assert [e][..0] == [];
  }

  lemma {:induction false} JoinsRegisteredAppend(a: seq<Event>, b: seq<Event>)
    requires JoinsRegistered(a) && JoinsRegistered(b)
    ensures JoinsRegistered(a + b)
    decreases |b|
  {
    if b == [] {
      assert a + b == a;
    } else {
      var init := b[..|b| - 1];
      var ab := a + b;
      assert ab[..|ab| - 1] == a + init;
      assert ab[|ab| - 1] == b[|b| - 1];
      JoinsRegisteredAppend(a, init);
      if b[|b| - 1].JoinSession? {
        assert ab[|ab| - 2] == b[|b| - 2];
      }
    }
  }

  /** A screen log shows exactly its text when the engine is present, and
      nothing else is recorded. */
  lemma SayShows(enginePresent: bool, color: Color, text: string)
    ensures Texts(Say(enginePresent, color, text)) == if enginePresent then [text] else []
    ensures |Say(enginePresent, color, text)| == if enginePresent then 1 else 0
    ensures forall kind :: Registrations(Say(enginePresent, color, text), kind) == 0
    ensures Joined(Say(enginePresent, color, text)) == []
    ensures Travels(Say(enginePresent, color, text)) == []
    ensures JoinsRegistered(Say(enginePresent, color, text))
  {
    var es := Say(enginePresent, color, text);
    if enginePresent {
      var m := DebugMessage(MessageKey, DisplaySeconds, color, text);
      assert [m][..0] == [];
      assert Forwarded(enginePresent, color, text) == [m];
      assert Screens([m]) == Screens([]) + [Screen(m)];
      assert es == [Screen(m)];
      OneEvent(Screen(m));
    } else {
      assert es == [];
    }
  }
}
