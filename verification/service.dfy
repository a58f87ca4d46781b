/**
  The service entry points: the `backends` table pairing each supported
  light type with its handler and last requested state, `setLight`'s
  table lookup and dispatch, `getSupportedTypes`, and properties of whole
  call sequences.
 */
module LightService {
  import opened LightTypes
  import opened Encoder
  import opened Arbiter

  /** One entry of the `backends` table; its handler is determined by its type. */
  datatype Backend = Backend(kind: Type, state: LightState)

  /** The table's types, in the table's order ("sorted in the order of importance"). */
  const BackendTypes: seq<Type> := [Attention, Notifications, Battery, Backlight, Buttons]

  /** The whole service state: the backends table and the arbiter's cache. */
  datatype Service = Service(backends: seq<Backend>, cache: Cache)

  /** The table holds exactly the supported types, in table order. */
  predicate WellFormed(svc: Service)
  {
    && |svc.backends| == |BackendTypes|
    && forall i :: 0 <= i < |svc.backends| ==> svc.backends[i].kind == BackendTypes[i]
  }

  /** The service at start-up. */
  const InitialService: Service :=
    Service([Backend(Attention, Dark), Backend(Notifications, Dark), Backend(Battery, Dark),
             Backend(Backlight, Dark), Backend(Buttons, Dark)], InitialCache)

  /** The types outside the table: keyboard, bluetooth and wifi. */
  lemma SupportedTypes(t: Type)
    ensures t in BackendTypes <==> !(t in {Keyboard, Bluetooth, Wifi})
  {
  }

  /** The handler the table pairs with a supported type. */
  function Handle(c: Cache, t: Type, s: LightState, hw: Hardware): Step
    requires t in BackendTypes
  {
    match t
    case Attention => HandleAttention(c, s, hw)
    case Notifications => HandleNotification(c, s, hw)
    case Battery => HandleBattery(c, s, hw)
    case Backlight => HandleBacklight(c, s, hw)
    case Buttons => HandleButtons(c, s, hw)
  }

  /** The table after caching `s` as the state of type `t`. */
  function Remember(backends: seq<Backend>, t: Type, s: LightState): (r: seq<Backend>)
    ensures |r| == |backends|
    ensures forall i :: 0 <= i < |r| ==> r[i].kind == backends[i].kind
    ensures forall i :: 0 <= i < |r| ==> r[i].state == if backends[i].kind == t then s else backends[i].state
  {
    seq(|backends|, i requires 0 <= i < |backends| =>
      if backends[i].kind == t then Backend(t, s) else backends[i])
  }

  /** What one `setLight` call returns, leaves behind and writes. */
  datatype Outcome = Outcome(status: Status, service: Service, writes: seq<Write>)

  /** Reference behaviour of `setLight`: run the handler of a supported type, refuse the rest. */
  function Dispatch(svc: Service, t: Type, s: LightState, hw: Hardware): (r: Outcome)
    requires WellFormed(svc)
    ensures WellFormed(r.service)
    ensures t !in BackendTypes ==> r == Outcome(LightNotSupported, svc, [])
    ensures t in BackendTypes ==> r.status == Success
  {
    if t in BackendTypes then
      var step := Handle(svc.cache, t, s, hw);
      Outcome(Success, Service(Remember(svc.backends, t, s), step.cache), step.writes)
    else
      Outcome(LightNotSupported, svc, [])
  }

  /**
    `Light::setLight`: the first loop caches the request in the entry of its
    type and picks up that entry's handler; no handler means the type is not
    supported. The second loop looks, in table order, for a lit entry with
    the same handler and calls the handler on that entry's state; when none
    is lit the handler is called on the request itself. Handlers are one per
    type, so they are compared by type.
   */
  method SetLight(svc: Service, t: Type, s: LightState, hw: Hardware) returns (r: Outcome)
    requires WellFormed(svc)
    ensures r == Dispatch(svc, t, s, hw)
    ensures t !in BackendTypes ==> r.status == LightNotSupported && r.service == svc && r.writes == []
  {
    var backends := svc.backends;
    var handler: Type := t;
    var found := false;
    var i := 0;
    while i < |backends|
      invariant 0 <= i <= |backends| == |svc.backends|
      invariant forall j :: 0 <= j < |backends| ==> backends[j].kind == svc.backends[j].kind
      invariant forall j :: 0 <= j < i ==> backends[j] == Remember(svc.backends, t, s)[j]
      invariant forall j :: i <= j < |backends| ==> backends[j] == svc.backends[j]
      invariant found <==> exists j :: 0 <= j < i && svc.backends[j].kind == t
      invariant found ==> handler == t
    {
      if backends[i].kind == t {
        backends := backends[i := Backend(backends[i].kind, s)];
        handler := backends[i].kind;
        found := true;
      }
      i := i + 1;
    }
    assert backends == Remember(svc.backends, t, s);

    if !found {
      return Outcome(LightNotSupported, svc, []);
    }
    assert t in BackendTypes;

    var handled := false;
    var step: Step := Step(svc.cache, []);
    i := 0;
    while i < |backends| && !handled
      invariant 0 <= i <= |backends|
      invariant handled ==> step == Handle(svc.cache, t, s, hw)
    {
      if backends[i].kind == handler && IsLit(backends[i].state) {
        step := Handle(svc.cache, handler, backends[i].state, hw);
        handled := true;
      }
      i := i + 1;
    }

    if !handled {
      step := Handle(svc.cache, handler, s, hw);
    }
    r := Outcome(Success, Service(backends, step.cache), step.writes);
  }

  /** `Light::getSupportedTypes`: the table's types, in table order. */
  method GetSupportedTypes(svc: Service) returns (types: seq<Type>)
    requires WellFormed(svc)
    ensures |types| == |svc.backends|
    ensures forall i :: 0 <= i < |types| ==> types[i] == svc.backends[i].kind
    ensures types == [Attention, Notifications, Battery, Backlight, Buttons]
  {
    types := [];
    var i := 0;
    while i < |svc.backends|
      invariant 0 <= i <= |svc.backends|
      invariant types == BackendTypes[..i]
    {
      types := types + [svc.backends[i].kind];
      i := i + 1;
    }
  }

  // ---------------------------------------------------------------------
  // Properties of single calls
  // ---------------------------------------------------------------------

  /**
    Every call on a multiplexed type writes exactly the encoding of the
    highest-priority lit source of the new cache; a backlight call writes
    only the backlight register and leaves the cache alone.
   */
  lemma SharedLedFollowsOwner(svc: Service, t: Type, s: LightState, hw: Hardware)
    requires WellFormed(svc) && t in {Attention, Notifications, Battery}
    ensures var r := Dispatch(svc, t, s, hw);
      var owner := Owner(r.service.cache);
      r.writes == BreathingLight(owner, StateOf(r.service.cache, owner), hw)
  {
  }

  lemma BacklightIsIndependent(svc: Service, s: LightState, hw: Hardware)
    requires WellFormed(svc)
    ensures var r := Dispatch(svc, Backlight, s, hw);
      && r.service.cache == svc.cache
      && forall i :: 0 <= i < |r.writes| ==> r.writes[i].reg == LcdBrightness
  {
  }

  /**
    The entries of the backends table are written but never consulted for
    the outcome: two services that differ only in those entries give the
    same writes and the same cache.
   */
  lemma TableStatesDoNotMatter(svc: Service, svc': Service, t: Type, s: LightState, hw: Hardware)
    requires WellFormed(svc) && WellFormed(svc') && svc.cache == svc'.cache
    ensures Dispatch(svc, t, s, hw).writes == Dispatch(svc', t, s, hw).writes
    ensures Dispatch(svc, t, s, hw).service.cache == Dispatch(svc', t, s, hw).service.cache
  {
  }

  /** Repeating a battery request with the same live battery readings repeats the writes. */
  lemma BatteryRepeatIsIdempotent(svc: Service, s: LightState, hw: Hardware)
    requires WellFormed(svc)
    ensures var r1 := Dispatch(svc, Battery, s, hw);
      var r2 := Dispatch(r1.service, Battery, s, hw);
      r2.writes == r1.writes && r2.service == r1.service
  {
    var r1 := Dispatch(svc, Battery, s, hw);
    var r2 := Dispatch(r1.service, Battery, s, hw);
    assert r1.service.cache.battery == s;
    assert r2.service.cache == r1.service.cache;
    assert Remember(r1.service.backends, Battery, s) == r1.service.backends;
  }

  /**
    End to end: with attention and notification both lit, only attention's
    encoding is written; a dark attention request next writes the
    notification's encoding.
   */
  lemma AttentionThenNotification(svc: Service, a: LightState, n: LightState, hw: Hardware, hw': Hardware)
    requires WellFormed(svc) && IsLit(a) && IsLit(ScaleByAlpha(n))
    ensures var r1 := Dispatch(svc, Notifications, n, hw);
      var r2 := Dispatch(r1.service, Attention, a, hw);
      var r3 := Dispatch(r2.service, Attention, Dark, hw');
      && r2.writes == BreathingLight(FromAttention, a, hw)
      && r3.writes == BreathingLight(FromNotification, ScaleByAlpha(n), hw')
  {
    var r1 := Dispatch(svc, Notifications, n, hw);
    var r2 := Dispatch(r1.service, Attention, a, hw);
    assert r2.service.cache.notification == ScaleByAlpha(n);
    ClearingAttentionRestoresNotification(r2.service.cache, Dark, hw');
  }

  /** The shared-LED writes are empty or begin by selecting the home channel. */
  lemma BreatheSelectsHome(c: Cache, hw: Hardware)
    ensures var ws := Breathe(c, hw); |ws| == 0 || ws[0] == Write(LedChannel, Num(ChannelHome))
  {
  }

  /** A sequence whose first write is not to the fade register is not the initialisation. */
  lemma NotKill(ws: seq<Write>)
    requires |ws| == 0 || ws[0].reg != LedFade
    ensures !StartsWithKill(ws)
  {
    if |ws| >= |KillButtons| {
      assert ws[..|KillButtons|][0] == ws[0];
    }
  }

  /** The button-key initialisation heads a call's writes exactly on the first bright button request. */
  lemma KillHeadsOnlyFirstBrightButtons(svc: Service, t: Type, s: LightState, hw: Hardware)
    requires WellFormed(svc)
    ensures var r := Dispatch(svc, t, s, hw);
      && (StartsWithKill(r.writes) <==> t == Buttons && !svc.cache.initialized && Luma(s) > 0)
      && (r.service.cache.initialized <==> svc.cache.initialized || (t == Buttons && Luma(s) > 0))
  {
    var r := Dispatch(svc, t, s, hw);
    var c := r.service.cache;
    BreatheSelectsHome(c, hw);
    var b := Breathe(c, hw);
    match t {
      case Buttons =>
        var step := HandleButtons(svc.cache, s, hw);
        assert r.writes == step.writes;
        if Luma(s) == 0 {
          assert r.writes == ButtonsOff + b;
          NotKill(r.writes);
        } else if svc.cache.initialized {
          assert r.writes == b + ButtonsOn(Luma(s));
          NotKill(r.writes);
        } else {
          assert r.writes == KillButtons + b + ButtonsOn(Luma(s));
          assert r.writes[..|KillButtons|] == KillButtons;
        }
      case Backlight =>
        NotKill(r.writes);
      case Attention =>
        assert r.writes == b;
        NotKill(r.writes);
      case Notifications =>
        assert r.writes == b;
        NotKill(r.writes);
      case Battery =>
        assert r.writes == b;
        NotKill(r.writes);
      case _ =>
        NotKill(r.writes);
    }
  }

  /** A write sequence that begins with the button-key initialisation. */
  predicate StartsWithKill(ws: seq<Write>)
  {
    |ws| >= |KillButtons| && ws[..|KillButtons|] == KillButtons
  }

  // ---------------------------------------------------------------------
  // Call sequences
  // ---------------------------------------------------------------------

  /** One `setLight` call with the hardware readings it will see. */
  datatype Call = Call(kind: Type, state: LightState, hw: Hardware)

  /** The service after a sequence of calls, and each call's writes. */
  function Run(svc: Service, calls: seq<Call>): (r: (Service, seq<seq<Write>>))
    requires WellFormed(svc)
    ensures WellFormed(r.0) && |r.1| == |calls|
    decreases |calls|
  {
    if |calls| == 0 then (svc, [])
    else
      var o := Dispatch(svc, calls[0].kind, calls[0].state, calls[0].hw);
      var rest := Run(o.service, calls[1..]);
      (rest.0, [o.writes] + rest.1)
  }

  /** How many of the calls' write sequences begin with the button-key initialisation. */
  function KillCount(logs: seq<seq<Write>>): nat
  {
    if |logs| == 0 then 0
    else (if StartsWithKill(logs[0]) then 1 else 0) + KillCount(logs[1..])
  }

  /**
    The button-key initialisation runs at most once over any sequence of
    calls, and never once the service is initialised.
   */
  lemma {:induction false} KillRunsAtMostOnce(svc: Service, calls: seq<Call>)
    requires WellFormed(svc)
    ensures KillCount(Run(svc, calls).1) <= if svc.cache.initialized then 0 else 1
    ensures svc.cache.initialized ==> Run(svc, calls).0.cache.initialized
    decreases |calls|
  {
    if |calls| > 0 {
      var c := calls[0];
      var o := Dispatch(svc, c.kind, c.state, c.hw);
      KillHeadsOnlyFirstBrightButtons(svc, c.kind, c.state, c.hw);
      KillRunsAtMostOnce(o.service, calls[1..]);
      var next := Run(o.service, calls[1..]);
      var logs := [o.writes] + next.1;
      assert Run(svc, calls) == (next.0, logs);
      assert logs[0] == o.writes && logs[1..] == next.1;
    }
  }

  /** The cached notification never holds a partial alpha. */
  predicate AlphaSettled(svc: Service)
  {
    Alpha(svc.cache.notification.color) in {0, 255}
  }

  /** One call keeps the cached notification's alpha at 0 or 255. */
  lemma DispatchKeepsAlphaSettled(svc: Service, t: Type, s: LightState, hw: Hardware)
    requires WellFormed(svc) && AlphaSettled(svc)
    ensures AlphaSettled(Dispatch(svc, t, s, hw).service)
  {
    var c := Dispatch(svc, t, s, hw).service.cache;
    match t {
      case Notifications =>
        ScaleByAlphaDims(s);
        assert c.notification == HandleNotification(svc.cache, s, hw).cache.notification;
      case Attention => assert c == HandleAttention(svc.cache, s, hw).cache;
      case Battery => assert c == HandleBattery(svc.cache, s, hw).cache;
      case Buttons => assert c == HandleButtons(svc.cache, s, hw).cache;
      case Backlight => assert c == HandleBacklight(svc.cache, s, hw).cache;
      case _ => assert c == svc.cache;
    }
  }

  /** Every state reachable from start-up keeps the cached notification's alpha at 0 or 255. */
  lemma {:induction false} NotificationAlphaSettled(svc: Service, calls: seq<Call>)
    requires WellFormed(svc) && AlphaSettled(svc)
    ensures AlphaSettled(Run(svc, calls).0)
    decreases |calls|
  {
    if |calls| > 0 {
      var c := calls[0];
      var o := Dispatch(svc, c.kind, c.state, c.hw);
      DispatchKeepsAlphaSettled(svc, c.kind, c.state, c.hw);
      NotificationAlphaSettled(o.service, calls[1..]);
      assert Run(svc, calls).0 == Run(o.service, calls[1..]).0;
    }
  }

  /** The start-up service is well formed and its cached notification has no partial alpha. */
  lemma InitialServiceIsSettled()
    ensures WellFormed(InitialService) && AlphaSettled(InitialService)
    ensures !InitialService.cache.initialized
  {
  }
}
