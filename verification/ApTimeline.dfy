/** How long a silent station lives, over any interleaving with the events of other stations. */
module ApTimeline {
  import opened Wrappers
  import opened MacAddress
  import opened ApState
  import opened ApPool
  import opened ApHandlers
  import opened ApExpiry
  import opened ApRun

  // ---- events of other stations --------------------------------------------------------------

  function AddressOf(e: Event): (r: Option<Mac>) {
    match e
    case AuthEvent(_, _, f) => Some(f.sa)
    case AssocEvent(f) => Some(f.sa)
    case StaAssocDone(addr) => Some(addr)
    case Remove(addr) => Some(addr)
    case AddSta(addr, _, _) => Some(addr)
    case SetBeacon(own) => Some(own)
    case Received(addr) => Some(addr)
    case PowerSave(addr, _) => Some(addr)
    case _ => None
  }

  /** The event is a tick, or it does not concern the station with this address. */
  predicate Elsewhere(e: Event, addr: Mac) {
    !e.FlushEvent? && !e.Disassociate? && !(e.SetBeacon? && addr == BROADCAST) && (AddressOf(e).Some? ==> Canonical(AddressOf(e).value) != addr)
  }

  ghost predicate Untouched(s: Ap, r: Ap, x: nat)
    requires Shape(s) && Shape(r) && x < NUM_STA
  {
    && InUse(r, x) && r.sta[x] == s.sta[x]
    && (x in r.auth <==> x in s.auth) && (x in r.asoc <==> x in s.asoc)
  }

  lemma AuthUntouched(s: Ap, cfg: Config, authMode: nat, wep: bool, f: AuthFrame, x: nat)
    requires Good(cfg, s) && InUse(s, x) && Canonical(f.sa) != s.sta[x].hwaddr
    ensures ChainsInRange(s)
    ensures Untouched(s, OnAuth(s, cfg, authMode, wep, f).0, x)
  {
    LookupRefinesMap(s, f.sa);
    AllocOther(s, f.sa, x);
  }

  lemma AllocOther(s: Ap, addr: Mac, x: nat)
    requires Pool(s) && Queues(s) && InUse(s, x)
    ensures Untouched(s, Alloc(s, addr).0, x)
    ensures var slot := Alloc(s, addr).1; slot.Some? ==> slot.value != x
  {
    assert s.free != [] ==> s.free[0] in s.free;
    assert s.free != [] ==> forall y :: y in s.free[1..] ==> y in s.free;
  }

  lemma BeaconUntouched(s: Ap, own: Mac, x: nat)
    requires Pool(s) && Queues(s) && InUse(s, x) && s.sta[x].hwaddr != BROADCAST
    ensures ChainsInRange(s)
    ensures Untouched(s, ApState.SetBeacon(s, own), x)
  {
    LookupRefinesMap(s, BROADCAST);
    PoolFrame(s, UpdateBmc(s));
    AllocOther(UpdateBmc(s), own, x);
  }

  lemma AssocUntouched(s: Ap, cfg: Config, f: AssocFrame, x: nat)
    requires Good(cfg, s) && InUse(s, x) && Canonical(f.sa) != s.sta[x].hwaddr
    ensures ChainsInRange(s)
    ensures Untouched(s, OnAssocReq(s, cfg, f).0, x)
  {
    LookupRefinesMap(s, f.sa);
  }

  lemma ApFreeUntouched(s: Ap, cfg: Config, x: nat, y: nat)
    requires Good(cfg, s) && InUse(s, x) && InUse(s, y) && x != y
    ensures Untouched(s, ApFreeSta(s, cfg, y), x)
  {
    ApFreeKeepsGood(s, cfg, y);
  }

  lemma OnStationUntouched(s: Ap, cfg: Config, e: Event, x: nat, y: nat)
    requires Good(cfg, s) && InUse(s, x) && InUse(s, y) && x != y
    ensures Untouched(s, OnStation(s, cfg, e, y), x)
  {
    if e.Remove? {
      ApFreeUntouched(s, cfg, x, y);
    }
  }

  lemma OnAllUntouched(s: Ap, cfg: Config, e: Event, x: nat)
    requires Good(cfg, s) && InUse(s, x) && !OneStation(e)
    requires Elsewhere(e, s.sta[x].hwaddr) && !e.TickEvent?
    ensures Untouched(s, OnAll(s, cfg, e), x)
  {
    match e
    case AuthEvent(authMode, wep, f) => AuthUntouched(s, cfg, authMode, wep, f, x);
    case AssocEvent(f) => AssocUntouched(s, cfg, f, x);
    case SetBeacon(own) => BeaconUntouched(s, own, x);
    case _ =>
  }

  lemma StepUntouched(s: Ap, cfg: Config, e: Event, x: nat)
    requires ValidConfig(cfg) && Good(cfg, s) && InUse(s, x)
    requires Elsewhere(e, s.sta[x].hwaddr) && !e.TickEvent?
    ensures Untouched(s, Step(s, cfg, e), x)
  {
    AddresseeIsFound(s, e);
    if !OneStation(e) {
      OnAllUntouched(s, cfg, e, x);
    } else if y: nat :| Addressee(s, e) == Some(y) {
      OnStationUntouched(s, cfg, e, x, y);
    }
  }

  // ---- the life of a silent station ----------------------------------------------------------

  function Ticks(es: seq<Event>): (r: nat) {
    if es == [] then 0 else (if es[0].TickEvent? then 1 else 0) + Ticks(es[1..])
  }

  /** An associated, awake station with nothing received since the last tick. */
  ghost predicate SilentListed(s: Ap, x: nat)
    requires Shape(s)
  {
    x < NUM_STA && InUse(s, x) && x in s.asoc && !Alive(s.sta[x])
  }

  lemma SilentTick(s: Ap, cfg: Config, x: nat)
    requires Good(cfg, s) && SilentListed(s, x) && s.sta[x].expireTo > 0
    ensures AllBelow(s.auth, NUM_STA) && Shape(Tick(s, cfg))
    ensures var r := Tick(s, cfg);
      if s.sta[x].expireTo == 1 then !InUse(r, x)
      else SilentListed(r, x) && r.sta[x].hwaddr == s.sta[x].hwaddr && r.sta[x].expireTo == s.sta[x].expireTo - 1
  {
    TickEffect(s, cfg);
    assert AsocVisited(s, cfg, Tick(s, cfg), x);
  }

  lemma SilentStep(s: Ap, cfg: Config, e: Event, x: nat)
    requires ValidConfig(cfg) && Good(cfg, s) && OwnAid(cfg, s, e) && SilentListed(s, x) && Elsewhere(e, s.sta[x].hwaddr)
    requires s.sta[x].expireTo > (if e.TickEvent? then 1 else 0)
    ensures var r := Step(s, cfg, e);
      && Good(cfg, r) && SilentListed(r, x) && r.sta[x].hwaddr == s.sta[x].hwaddr
      && r.sta[x].expireTo == s.sta[x].expireTo - if e.TickEvent? then 1 else 0
  {
    StepKeepsGood(s, cfg, e);
    if e.TickEvent? {
      SilentTick(s, cfg, x);
    } else {
      StepUntouched(s, cfg, e, x);
    }
  }

  /** Before its last tick a silent station stays listed and its countdown counts the ticks. */
  lemma {:induction false} SilentRun(s: Ap, cfg: Config, es: seq<Event>, x: nat)
    requires ValidConfig(cfg) && Good(cfg, s) && Truthful(s, cfg, es) && SilentListed(s, x) && Ticks(es) < s.sta[x].expireTo
    requires forall i :: 0 <= i < |es| ==> Elsewhere(es[i], s.sta[x].hwaddr)
    ensures var r := Run(s, cfg, es);
      && SilentListed(r, x) && r.sta[x].hwaddr == s.sta[x].hwaddr
      && r.sta[x].expireTo == s.sta[x].expireTo - Ticks(es)
    decreases |es|
  {
    if es != [] {
      SilentStep(s, cfg, es[0], x);
      SilentRun(Step(s, cfg, es[0]), cfg, es[1..], x);
    }
  }

  /**
   A station that falls silent right after a tick that found it alive is still listed through the
   next expire_to - 2 ticks and is freed by the (expire_to - 1)-th, whatever other stations do.
   */
  lemma SilentStationExpires(s: Ap, cfg: Config, es: seq<Event>, x: nat)
    requires ValidConfig(cfg) && Good(cfg, s) && x < NUM_STA && x in s.asoc && Alive(s.sta[x]) && cfg.expireTo >= 2
    requires !s.sta[x].state.sleep
    requires forall i :: 0 <= i < |es| ==> Elsewhere(es[i], s.sta[x].hwaddr)
    requires Ticks(es) == cfg.expireTo - 2 && Truthful(s, cfg, [TickEvent] + es)
    ensures var r := Run(s, cfg, [TickEvent] + es);
      && InUse(r, x) && x in r.asoc && r.sta[x].hwaddr == s.sta[x].hwaddr
      && AllBelow(r.auth, NUM_STA) && !InUse(Tick(r, cfg), x)
  {
    FallsSilent(s, cfg, x);
    RunCons(s, cfg, TickEvent, es);
    SilentThenGone(Step(s, cfg, TickEvent), cfg, es, x);
  }

  /** The tick that finds a station alive starts its countdown and forgets what it has received. */
  lemma FallsSilent(s: Ap, cfg: Config, x: nat)
    requires Good(cfg, s) && x < NUM_STA && x in s.asoc && Alive(s.sta[x]) && cfg.expireTo >= 2 && !s.sta[x].state.sleep
    ensures var r := Step(s, cfg, TickEvent);
      && Good(cfg, r) && SilentListed(r, x)
      && r.sta[x].hwaddr == s.sta[x].hwaddr && r.sta[x].expireTo == cfg.expireTo - 1
  {
    TickEffect(s, cfg);
    assert AsocVisited(s, cfg, Tick(s, cfg), x);
  }

  lemma SilentThenGone(s: Ap, cfg: Config, es: seq<Event>, x: nat)
    requires ValidConfig(cfg) && Good(cfg, s) && Truthful(s, cfg, es) && SilentListed(s, x) && Ticks(es) + 1 == s.sta[x].expireTo
    requires forall i :: 0 <= i < |es| ==> Elsewhere(es[i], s.sta[x].hwaddr)
    ensures var r := Run(s, cfg, es);
      && InUse(r, x) && x in r.asoc && r.sta[x].hwaddr == s.sta[x].hwaddr
      && AllBelow(r.auth, NUM_STA) && !InUse(Tick(r, cfg), x)
  {
    SilentRun(s, cfg, es, x);
    SilentTick(Run(s, cfg, es), cfg, x);
  }

  /** With an expiry of at least two, a tick never frees an associated station it finds alive. */
  lemma AliveSurvives(s: Ap, cfg: Config, x: nat)
    requires Good(cfg, s) && x in s.asoc && x < NUM_STA && Alive(s.sta[x]) && cfg.expireTo >= 2
    ensures AllBelow(s.auth, NUM_STA)
    ensures var r := Tick(s, cfg); Shape(r) && InUse(r, x) && x in r.asoc && r.sta[x].expireTo == cfg.expireTo - 1
  {
    TickEffect(s, cfg);
    assert AsocVisited(s, cfg, Tick(s, cfg), x);
  }

  lemma AuthTick(s: Ap, cfg: Config, x: nat)
    requires Good(cfg, s) && x in s.auth && x < NUM_STA && s.sta[x].expireTo > 0
    ensures InUse(s, x) && AllBelow(s.auth, NUM_STA)
    ensures var r := Tick(s, cfg);
      if s.sta[x].expireTo == 1 then !InUse(r, x)
      else x in r.auth && r.sta[x].hwaddr == s.sta[x].hwaddr && r.sta[x].expireTo == s.sta[x].expireTo - 1
  {
    TickEffect(s, cfg);
    assert AuthVisited(s, Tick(s, cfg), x);
  }

  lemma AuthLeftAlone(s: Ap, cfg: Config, e: Event, x: nat)
    requires ValidConfig(cfg) && Good(cfg, s) && OwnAid(cfg, s, e) && x in s.auth && x < NUM_STA && Elsewhere(e, s.sta[x].hwaddr)
    requires s.sta[x].expireTo > (if e.TickEvent? then 1 else 0)
    ensures var r := Step(s, cfg, e);
      && Good(cfg, r) && x in r.auth && r.sta[x].hwaddr == s.sta[x].hwaddr
      && r.sta[x].expireTo == s.sta[x].expireTo - if e.TickEvent? then 1 else 0
  {
    StepKeepsGood(s, cfg, e);
    if e.TickEvent? {
      AuthTick(s, cfg, x);
    } else {
      StepUntouched(s, cfg, e, x);
    }
  }

  /** A station on auth_list that is left alone is freed by the tick its countdown asks for. */
  lemma {:induction false} AuthStationExpires(s: Ap, cfg: Config, es: seq<Event>, x: nat)
    requires ValidConfig(cfg) && Good(cfg, s) && Truthful(s, cfg, es) && x in s.auth && x < NUM_STA && Ticks(es) + 1 == s.sta[x].expireTo
    requires forall i :: 0 <= i < |es| ==> Elsewhere(es[i], s.sta[x].hwaddr)
    ensures var r := Run(s, cfg, es); InUse(r, x) && AllBelow(r.auth, NUM_STA) && !InUse(Tick(r, cfg), x)
    decreases |es|
  {
    if es == [] {
      AuthTick(s, cfg, x);
    } else {
      AuthLeftAlone(s, cfg, es[0], x);
      AuthStationExpires(Step(s, cfg, es[0]), cfg, es[1..], x);
    }
  }
}
