/** Runs from a fresh start on which each of the failures told apart elsewhere really happens. */
module ApWitness {
  import opened Wrappers
  import opened MacAddress
  import opened ApState
  import opened ApPool
  import opened ApInvariant
  import opened ApCounters
  import opened ApHandlers
  import opened ApExpiry
  import opened ApTeardown
  import opened ApReset
  import opened ApRun
  import opened ApSafety
  import opened ApSlots
  import opened ApTimeline

  const ALICE: Mac := [0, 0, 0, 0, 0, 1]
  const BOB: Mac := [0, 0, 0, 0, 0, 2]
  const OWN: Mac := [0, 0, 0, 0, 0, 3]
  const GROUP: Mac := [1, 0, 0, 0, 0, 0]

  function OpenAuth(addr: Mac): (r: Event) {
    AuthEvent(0, false, AuthFrame(addr, 0, 1, false))
  }

  /** A request with 1 Mb/s as its only rate, so that the station counts as non-ERP. */
  function Request(addr: Mac, refused: bool): (r: Event) {
    AssocEvent(AssocFrame(addr, false, true, true, if refused then Some(1) else None, [0x82], None, false))
  }

  lemma Unicast()
    ensures Canonical(ALICE) == ALICE && Canonical(BOB) == BOB && Canonical(OWN) == OWN && Canonical(GROUP) == BROADCAST
  {
  }

  // ---- single events -------------------------------------------------------------------------

  /** The record of a station after an accepted open exchange. */
  function Authenticated(cfg: Config, p: StaInfo): (r: StaInfo) {
    p.(state := p.state.(authNull := false, authSuccess := true), expireTo := cfg.assocTo, authSeq := 0, log := p.log + [OpenAccepted])
  }

  lemma OpenStep(p: StaInfo, cfg: Config, addr: Mac)
    requires p.authSeq == 0
    ensures AuthStep(p, cfg, 0, AuthFrame(addr, 0, 1, false)).0 == Authenticated(cfg, p)
  {
  }

  lemma Appears(s: Ap, cfg: Config, addr: Mac) returns (x: nat)
    requires ValidConfig(cfg) && Good(cfg, s) && Canonical(addr) == addr && s.free != []
    requires forall y: nat :: InUse(s, y) ==> s.sta[y].hwaddr != addr
    ensures var r := Step(s, cfg, OpenAuth(addr));
      && Good(cfg, r) && InUse(r, x) && !InUse(s, x) && x in r.auth && r.asoc == s.asoc && r.aids == s.aids
      && r.sta[x] == Authenticated(cfg, Blank(addr).(state := NO_STATE.(authNull := true)))
      && OthersKept(s, r, x) && |r.free| == |s.free| - 1
  {
    StepKeepsGood(s, cfg, OpenAuth(addr));
    LookupRefinesMap(s, addr);
    x := s.free[0];
    OpenStep(Blank(addr).(state := NO_STATE.(authNull := true)), cfg, addr);
    AllocKeepsPool(s, addr);
    assert x in s.free;
  }

  lemma Reauthenticates(s: Ap, cfg: Config, addr: Mac, x: nat)
    requires ValidConfig(cfg) && Good(cfg, s) && Canonical(addr) == addr && InUse(s, x) && s.sta[x].hwaddr == addr && s.sta[x].authSeq == 0
    ensures var r := Step(s, cfg, OpenAuth(addr));
      && Good(cfg, r) && r.aids == s.aids && r.free == s.free && x in r.auth && r.maxNumSta == s.maxNumSta
      && r.sta == s.sta[x := Authenticated(cfg, s.sta[x])]
  {
    StepKeepsGood(s, cfg, OpenAuth(addr));
    LookupRefinesMap(s, addr);
    assert Lookup(s, addr) == Some(x);
    OpenStep(s.sta[x], cfg, addr);
  }

  lemma Requests(s: Ap, cfg: Config, addr: Mac, x: nat, refused: bool)
    requires ValidConfig(cfg) && Good(cfg, s) && Canonical(addr) == addr && InUse(s, x) && s.sta[x].hwaddr == addr
    requires s.sta[x].state.authSuccess && s.maxNumSta == NUM_STA && (s.sta[x].aid == 0 ==> LeastFreeAid(s.aids) < NUM_STA)
    ensures var r := Step(s, cfg, Request(addr, refused));
      && Good(cfg, r) && r.free == s.free && r.maxNumSta == NUM_STA
      && r.sta[x].hwaddr == addr && r.sta[x].authSeq == s.sta[x].authSeq && r.sta[x].capSet == s.sta[x].capSet
      && (forall y: nat :: y < NUM_STA && y != x ==> r.sta[y] == s.sta[y])
      && r.sta[x].aid == (if refused then 0 else AidFor(s, x))
      && (refused ==> r.aids == s.aids) && (!refused ==> r.sta[x].asked.nonErp)
    ensures refused && s.sta[x].aid > 0 ==> Orphans(s, cfg, Request(addr, refused))
  {
    StepKeepsGood(s, cfg, Request(addr, refused));
    LookupRefinesMap(s, addr);
    assert Lookup(s, addr) == Some(x);
    assert [0x82 as bv8][0] & 0x7f <= 22;
  }

  lemma Completes(s: Ap, cfg: Config, addr: Mac, x: nat)
    requires ValidConfig(cfg) && Good(cfg, s) && Canonical(addr) == addr && InUse(s, x) && s.sta[x].hwaddr == addr
    ensures var r := Step(s, cfg, StaAssocDone(addr));
      && Good(cfg, r) && r.free == s.free && r.aids == s.aids && r.maxNumSta == s.maxNumSta
      && (forall y: nat :: y < NUM_STA && y != x ==> r.sta[y] == s.sta[y])
      && r.sta[x].hwaddr == addr && r.sta[x].aid == s.sta[x].aid && r.sta[x].macId == s.sta[x].aid + 1
      && r.sta[x].authSeq == s.sta[x].authSeq && r.sta[x].capSet.nonErp == s.sta[x].asked.nonErp
  {
    StepKeepsGood(s, cfg, StaAssocDone(addr));
    LookupRefinesMap(s, addr);
    assert Addressee(s, StaAssocDone(addr)) == Some(x);
    ErpBitFollows(s, cfg, x);
  }

  lemma ErpBitFollows(s: Ap, cfg: Config, x: nat)
    requires Good(cfg, s) && InUse(s, x)
    ensures BssCapUpdate(s, cfg, x).sta[x].capSet.nonErp == s.sta[x].asked.nonErp
  {
    CountedGivesRest(s, x);
    UpdateCapsEffect(CapsOf(s, x), cfg, s.sta[x].asked);
  }

  // ---- runs ----------------------------------------------------------------------------------

  /** The access point right after its first start, with nobody in use. */
  function Started(): (s: Ap)
    ensures Shape(s)
  {
    StartAp(FreshAp())
  }

  lemma StartedIsGood(cfg: Config)
    ensures var s := Started();
      && Quiet(FreshAp()) && Good(cfg, s) && |s.free| == NUM_STA && s.maxNumSta == NUM_STA
      && (forall y :: !InUse(s, y)) && forall k :: 0 <= k < NUM_STA ==> s.aids[k] == None
  {
    FreshIsQuiet();
    StartIsGood(FreshAp(), cfg);
    assert forall y :: InUse(Started(), y) ==> InUse(FreshAp(), y);
  }

  /** ALICE, alone, is associated under AID 1. */
  ghost predicate OnlyAlice(cfg: Config, s: Ap, x: nat) {
    && Good(cfg, s) && InUse(s, x) && s.sta[x].hwaddr == ALICE && s.sta[x].aid == 1 && s.sta[x].authSeq == 0
    && s.maxNumSta == NUM_STA && s.free != [] && forall y :: InUse(s, y) ==> y == x
  }

  lemma AliceAssociates(cfg: Config) returns (x: nat)
    requires ValidConfig(cfg)
    ensures Truthful0(cfg, [OpenAuth(ALICE), Request(ALICE, false)])
    ensures var s := Run0(cfg, [OpenAuth(ALICE), Request(ALICE, false)]);
      OnlyAlice(cfg, s, x) && s.sta[x].asked.nonErp
  {
    Unicast();
    StartedIsGood(cfg);
    var s0 := Started();
    x := Appears(s0, cfg, ALICE);
    var s1 := Step(s0, cfg, OpenAuth(ALICE));
    Requests(s1, cfg, ALICE, x, false);
    assert s1.aids[0] == None;
    var s2 := Step(s1, cfg, Request(ALICE, false));
    TwoEvents(s0, cfg, OpenAuth(ALICE), Request(ALICE, false));
    assert s2.free == s1.free;
  }

  ghost predicate Truthful0(cfg: Config, es: seq<Event>)
    requires ValidConfig(cfg)
  {
    StartedIsGood(cfg);
    Truthful(Started(), cfg, es)
  }

  ghost function Run0(cfg: Config, es: seq<Event>): (s: Ap)
    requires ValidConfig(cfg) && Truthful0(cfg, es)
    ensures Good(cfg, s)
  {
    StartedIsGood(cfg);
    Run(Started(), cfg, es)
  }

  lemma TwoEvents(s: Ap, cfg: Config, e: Event, f: Event)
    requires ValidConfig(cfg) && Good(cfg, s) && !e.AddSta? && !f.AddSta?
    ensures Good(cfg, Step(s, cfg, e)) && Truthful(s, cfg, [e, f])
    ensures Run(s, cfg, [e, f]) == Step(Step(s, cfg, e), cfg, f)
  {
    StepKeepsGood(s, cfg, e);
    StepKeepsGood(Step(s, cfg, e), cfg, f);
    RunCons(s, cfg, e, [f]);
    RunCons(Step(s, cfg, e), cfg, f, []);
    assert [e, f] == [e] + [f] && [f] == [f] + [];
  }

  lemma {:induction false} RunConcat(s: Ap, cfg: Config, a: seq<Event>, b: seq<Event>)
    requires ValidConfig(cfg) && Good(cfg, s) && Truthful(s, cfg, a)
    ensures Truthful(s, cfg, a + b) <==> Truthful(Run(s, cfg, a), cfg, b)
    ensures Truthful(s, cfg, a + b) ==> Run(s, cfg, a + b) == Run(Run(s, cfg, a), cfg, b)
    decreases |a|
  {
    if a == [] {
      assert a + b == b;
    } else {
      var e, rest := a[0], a[1..];
      assert a == [e] + rest && a + b == [e] + (rest + b);
      RunCons(s, cfg, e, rest);
      var m := Step(s, cfg, e);
      assert Truthful(m, cfg, rest) && Run(s, cfg, a) == Run(m, cfg, rest);
      RunConcat(m, cfg, rest, b);
      RunCons(s, cfg, e, rest + b);
    }
  }

  const JOINS := [OpenAuth(ALICE), Request(ALICE, false)]

  /** Associate, authenticate again, ask again and be refused: slot 0 is then stale. */
  lemma StaleSlotHappens(cfg: Config)
    requires ValidConfig(cfg)
    ensures var es := JOINS + [OpenAuth(ALICE), Request(ALICE, true)];
      && Truthful0(cfg, es) && !SlotsCurrent(Run0(cfg, es)) && Stale(Run0(cfg, es), 0)
  {
    Unicast();
    StartedIsGood(cfg);
    var x := AliceAssociates(cfg);
    var s := Run0(cfg, JOINS);
    Reauthenticates(s, cfg, ALICE, x);
    var t := Step(s, cfg, OpenAuth(ALICE));
    Requests(t, cfg, ALICE, x, true);
    TwoEvents(s, cfg, OpenAuth(ALICE), Request(ALICE, true));
    RunConcat(Started(), cfg, JOINS, [OpenAuth(ALICE), Request(ALICE, true)]);
    assert AidOk(s, x);
    assert Stale(Step(t, cfg, Request(ALICE, true)), 0);
  }

  const RETURNS := [StaAssocDone(ALICE), OpenAuth(ALICE)]

  /** ALICE, flagged as non-ERP, is back on auth_list. */
  lemma FlaggedReturns(cfg: Config) returns (x: nat)
    requires ValidConfig(cfg)
    ensures Truthful0(cfg, JOINS + RETURNS)
    ensures var s := Run0(cfg, JOINS + RETURNS);
      InUse(s, x) && x in s.auth && s.sta[x].expireTo == cfg.assocTo && s.sta[x].capSet.nonErp
  {
    Unicast();
    x := AliceAssociates(cfg);
    StartedIsGood(cfg);
    var s := Run0(cfg, JOINS);
    Completes(s, cfg, ALICE, x);
    var t := Step(s, cfg, StaAssocDone(ALICE));
    assert InUse(t, x);
    Reauthenticates(t, cfg, ALICE, x);
    TwoEvents(s, cfg, StaAssocDone(ALICE), OpenAuth(ALICE));
    RunConcat(Started(), cfg, JOINS, RETURNS);
  }

  /** A tick takes one from the countdown of a station on auth_list, and leaks its bits with the last one. */
  lemma Counts(s: Ap, cfg: Config, x: nat)
    requires ValidConfig(cfg) && Good(cfg, s) && InUse(s, x) && x in s.auth && s.sta[x].capSet.nonErp && s.sta[x].expireTo > 1
    ensures var r := Step(s, cfg, TickEvent);
      && Good(cfg, r) && InUse(r, x) && x in r.auth && r.sta[x].capSet.nonErp && r.sta[x].expireTo == s.sta[x].expireTo - 1
  {
    StepKeepsGood(s, cfg, TickEvent);
    TickEffect(s, cfg);
    assert AuthVisited(s, Tick(s, cfg), x);
  }

  lemma {:induction false} CountsDown(s: Ap, cfg: Config, x: nat, n: nat)
    requires ValidConfig(cfg) && Good(cfg, s) && InUse(s, x) && x in s.auth && s.sta[x].capSet.nonErp && s.sta[x].expireTo == n > 0
    ensures Truthful(s, cfg, TickTimes(n)) && !NeverLeaks(s, cfg, TickTimes(n), NonErp)
    decreases n
  {
    TruthfulWithoutAddSta(s, cfg, TickTimes(n));
    RunCons(s, cfg, TickEvent, TickTimes(n - 1));
    assert TickTimes(n) == [TickEvent] + TickTimes(n - 1) && TickTimes(n)[1..] == TickTimes(n - 1);
    if n == 1 {
      LastTick(s, x);
    } else {
      Counts(s, cfg, x);
      CountsDown(Step(s, cfg, TickEvent), cfg, x, n - 1);
    }
  }

  lemma LastTick(s: Ap, x: nat)
    requires Shape(s) && x < NUM_STA && x in s.auth && s.sta[x].capSet.nonErp && s.sta[x].expireTo == 1
    ensures Leaks(s, TickEvent, NonErp)
  {
    assert s.sta[x].capSet.Get(NonErp);
  }

  function TickTimes(n: nat): (es: seq<Event>)
    ensures |es| == n && forall k :: 0 <= k < n ==> es[k] == TickEvent
  {
    seq(n, _ => TickEvent)
  }

  lemma {:induction false} LeakOfTail(s: Ap, cfg: Config, a: seq<Event>, b: seq<Event>, c: Cap)
    requires ValidConfig(cfg) && Good(cfg, s) && Truthful(s, cfg, a) && Truthful(s, cfg, a + b)
    ensures Truthful(Run(s, cfg, a), cfg, b)
    ensures !NeverLeaks(Run(s, cfg, a), cfg, b, c) ==> !NeverLeaks(s, cfg, a + b, c)
  {
    RunConcat(s, cfg, a, b);
    RunLeak(s, cfg, a, c);
    RunLeak(s, cfg, a + b, c);
    RunLeak(Run(s, cfg, a), cfg, b, c);
  }

  /** Associate as non-ERP, authenticate again and say no more: after assoc_to ticks the counter is too large. */
  lemma LeakHappens(cfg: Config)
    requires ValidConfig(cfg)
    ensures var es := JOINS + RETURNS + TickTimes(cfg.assocTo);
      && Truthful0(cfg, es)
      && var s := Run0(cfg, es); s.bss.counter.nonErp > |Flagged(s, NonErp)|
  {
    var x := FlaggedReturns(cfg);
    StartedIsGood(cfg);
    FreshIsQuiet();
    var s, ticks := Run0(cfg, JOINS + RETURNS), TickTimes(cfg.assocTo);
    CountsDown(s, cfg, x, cfg.assocTo);
    RunConcat(Started(), cfg, JOINS + RETURNS, ticks);
    LeakOfTail(Started(), cfg, JOINS + RETURNS, ticks, NonErp);
    var es := JOINS + RETURNS + ticks;
    CountersExactIff(FreshAp(), cfg, es, NonErp);
    CountersCover(Run0(cfg, es), NonErp);
  }

  const MEETS := [StaAssocDone(ALICE), OpenAuth(BOB)]

  /** ALICE associated under AID 1, and BOB authenticated. */
  ghost predicate BothThere(cfg: Config, s: Ap, x: nat, y: nat) {
    && Good(cfg, s) && InUse(s, x) && s.sta[x].hwaddr == BOB && x != y
    && InUse(s, y) && s.sta[y].hwaddr == ALICE && s.sta[y].aid == 1 && s.sta[y].macId == 2
  }

  lemma AliceCompletes(s: Ap, cfg: Config, y: nat)
    requires ValidConfig(cfg) && OnlyAlice(cfg, s, y)
    ensures var t := Step(s, cfg, StaAssocDone(ALICE));
      OnlyAlice(cfg, t, y) && t.sta[y].macId == 2 && t.sta[y].capSet.nonErp == s.sta[y].asked.nonErp
  {
    Unicast();
    Completes(s, cfg, ALICE, y);
    assert forall z :: InUse(Step(s, cfg, StaAssocDone(ALICE)), z) ==> InUse(s, z);
  }

  lemma BobAppears(s: Ap, cfg: Config, y: nat) returns (x: nat)
    requires ValidConfig(cfg) && OnlyAlice(cfg, s, y)
    ensures var t := Step(s, cfg, StaAssocDone(ALICE));
      && Good(cfg, t) && BothThere(cfg, Step(t, cfg, OpenAuth(BOB)), x, y)
      && Step(t, cfg, OpenAuth(BOB)).sta[y].capSet.nonErp == s.sta[y].asked.nonErp
  {
    Unicast();
    AliceCompletes(s, cfg, y);
    x := Appears(Step(s, cfg, StaAssocDone(ALICE)), cfg, BOB);
  }

  /** Nobody but the broadcast station is in use, and a non-ERP station is still counted. */
  ghost predicate CountsNobody(s: Ap) {
    Shape(s) && OnlyBroadcast(s) && s.bss.counter.nonErp > 0 && |Flagged(s, NonErp)| == 0
  }

  /** A flagged station and another one are both freed by a local disassociation, and the count stays. */
  lemma FreedWithFlag(s: Ap, cfg: Config, x: nat, y: nat)
    requires ValidConfig(cfg) && BothThere(cfg, s, x, y) && s.sta[y].capSet.nonErp
    ensures CountsNobody(FreeAssoc(s, OWN))
  {
    Unicast();
    FreeAssocKeepsGood(s, cfg, OWN);
    var r := FreeAssoc(s, OWN);
    assert HasFlag(s, y, NonErp) && !Survives(s, OWN, y);
    assert s.leak.Get(NonErp) >= 0 && r.leak.Get(NonErp) >= s.leak.Get(NonErp) && r.leak.Get(NonErp) != s.leak.Get(NonErp);
    NobodySurvives(s, x, y);
    assert r.bss.counter.Get(NonErp) == |Flagged(r, NonErp)| + r.leak.Get(NonErp);
  }

  lemma NobodySurvives(s: Ap, x: nat, y: nat)
    requires Pool(s) && Queues(s) && InUse(s, x) && InUse(s, y) && s.sta[x].hwaddr == BOB && s.sta[y].hwaddr == ALICE
    ensures var r := FreeAssoc(s, OWN); OnlyBroadcast(r) && |Flagged(r, NonErp)| == 0
  {
    Unicast();
    var b := FreeAssocEffect(s, OWN);
    var r := FreeAssoc(s, OWN);
    assert forall z: nat :: !Survives(s, OWN, z);
    assert forall z: nat :: !HasFlag(r, z, NonErp);
    assert Flagged(r, NonErp) == {};
  }

  lemma BeaconKeepsBoth(s: Ap, cfg: Config, x: nat, y: nat)
    requires ValidConfig(cfg) && BothThere(cfg, s, x, y)
    ensures var r := Step(s, cfg, SetBeacon(OWN)); BothThere(cfg, r, x, y) && r.sta[y] == s.sta[y]
  {
    StepKeepsGood(s, cfg, SetBeacon(OWN));
    BeaconUntouched(s, OWN, x);
    BeaconUntouched(s, OWN, y);
  }

  const LEAVES := [SetBeacon(OWN), Disassociate(true, OWN)]

  lemma BothFreed(s: Ap, cfg: Config, e: Event, x: nat, y: nat)
    requires ValidConfig(cfg) && BothThere(cfg, s, x, y) && s.sta[y].capSet.nonErp && e == Disassociate(true, OWN)
    ensures CountsNobody(Step(s, cfg, e))
  {
    FreedWithFlag(s, cfg, x, y);
    assert e.linked && e.own == OWN && Step(s, cfg, e) == FreeAssoc(s, e.own);
  }

  lemma BothLeave(s: Ap, cfg: Config, x: nat, y: nat)
    requires ValidConfig(cfg) && BothThere(cfg, s, x, y) && s.sta[y].capSet.nonErp
    ensures Truthful(s, cfg, LEAVES)
    ensures CountsNobody(Run(s, cfg, LEAVES))
  {
    BeaconKeepsBoth(s, cfg, x, y);
    BothFreed(Step(s, cfg, SetBeacon(OWN)), cfg, Disassociate(true, OWN), x, y);
    TwoEvents(s, cfg, SetBeacon(OWN), Disassociate(true, OWN));
  }

  lemma BobJoins(cfg: Config) returns (x: nat, y: nat)
    requires ValidConfig(cfg)
    ensures Truthful0(cfg, JOINS + MEETS)
    ensures var s := Run0(cfg, JOINS + MEETS); BothThere(cfg, s, x, y) && s.sta[y].capSet.nonErp
  {
    y := AliceAssociates(cfg);
    StartedIsGood(cfg);
    var s := Run0(cfg, JOINS);
    x := BobAppears(s, cfg, y);
    TwoEvents(s, cfg, StaAssocDone(ALICE), OpenAuth(BOB));
    RunConcat(Started(), cfg, JOINS, MEETS);
  }

  /** The local disassociation of an AP with a non-ERP station: its count stays with nobody but the broadcast station in use. */
  lemma LeakWithoutTick(cfg: Config)
    requires ValidConfig(cfg)
    ensures var es := JOINS + MEETS + LEAVES;
      Truthful0(cfg, es) && CountsNobody(Run0(cfg, es))
  {
    var x, y := BobJoins(cfg);
    StartedIsGood(cfg);
    BothLeave(Run0(cfg, JOINS + MEETS), cfg, x, y);
    RunConcat(Started(), cfg, JOINS + MEETS, LEAVES);
  }

  lemma BobTakesAid(s: Ap, cfg: Config, x: nat, y: nat)
    requires ValidConfig(cfg) && BothThere(cfg, s, x, y)
    ensures var r := Step(s, cfg, AddSta(BOB, 1, None));
      && !OwnAid(cfg, s, AddSta(BOB, 1, None)) && !Good(cfg, r)
      && InUse(r, x) && InUse(r, y) && r.sta[x].aid == r.sta[y].aid == 1 && r.sta[x].macId == r.sta[y].macId
  {
    Unicast();
    LookupRefinesMap(s, BOB);
    assert Lookup(s, BOB) == Some(x);
    AddStationSharesAid(s, cfg, x, y, None);
    StepKeepsGoodIff(s, cfg, AddSta(BOB, 1, None));
  }

  /** After such a run rtw_add_sta with AID 1 for BOB breaks the invariant: two stations share AID and MAC id. */
  lemma SharedAidHappens(cfg: Config) returns (x: nat, y: nat)
    requires ValidConfig(cfg)
    ensures Truthful0(cfg, JOINS + MEETS) && x != y
    ensures var s := Run0(cfg, JOINS + MEETS);
      var r := Step(s, cfg, AddSta(BOB, 1, None));
      && !OwnAid(cfg, s, AddSta(BOB, 1, None)) && !Good(cfg, r)
      && InUse(r, x) && InUse(r, y) && r.sta[x].aid == r.sta[y].aid == 1 && r.sta[x].macId == r.sta[y].macId
  {
    x, y := BobJoins(cfg);
    BobTakesAid(Run0(cfg, JOINS + MEETS), cfg, x, y);
  }

  /** The broadcast station frees itself on a group address, one station appears, and stop_ap_mode leaves it there. */
  lemma StrangerStays(cfg: Config)
    requires ValidConfig(cfg)
    ensures Quiet(InitBcmc(FreshAp())) && Good(cfg, StartAp(InitBcmc(FreshAp())))
    ensures var s, es := StartAp(InitBcmc(FreshAp())), [Remove(GROUP), OpenAuth(ALICE)];
      && Truthful(s, cfg, es) && Run(s, cfg, es).asoc == []
      && var r := RenewPool(Run(s, cfg, es)); Shape(r) && !OnlyBroadcast(r)
  {
    Unicast();
    FreshIsQuiet();
    InitBcmcIsQuiet(FreshAp());
    StartIsGood(InitBcmc(FreshAp()), cfg);
    var s := StartAp(InitBcmc(FreshAp()));
    var b: nat :| InUse(s, b) && s.sta[b].hwaddr == BROADCAST && forall x :: InUse(s, x) ==> x == b;
    GroupLeaves(s, cfg, b);
    var t := Step(s, cfg, Remove(GROUP));
    var x := Appears(t, cfg, ALICE);
    TwoEvents(s, cfg, Remove(GROUP), OpenAuth(ALICE));
    var u := Step(t, cfg, OpenAuth(ALICE));
    assert u.sta[x].hwaddr != BROADCAST;
    LoneStranger(u, x);
  }

  lemma GroupLeaves(s: Ap, cfg: Config, b: nat)
    requires ValidConfig(cfg) && Good(cfg, s) && s.asoc == []
    requires InUse(s, b) && s.sta[b].hwaddr == BROADCAST && forall x :: InUse(s, x) ==> x == b
    ensures var r := Step(s, cfg, Remove(GROUP)); Good(cfg, r) && r.asoc == [] && r.free != [] && forall y :: !InUse(r, y)
  {
    Unicast();
    LookupRefinesMap(s, GROUP);
    assert Lookup(s, GROUP) == Some(b);
    ApFreeKeepsGood(s, cfg, b);
    NobodyInUse(Step(s, cfg, Remove(GROUP)));
  }

  lemma NobodyInUse(s: Ap)
    requires forall y :: !InUse(s, y)
    ensures s.free != []
  {
    assert !InUse(s, 0);
  }

  lemma LoneStranger(s: Ap, x: nat)
    requires Inv(s) && InUse(s, x) && s.sta[x].hwaddr != BROADCAST && s.asoc == [] && forall y :: InUse(s, y) ==> y == x
    ensures Shape(RenewPool(s)) && !OnlyBroadcast(RenewPool(s))
  {
    AloneAndNotBroadcast(s, x);
    StopEffect(s);
  }

  lemma AloneAndNotBroadcast(s: Ap, x: nat)
    requires Pool(s) && InUse(s, x) && s.sta[x].hwaddr != BROADCAST && forall y :: InUse(s, y) ==> y == x
    ensures s.count == 1 && !OnlyBroadcast(s)
  {
    CountIsInUse(s);
    OneUsed(s, x);
    IsNotBroadcast(s, x);
  }

  lemma IsNotBroadcast(s: Ap, x: nat)
    requires Shape(s) && x < NUM_STA && s.sta[x].hwaddr != BROADCAST && forall y :: InUse(s, y) ==> y == x
    ensures !OnlyBroadcast(s)
  {
  }
}
