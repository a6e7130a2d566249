/** Runs of the access point between start_ap_mode and stop_ap_mode: any frames, events and ticks. */
module ApRun {
  import opened Wrappers
  import opened MacAddress
  import opened ApState
  import opened ApPool
  import opened ApInvariant
  import opened ApCounters
  import opened ApHandlers
  import opened ApExpiry
  import opened ApTeardown
  import opened ApReset

  datatype Event =
    | AuthEvent(authMode: nat, wep: bool, auth: AuthFrame)
    | AssocEvent(assoc: AssocFrame)
    | StaAssocDone(addr: Mac)             // stassoc_event_callback
    | Remove(addr: Mac)                   // deauthentication, disassociation, rtw_del_sta
    | AddSta(addr: Mac, aid: nat, ht: Option<(bool, bool)>)  // rtw_add_sta
    | SetBeacon(own: Mac)                 // rtw_set_beacon
    | Disassociate(linked: bool, own: Mac) // set_802_11_disassociate, and whoever else calls free_assoc_resources
    | Received(addr: Mac)                 // a data frame bumps rx_pkts
    | PowerSave(addr: Mac, asleep: bool)  // WIFI_SLEEP_STATE
    | SetMaxNumSta(n: nat)
    | FlushEvent                          // rtw_hostapd_sta_flush
    | TickEvent                           // expire_timeout_chk

  function WithStation(s: Ap, x: nat, p: StaInfo): (r: Ap)
    requires Shape(s) && x < NUM_STA
    ensures Shape(r)
  {
    s.(sta := s.sta[x := p])
  }

  /** The events that one station has to itself. */
  predicate OneStation(e: Event) {
    e.StaAssocDone? || e.Remove? || e.AddSta? || e.Received? || e.PowerSave?
  }

  /** The station in use that such an event is addressed to. */
  function Addressee(s: Ap, e: Event): (r: Option<nat>)
    requires Shape(s) && ChainsInRange(s)
  {
    match e
    case StaAssocDone(addr) => Lookup(s, addr)
    case Remove(addr) => Lookup(s, addr)
    case AddSta(addr, _, _) => if addr == BROADCAST then None else Lookup(s, addr)
    case Received(addr) => Lookup(s, addr)
    case PowerSave(addr, _) => Lookup(s, addr)
    case _ => None
  }

  /** What it does to that station. */
  function OnStation(s: Ap, cfg: Config, e: Event, x: nat): (r: Ap)
    requires Shape(s) && x < NUM_STA
    ensures Shape(r)
  {
    match e
    case StaAssocDone(_) => StaInfoUpdate(BssCapUpdate(s, cfg, x), x)
    case Remove(_) => ApFreeSta(s, cfg, x)
    case AddSta(_, aid, ht) => AddStation(s, x, aid, ht)
    case Received(_) => WithStation(s, x, s.sta[x].(rxPkts := s.sta[x].rxPkts + 1))
    case PowerSave(_, asleep) => WithStation(s, x, s.sta[x].(state := s.sta[x].state.(sleep := asleep)))
    case _ => s
  }

  /** Every other event. */
  function OnAll(s: Ap, cfg: Config, e: Event): (r: Ap)
    requires Good(cfg, s)
    ensures Shape(r)
  {
    PoolGivesRanges(s);
    ListedBelow(s);
    match e
    case AuthEvent(authMode, wep, f) => OnAuth(s, cfg, authMode, wep, f).0
    case AssocEvent(f) => OnAssocReq(s, cfg, f).0
    case SetBeacon(own) => ApState.SetBeacon(s, own)
    case Disassociate(linked, own) => if linked then FreeAssoc(s, own) else s
    case SetMaxNumSta(n) => s.(maxNumSta := if n > NUM_STA || n == 0 then NUM_STA else n)
    case FlushEvent => Flush(s, cfg)
    case TickEvent => Tick(s, cfg)
    case _ => s
  }

  function Step(s: Ap, cfg: Config, e: Event): (r: Ap)
    requires Good(cfg, s)
    ensures Shape(r)
  {
    AddresseeIsFound(s, e);
    if !OneStation(e) then OnAll(s, cfg, e)
    else
      var x := Addressee(s, e);
      if x.None? then s else OnStation(s, cfg, e, x.value)
  }

  /** The addressee is in use under the canonical form of the address. */
  lemma AddresseeIsFound(s: Ap, e: Event)
    requires Pool(s)
    ensures ChainsInRange(s)
    ensures forall x: nat :: Addressee(s, e) == Some(x) ==> InUse(s, x) && s.sta[x].hwaddr == Canonical(e.addr)
  {
    match e
    case StaAssocDone(addr) => LookupRefinesMap(s, addr);
    case Remove(addr) => LookupRefinesMap(s, addr);
    case AddSta(addr, _, _) => LookupRefinesMap(s, addr);
    case Received(addr) => LookupRefinesMap(s, addr);
    case PowerSave(addr, _) => LookupRefinesMap(s, addr);
    case _ => PoolGivesRanges(s);
  }

  lemma RecordKeepsGood(s: Ap, cfg: Config, x: nat, p: StaInfo)
    requires Good(cfg, s) && InUse(s, x)
    requires p.(rxPkts := s.sta[x].rxPkts, state := s.sta[x].state) == s.sta[x]
    requires p.state.(sleep := s.sta[x].state.sleep) == s.sta[x].state
    ensures Good(cfg, WithStation(s, x, p))
  {
    assert AidOk(s, x) && LogOk(s, x);
    FrameKeepsGood(cfg, s, WithStation(s, x, p), x);
  }

  lemma MaxNumStaKeepsGood(s: Ap, cfg: Config, n: nat)
    requires Good(cfg, s) && n <= NUM_STA
    ensures Good(cfg, s.(maxNumSta := n))
  {
    var r := s.(maxNumSta := n);
    PoolFrame(s, r);
    forall x | InUse(r, x) ensures AidOk(r, x) && LogOk(r, x) {
      assert AidOk(s, x) && LogOk(s, x);
    }
    forall c: Cap ensures r.bss.counter.Get(c) == |Flagged(r, c)| + r.leak.Get(c) && r.leak.Get(c) >= 0 {
      assert Flagged(r, c) == Flagged(s, c);
    }
  }

  lemma StaAssocKeepsGood(s: Ap, cfg: Config, x: nat)
    requires Good(cfg, s) && InUse(s, x)
    ensures Good(cfg, StaInfoUpdate(BssCapUpdate(s, cfg, x), x))
  {
    BssCapUpdateKeepsGood(s, cfg, x);
    StaInfoUpdateKeepsGood(BssCapUpdate(s, cfg, x), cfg, x);
  }

  /** The event gives no station the AID of another, nor one that does not exist. */
  ghost predicate OwnAid(cfg: Config, s: Ap, e: Event)
    requires Good(cfg, s)
  {
    PoolGivesRanges(s);
    e.AddSta? && e.addr != BROADCAST ==>
      var x := Lookup(s, e.addr);
      x.Some? ==> OwnsSlot(s, x.value, e.aid)
  }

  /**
   A beacon can change the settings. The invariant then holds under the new ones if and only if ht_op_mode is already
   what they ask for, as it is when HT stays off and the channel width of the AP is the same.
   */
  lemma NewSettingsIff(s: Ap, cfg: Config, now: Config, own: Mac)
    requires Good(cfg, s)
    ensures ChainsInRange(s)
    ensures Good(now, ApState.SetBeacon(s, own)) <==> HtModeOk(now, s.bss)
    ensures !cfg.htOption && now.apSupWidth == cfg.apSupWidth ==> Good(now, ApState.SetBeacon(s, own))
  {
    SetBeaconKeepsGood(s, cfg, own);
    assert ApState.SetBeacon(s, own).bss == s.bss;
  }

  lemma OnStationKeepsGood(s: Ap, cfg: Config, e: Event, x: nat)
    requires Good(cfg, s) && InUse(s, x) && (e.AddSta? ==> OwnsSlot(s, x, e.aid))
    ensures Good(cfg, OnStation(s, cfg, e, x))
  {
    match e
    case StaAssocDone(_) => StaAssocKeepsGood(s, cfg, x);
    case Remove(_) => ApFreeKeepsGood(s, cfg, x);
    case AddSta(_, aid, ht) => AddStationIff(s, cfg, x, aid, ht);
    case Received(_) => RecordKeepsGood(s, cfg, x, s.sta[x].(rxPkts := s.sta[x].rxPkts + 1));
    case PowerSave(_, asleep) => RecordKeepsGood(s, cfg, x, s.sta[x].(state := s.sta[x].state.(sleep := asleep)));
    case _ =>
  }

  lemma OnAllKeepsGood(s: Ap, cfg: Config, e: Event)
    requires ValidConfig(cfg) && Good(cfg, s)
    ensures Good(cfg, OnAll(s, cfg, e))
  {
    match e
    case AuthEvent(authMode, wep, f) => OnAuthKeepsGood(s, cfg, authMode, wep, f);
    case AssocEvent(f) => OnAssocReqKeepsGood(s, cfg, f);
    case SetBeacon(own) => SetBeaconKeepsGood(s, cfg, own);
    case Disassociate(linked, own) => if linked { FreeAssocKeepsGood(s, cfg, own); }
    case SetMaxNumSta(n) => MaxNumStaKeepsGood(s, cfg, if n > NUM_STA || n == 0 then NUM_STA else n);
    case FlushEvent => ListedBelow(s); FlushEffect(s, cfg, s.asoc);
    case TickEvent => TickEffect(s, cfg);
    case _ =>
  }

  /** Every event keeps the invariant, but for an AID given to a station that does not own its slot. */
  lemma StepKeepsGood(s: Ap, cfg: Config, e: Event)
    requires ValidConfig(cfg) && Good(cfg, s) && OwnAid(cfg, s, e)
    ensures Good(cfg, Step(s, cfg, e))
  {
    AddresseeIsFound(s, e);
    if !OneStation(e) {
      OnAllKeepsGood(s, cfg, e);
    } else if x: nat :| Addressee(s, e) == Some(x) {
      OnStationKeepsGood(s, cfg, e, x);
    }
  }

  lemma StepKeepsGoodIff(s: Ap, cfg: Config, e: Event)
    requires ValidConfig(cfg) && Good(cfg, s)
    ensures Good(cfg, Step(s, cfg, e)) <==> OwnAid(cfg, s, e)
  {
    if OwnAid(cfg, s, e) {
      StepKeepsGood(s, cfg, e);
    } else {
      LookupRefinesMap(s, e.addr);
      AddStationIff(s, cfg, Lookup(s, e.addr).value, e.aid, e.ht);
    }
  }

  /** Every add-station request of the run gives no AID, or one whose slot the station owns at that moment. */
  ghost predicate Truthful(s: Ap, cfg: Config, es: seq<Event>)
    requires ValidConfig(cfg) && Good(cfg, s)
    decreases |es|
  {
    es == [] || (OwnAid(cfg, s, es[0]) && (StepKeepsGood(s, cfg, es[0]); Truthful(Step(s, cfg, es[0]), cfg, es[1..])))
  }

  function Run(s: Ap, cfg: Config, es: seq<Event>): (r: Ap)
    requires ValidConfig(cfg) && Good(cfg, s) && Truthful(s, cfg, es)
    ensures Good(cfg, r)
    decreases |es|
  {
    if es == [] then s else
      StepKeepsGood(s, cfg, es[0]);
      Run(Step(s, cfg, es[0]), cfg, es[1..])
  }

  lemma RunCons(s: Ap, cfg: Config, e: Event, es: seq<Event>)
    requires ValidConfig(cfg) && Good(cfg, s)
    ensures OwnAid(cfg, s, e) ==> Good(cfg, Step(s, cfg, e))
    ensures Truthful(s, cfg, [e] + es) <==> OwnAid(cfg, s, e) && Truthful(Step(s, cfg, e), cfg, es)
    ensures Truthful(s, cfg, [e] + es) ==> Run(s, cfg, [e] + es) == Run(Step(s, cfg, e), cfg, es)
  {
    StepKeepsGoodIff(s, cfg, e);
    assert ([e] + es)[1..] == es;
  }

  /** The invariant holds after every event of the run. */
  ghost predicate GoodThroughout(s: Ap, cfg: Config, es: seq<Event>)
    requires Good(cfg, s)
    decreases |es|
  {
    es == [] || (Good(cfg, Step(s, cfg, es[0])) && GoodThroughout(Step(s, cfg, es[0]), cfg, es[1..]))
  }

  /** Over any events the invariant lasts if and only if every AID given from outside is the station's own. */
  lemma {:induction false} GoodThroughoutIff(s: Ap, cfg: Config, es: seq<Event>)
    requires ValidConfig(cfg) && Good(cfg, s)
    ensures GoodThroughout(s, cfg, es) <==> Truthful(s, cfg, es)
    decreases |es|
  {
    if es != [] {
      StepKeepsGoodIff(s, cfg, es[0]);
      if OwnAid(cfg, s, es[0]) {
        GoodThroughoutIff(Step(s, cfg, es[0]), cfg, es[1..]);
      }
    }
  }

  /** Frames, ticks and every other request of the user alone never break it. */
  lemma {:induction false} TruthfulWithoutAddSta(s: Ap, cfg: Config, es: seq<Event>)
    requires ValidConfig(cfg) && Good(cfg, s) && forall k :: 0 <= k < |es| ==> !es[k].AddSta?
    ensures Truthful(s, cfg, es)
    decreases |es|
  {
    if es != [] {
      StepKeepsGood(s, cfg, es[0]);
      TruthfulWithoutAddSta(Step(s, cfg, es[0]), cfg, es[1..]);
    }
  }
}
