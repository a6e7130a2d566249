/** The results about whole runs of the access point. */
module ApSafety {
  import opened Wrappers
  import opened Lists
  import opened MacAddress
  import opened ApState
  import opened ApPool
  import opened ApInvariant
  import opened ApCounters
  import opened ApHandlers
  import opened ApExpiry
  import opened ApTeardown
  import opened ApReset
  import opened ApRun

  // ---- one state -----------------------------------------------------------------------------

  lemma AidsAreUnique(s: Ap, x: nat, y: nat)
    requires Inv(s) && InUse(s, x) && InUse(s, y) && x != y
    ensures s.sta[x].aid == s.sta[y].aid ==> s.sta[x].aid == 0
    ensures s.sta[x].macId == s.sta[y].macId ==> s.sta[x].macId <= 1
  {
    assert AidOk(s, x) && AidOk(s, y);
  }

  /** set_stakey_hdl: the CAM entry the pairwise key of `addr` is written to. */
  function CamEntry(s: Ap, addr: Mac): (r: Option<nat>)
    requires Pool(s)
  {
    PoolGivesRanges(s);
    var x := Lookup(s, addr);
    if x.None? then None
    else
      var macId := s.sta[x.value].macId;
      if macId < 1 || macId > NUM_STA - 4 then None else Some(macId + 3)
  }

  /** Pairwise keys of different associated stations never share an entry, nor take a default-key one. */
  lemma CamEntriesAreDistinct(s: Ap, a: Mac, b: Mac)
    requires Inv(s)
    ensures CamEntry(s, a).Some? ==> 4 <= CamEntry(s, a).value < NUM_STA
    ensures CamEntry(s, a).Some? && CamEntry(s, a) == CamEntry(s, b) ==>
      CamEntry(s, a).value == 4 || Canonical(a) == Canonical(b)
  {
    LookupRefinesMap(s, a);
    LookupRefinesMap(s, b);
    if CamEntry(s, a).Some? && CamEntry(s, a) == CamEntry(s, b) {
      var x, y := Lookup(s, a).value, Lookup(s, b).value;
      if x != y {
        AidsAreUnique(s, x, y);
      }
    }
  }

  /** Once update_sta_info_apmode has run, the entry of a station with an AID is aid + 4; AIDs above 27 get none. */
  lemma CamEntryFollowsAid(s: Ap, x: nat)
    requires Inv(s) && InUse(s, x) && s.sta[x].aid > 0 && s.sta[x].hwaddr == Canonical(s.sta[x].hwaddr)
    ensures Inv(StaInfoUpdate(s, x))
    ensures CamEntry(StaInfoUpdate(s, x), s.sta[x].hwaddr)
      == if s.sta[x].aid + 4 < NUM_STA then Some(s.sta[x].aid + 4) else None
  {
    assert AidOk(s, x) && LogOk(s, x);
    var r := StaInfoUpdate(s, x);
    StationUpdateKeepsInv(s, r, x);
    LookupRefinesMap(r, s.sta[x].hwaddr);
  }

  /** A counter is never too small, and it is exact if and only if nothing has leaked. */
  lemma CountersCover(s: Ap, c: Cap)
    requires Shape(s) && Counted(s)
    ensures s.bss.counter.Get(c) >= |Flagged(s, c)|
    ensures s.bss.counter.Get(c) == |Flagged(s, c)| <==> s.leak.Get(c) == 0
  {
    assert s.bss.counter.Get(c) == |Flagged(s, c)| + s.leak.Get(c) && s.leak.Get(c) >= 0;
  }

  // ---- whole runs ----------------------------------------------------------------------------

  ghost predicate TruthfulFromStart(s: Ap, cfg: Config, es: seq<Event>)
    requires ValidConfig(cfg) && Quiet(s)
  {
    StartIsGood(s, cfg);
    Truthful(StartAp(s), cfg, es)
  }

  /** What holds after any run of events that starts with start_ap_mode and in which rtw_add_sta gives no station an AID it does not own. */
  lemma RunIsSafe(s: Ap, cfg: Config, es: seq<Event>)
    requires ValidConfig(cfg) && Quiet(s) && TruthfulFromStart(s, cfg, es)
    ensures Good(cfg, StartAp(s)) && Truthful(StartAp(s), cfg, es)
    ensures var r := Run(StartAp(s), cfg, es);
      && Pool(r) && r.count == |Used(r)|
      && (forall x, y :: InUse(r, x) && InUse(r, y) && x != y && r.sta[x].aid == r.sta[y].aid ==> r.sta[x].aid == 0)
      && (forall x :: x in r.asoc ==> x !in r.auth && InUse(r, x) && Admitted(r.sta[x].log))
      && (forall c: Cap :: r.bss.counter.Get(c) >= |Flagged(r, c)|)
      && HtModeOk(cfg, r.bss)
      && (ErpUpdates(r.bss) % 2 == 1 <==> r.bss.counter.nonErp > 0)
  {
    StartIsGood(s, cfg);
    var r := Run(StartAp(s), cfg, es);
    CountIsInUse(r);
    forall x, y | InUse(r, x) && InUse(r, y) && x != y && r.sta[x].aid == r.sta[y].aid ensures r.sta[x].aid == 0 {
      AidsAreUnique(r, x, y);
    }
    forall x | x in r.asoc ensures x !in r.auth && InUse(r, x) && Admitted(r.sta[x].log) {
      assert AidOk(r, x) && LogOk(r, x);
    }
    forall c: Cap ensures r.bss.counter.Get(c) >= |Flagged(r, c)| {
      CountersCover(r, c);
    }
  }

  // ---- when the counters are exact -----------------------------------------------------------

  /**
   The event frees a station that carries the bit `c` without taking its count back: a tick one on auth_list whose
   countdown ends, a local disassociation everybody but the one station it may leave.
   */
  ghost predicate Leaks(s: Ap, e: Event, c: Cap)
    requires Shape(s)
  {
    match e
    case TickEvent => exists x :: x in s.auth && x < NUM_STA && s.sta[x].expireTo == 1 && s.sta[x].capSet.Get(c)
    case Disassociate(linked, own) => linked && exists x: nat :: HasFlag(s, x, c) && !Survives(s, own, x)
    case _ => false
  }

  ghost predicate NeverLeaks(s: Ap, cfg: Config, es: seq<Event>, c: Cap)
    requires ValidConfig(cfg) && Good(cfg, s) && Truthful(s, cfg, es)
    decreases |es|
  {
    es == [] || (StepKeepsGood(s, cfg, es[0]); !Leaks(s, es[0], c) && NeverLeaks(Step(s, cfg, es[0]), cfg, es[1..], c))
  }

  lemma {:induction false} LeakAfterAt(sta: seq<StaInfo>, todo: seq<nat>, leak: Six<int>, c: Cap)
    requires AllBelow(todo, |sta|)
    ensures LeakAfter(sta, todo, leak).Get(c) >= leak.Get(c)
    ensures LeakAfter(sta, todo, leak).Get(c) == leak.Get(c) <==>
      forall i :: 0 <= i < |todo| ==> sta[todo[i]].expireTo != 1 || !sta[todo[i]].capSet.Get(c)
  {
    if todo != [] {
      var p := sta[todo[0]];
      var next := if p.expireTo == 1 then AddBits(leak, p.capSet) else leak;
      assert AddBits(leak, p.capSet).Get(c) == leak.Get(c) + Bit(p.capSet.Get(c)) by {
        match c case NonErp => case NoShortSlot => case NoShortPreamble => case NoHtGf => case NoHt => case Ht20Mhz =>
      }
      LeakAfterAt(sta, todo[1..], next, c);
      assert forall i :: 0 < i < |todo| ==> todo[i] == todo[1..][i - 1];
      assert forall i :: 0 <= i < |todo| - 1 ==> todo[1..][i] == todo[i + 1];
    }
  }

  lemma AuthFramesKeepLeak(s: Ap, cfg: Config, authMode: nat, wep: bool, f: AuthFrame)
    requires Shape(s) && ChainsInRange(s) && AllBelow(s.free, NUM_STA)
    ensures OnAuth(s, cfg, authMode, wep, f).0.leak == s.leak
  {
  }

  lemma AssocFramesKeepLeak(s: Ap, cfg: Config, f: AssocFrame)
    requires Shape(s) && ChainsInRange(s)
    ensures OnAssocReq(s, cfg, f).0.leak == s.leak
  {
  }

  lemma {:induction false} FlushKeepsLeak(s: Ap, cfg: Config, todo: seq<nat>)
    requires Good(cfg, s) && NoDup(todo) && forall x :: x in todo ==> x in s.asoc
    ensures AllBelow(todo, NUM_STA) && FlushAsoc(s, cfg, todo).leak == s.leak
    decreases |todo|
  {
    ListedBelow(s);
    assert forall i :: 0 <= i < |todo| ==> todo[i] in s.asoc;
    if todo != [] {
      FlushFirst(s, cfg, todo);
      DelistKeepsGood(s, cfg, todo[0]);
      ApFreeKeepsGood(s.(asoc := Without(s.asoc, todo[0])), cfg, todo[0]);
      FlushKeepsLeak(ApFreeSta(s.(asoc := Without(s.asoc, todo[0])), cfg, todo[0]), cfg, todo[1..]);
    }
  }

  lemma TickLeak(s: Ap, cfg: Config, c: Cap)
    requires Good(cfg, s)
    ensures AllBelow(s.auth, NUM_STA)
    ensures Tick(s, cfg).leak.Get(c) >= s.leak.Get(c)
    ensures Tick(s, cfg).leak.Get(c) == s.leak.Get(c) <==> !Leaks(s, TickEvent, c)
  {
    TickEffect(s, cfg);
    LeakAfterAt(s.sta, s.auth, s.leak, c);
    assert forall i :: 0 <= i < |s.auth| ==> s.auth[i] in s.auth;
  }

  lemma BeaconKeepsLeak(s: Ap, own: Mac)
    requires Shape(s) && ChainsInRange(s) && AllBelow(s.free, NUM_STA)
    ensures ApState.SetBeacon(s, own).leak == s.leak
  {
  }

  lemma FreeAssocLeak(s: Ap, cfg: Config, own: Mac, c: Cap)
    requires Good(cfg, s)
    ensures FreeAssoc(s, own).leak.Get(c) >= s.leak.Get(c)
    ensures FreeAssoc(s, own).leak.Get(c) == s.leak.Get(c) <==> !Leaks(s, Disassociate(true, own), c)
  {
    FreeAssocKeepsGood(s, cfg, own);
    assert FreeAssoc(s, own).leak.Get(c) >= s.leak.Get(c);
  }

  lemma OnStationKeepsLeak(s: Ap, cfg: Config, e: Event, x: nat)
    requires Good(cfg, s) && InUse(s, x)
    ensures OnStation(s, cfg, e, x).leak == s.leak
  {
    if e.Remove? {
      ApFreeKeepsGood(s, cfg, x);
    }
  }

  lemma OnAllLeak(s: Ap, cfg: Config, e: Event, c: Cap)
    requires Good(cfg, s) && !OneStation(e)
    ensures OnAll(s, cfg, e).leak.Get(c) >= s.leak.Get(c)
    ensures OnAll(s, cfg, e).leak.Get(c) == s.leak.Get(c) <==> !Leaks(s, e, c)
  {
    PoolGivesRanges(s);
    ListedBelow(s);
    match e
    case AuthEvent(authMode, wep, f) => AuthFramesKeepLeak(s, cfg, authMode, wep, f);
    case AssocEvent(f) => AssocFramesKeepLeak(s, cfg, f);
    case SetBeacon(own) => BeaconKeepsLeak(s, own);
    case Disassociate(linked, own) => if linked { FreeAssocLeak(s, cfg, own, c); }
    case FlushEvent => FlushKeepsLeak(s, cfg, s.asoc);
    case TickEvent => TickLeak(s, cfg, c);
    case _ =>
  }

  lemma StepLeak(s: Ap, cfg: Config, e: Event, c: Cap)
    requires ValidConfig(cfg) && Good(cfg, s)
    ensures Step(s, cfg, e).leak.Get(c) >= s.leak.Get(c)
    ensures Step(s, cfg, e).leak.Get(c) == s.leak.Get(c) <==> !Leaks(s, e, c)
  {
    AddresseeIsFound(s, e);
    if !OneStation(e) {
      OnAllLeak(s, cfg, e, c);
    } else {
      assert !Leaks(s, e, c);
      if x: nat :| Addressee(s, e) == Some(x) {
        OnStationKeepsLeak(s, cfg, e, x);
      }
    }
  }

  lemma {:induction false} RunLeak(s: Ap, cfg: Config, es: seq<Event>, c: Cap)
    requires ValidConfig(cfg) && Good(cfg, s) && Truthful(s, cfg, es)
    ensures Run(s, cfg, es).leak.Get(c) >= s.leak.Get(c)
    ensures Run(s, cfg, es).leak.Get(c) == s.leak.Get(c) <==> NeverLeaks(s, cfg, es, c)
    decreases |es|
  {
    if es != [] {
      StepKeepsGood(s, cfg, es[0]);
      StepLeak(s, cfg, es[0], c);
      RunLeak(Step(s, cfg, es[0]), cfg, es[1..], c);
    }
  }

  /**
   After a run from start_ap_mode a counter equals the number of in-use stations with its bit if and
   only if no tick of the run expired such a station on auth_list and no local disassociation freed one.
   */
  lemma CountersExactIff(s: Ap, cfg: Config, es: seq<Event>, c: Cap)
    requires ValidConfig(cfg) && Quiet(s) && TruthfulFromStart(s, cfg, es)
    ensures Good(cfg, StartAp(s)) && Truthful(StartAp(s), cfg, es)
    ensures var r := Run(StartAp(s), cfg, es);
      r.bss.counter.Get(c) == |Flagged(r, c)| <==> NeverLeaks(StartAp(s), cfg, es, c)
  {
    StartIsGood(s, cfg);
    RunLeak(StartAp(s), cfg, es, c);
    CountersCover(Run(StartAp(s), cfg, es), c);
    match c case NonErp => case NoShortSlot => case NoShortPreamble => case NoHtGf => case NoHt => case Ht20Mhz =>
  }

  /** As long as no non-ERP station is freed in one of these ways, an ERP update is outstanding exactly while one is present. */
  lemma ErpFollowsStations(s: Ap, cfg: Config, es: seq<Event>)
    requires ValidConfig(cfg) && Quiet(s) && TruthfulFromStart(s, cfg, es)
    ensures Good(cfg, StartAp(s)) && Truthful(StartAp(s), cfg, es)
    ensures NeverLeaks(StartAp(s), cfg, es, NonErp) ==>
      var r := Run(StartAp(s), cfg, es);
      ErpUpdates(r.bss) % 2 == 1 <==> exists x: nat :: InUse(r, x) && r.sta[x].capSet.nonErp
  {
    StartIsGood(s, cfg);
    CountersExactIff(s, cfg, es, NonErp);
    var r := Run(StartAp(s), cfg, es);
    if x: nat :| InUse(r, x) && r.sta[x].capSet.nonErp {
      assert HasFlag(r, x, NonErp) && x in Flagged(r, NonErp);
    }
    if x :| x in Flagged(r, NonErp) {
      assert HasFlag(r, x, NonErp);
    }
  }

  /** With the AID of station `y` for a different station, rtw_add_sta makes the two share AID and MAC id. */
  lemma AddStationSharesAid(s: Ap, cfg: Config, x: nat, y: nat, ht: Option<(bool, bool)>)
    requires Good(cfg, s) && InUse(s, x) && InUse(s, y) && x != y && s.sta[y].aid > 0 && s.sta[y].macId == s.sta[y].aid + 1
    ensures var r := AddStation(s, x, s.sta[y].aid, ht);
      && Pool(r) && SamePool(s, r) && InUse(r, x) && InUse(r, y) && r.sta[x].aid == r.sta[y].aid > 0
      && r.sta[x].macId == r.sta[y].macId && !Inv(r)
  {
    PoolFrame(s, AddStation(s, x, s.sta[y].aid, ht));
    assert AidOk(s, x) && AidOk(s, y);
    AddStationIff(s, cfg, x, s.sta[y].aid, ht);
  }

  /** The pairwise keys of the two then go to one CAM entry. */
  lemma AddStationSharesCamEntry(s: Ap, cfg: Config, a: Mac, b: Mac, ht: Option<(bool, bool)>)
    requires Good(cfg, s) && ChainsInRange(s) && Lookup(s, a).Some? && Lookup(s, b).Some? && Lookup(s, a) != Lookup(s, b)
    requires var y := Lookup(s, b).value; y < NUM_STA && s.sta[y].aid > 0 && s.sta[y].macId == s.sta[y].aid + 1
    ensures Lookup(s, a).value < NUM_STA
    ensures var r := AddStation(s, Lookup(s, a).value, s.sta[Lookup(s, b).value].aid, ht);
      Pool(r) && CamEntry(r, a) == CamEntry(r, b)
  {
    LookupRefinesMap(s, a);
    LookupRefinesMap(s, b);
    var x, y := Lookup(s, a).value, Lookup(s, b).value;
    AddStationSharesAid(s, cfg, x, y, ht);
    var r := AddStation(s, x, s.sta[y].aid, ht);
    LookupRefinesMap(r, a);
    LookupRefinesMap(r, b);
  }
}
