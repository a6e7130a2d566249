/**
 Stale slots of the AID table: how one request makes them, that nothing else does or undoes it, and
 that a stale slot is out of circulation until the next start_ap_mode.
 */
module ApSlots {
  import opened Wrappers
  import opened Lists
  import opened MacAddress
  import opened ApState
  import opened ApPool
  import opened ApInvariant
  import opened ApHandlers
  import opened ApExpiry
  import opened ApTeardown
  import opened ApReset
  import opened ApRun

  /** Every taken slot belongs to an in-use station that holds this AID. */
  ghost predicate SlotsCurrent(s: Ap)
    requires Shape(s)
  {
    forall k :: 0 <= k < NUM_STA && s.aids[k].Some? ==> InUse(s, s.aids[k].value) && s.sta[s.aids[k].value].aid == k + 1
  }

  /** Only the AID of `x` and the table may differ between the two states. */
  ghost predicate AidChange(s: Ap, r: Ap, x: nat, aid: nat, aids: seq<Option<nat>>)
    requires Shape(s)
  {
    && Shape(r) && r.free == s.free && r.aids == aids
    && forall y :: 0 <= y < NUM_STA ==> r.sta[y].aid == if y == x then aid else s.sta[y].aid
  }

  lemma AskingAids(s: Ap, x: nat, asked: Asked)
    requires Shape(s) && x < NUM_STA
    ensures AidChange(s, Asking(s, x, asked), x, s.sta[x].aid, s.aids)
  {
  }

  lemma RefusalAids(s: Ap, x: nat, status: Status)
    requires Shape(s) && x < NUM_STA
    ensures AidChange(s, AssocRefused(s, x, status).0, x, 0, s.aids)
  {
  }

  /** Whether a station that may associate is turned away from the HT checks on. */
  predicate AdmitRefuses(s: Ap, cfg: Config, x: nat, f: AssocFrame)
    requires Shape(s) && x < NUM_STA
  {
    (!cfg.htOption && f.htCap.Some?) || f.p2pRefused || (s.sta[x].aid == 0 && AidFor(s, x) > s.maxNumSta)
  }

  /** The table after an admission: only a station without an AID takes a slot, the least free one. */
  function AidsAfter(s: Ap, x: nat, refused: bool): (r: seq<Option<nat>>)
    requires Shape(s) && x < NUM_STA
  {
    if refused || s.sta[x].aid > 0 || LeastFreeAid(s.aids) >= NUM_STA then s.aids
    else s.aids[LeastFreeAid(s.aids) := Some(x)]
  }

  lemma AdmitAids(s: Ap, cfg: Config, x: nat, f: AssocFrame)
    requires Shape(s) && x < NUM_STA && s.maxNumSta <= NUM_STA
    ensures var refused := AdmitRefuses(s, cfg, x, f);
      AidChange(s, AssocAdmit(s, cfg, x, f).0, x, if refused then 0 else AidFor(s, x), AidsAfter(s, x, refused))
  {
    var asked := s.sta[x].asked.(ht := f.htCap.Some?,
                                 htGreenfield := f.htCap.Some? && f.htCap.value.0,
                                 htSupWidth := f.htCap.Some? && f.htCap.value.1);
    var all := asked.(nonErp := OnlySlowRates(f.rates), shortPreamble := f.shortPreamble);
    var m := if !cfg.htOption && asked.ht then Asking(s, x, asked) else Asking(s, x, all);
    AskingAids(s, x, asked);
    AskingAids(s, x, all);
    if AdmitRefuses(s, cfg, x, f) {
      RefusalAids(m, x, AssocAdmit(s, cfg, x, f).1);
    }
  }

  /** The station an association request is about once it may associate. */
  function Candidate(s: Ap, f: AssocFrame): (r: Option<nat>)
    requires Shape(s) && ChainsInRange(s)
  {
    var x := Lookup(s, f.sa);
    if f.tooShort || x.None? || !s.sta[x.value].state.authSuccess then None else x
  }

  /** What one association request does to the AID table and to the AIDs of the stations. */
  lemma AssocAids(s: Ap, cfg: Config, f: AssocFrame)
    requires Good(cfg, s)
    ensures ChainsInRange(s)
    ensures match Candidate(s, f)
      case None => OnAssocReq(s, cfg, f).0 == s
      case Some(x) =>
        var refused := f.elementsRefused.Some? || AdmitRefuses(s, cfg, x, f);
        InUse(s, x) && AidChange(s, OnAssocReq(s, cfg, f).0, x, if refused then 0 else AidFor(s, x), AidsAfter(s, x, refused))
  {
    LookupRefinesMap(s, f.sa);
    match Candidate(s, f)
    case None =>
    case Some(x) =>
      var asked := s.sta[x].asked.(shortSlot := f.shortSlot);
      var m := Asking(s, x, asked);
      AskingAids(s, x, asked);
      if f.elementsRefused.Some? {
        RefusalAids(m, x, Refused(f.elementsRefused.value));
      } else {
        AdmitAids(m, cfg, x, f);
      }
  }

  /** The request is refused after the station has been recognised, and the station holds an AID. */
  ghost predicate RefusesHolder(s: Ap, cfg: Config, f: AssocFrame)
    requires Shape(s) && ChainsInRange(s)
  {
    match Candidate(s, f)
    case None => false
    case Some(x) => s.sta[x].aid > 0 && (f.elementsRefused.Some? || AdmitRefuses(s, cfg, x, f))
  }

  /**
   From a table without stale slots an association request leaves one behind if and only if it
   refuses a station that already holds an AID: the AID is zeroed but the slot is not given back.
   */
  lemma SlotsStayCurrentIff(s: Ap, cfg: Config, f: AssocFrame)
    requires Good(cfg, s) && SlotsCurrent(s)
    ensures ChainsInRange(s) && Shape(OnAssocReq(s, cfg, f).0)
    ensures SlotsCurrent(OnAssocReq(s, cfg, f).0) <==> !RefusesHolder(s, cfg, f)
  {
    AssocAids(s, cfg, f);
    if Candidate(s, f).Some? {
      var x := Candidate(s, f).value;
      assert AidOk(s, x);
      SlotsAfter(s, OnAssocReq(s, cfg, f).0, x, f.elementsRefused.Some? || AdmitRefuses(s, cfg, x, f));
    }
  }

  lemma SlotsAfter(s: Ap, r: Ap, x: nat, refused: bool)
    requires Shape(s) && SlotsCurrent(s) && InUse(s, x)
    requires s.sta[x].aid <= NUM_STA && (s.sta[x].aid > 0 ==> s.aids[s.sta[x].aid - 1] == Some(x))
    requires s.sta[x].aid == 0 && !refused ==> LeastFreeAid(s.aids) < NUM_STA
    requires AidChange(s, r, x, if refused then 0 else AidFor(s, x), AidsAfter(s, x, refused))
    ensures SlotsCurrent(r) <==> !(refused && s.sta[x].aid > 0)
  {
    if refused && s.sta[x].aid > 0 {
      assert r.aids[s.sta[x].aid - 1] == Some(x) && r.sta[x].aid == 0;
    }
  }

  // ---- whole runs ----------------------------------------------------------------------------

  /** The slot is taken, but not by an in-use station that holds its AID. */
  ghost predicate Stale(s: Ap, k: int)
    requires Shape(s)
  {
    0 <= k < NUM_STA && s.aids[k].Some? && !(InUse(s, s.aids[k].value) && s.sta[s.aids[k].value].aid == k + 1)
  }

  lemma CurrentMeansNoneStale(s: Ap)
    requires Shape(s)
    ensures SlotsCurrent(s) <==> forall k :: !Stale(s, k)
  {
    if forall k :: !Stale(s, k) {
      forall k | 0 <= k < NUM_STA && s.aids[k].Some?
        ensures InUse(s, s.aids[k].value) && s.sta[s.aids[k].value].aid == k + 1
      {
        assert !Stale(s, k);
      }
    }
  }

  /** Stale slots stay as they are. */
  ghost predicate KeepsStale(s: Ap, r: Ap)
    requires Shape(s) && Shape(r)
  {
    forall k :: Stale(s, k) ==> Stale(r, k) && r.aids[k] == s.aids[k]
  }

  /** Stale slots stay as they are, and no slot becomes stale. */
  ghost predicate Tidy(s: Ap, r: Ap)
    requires Shape(s) && Shape(r)
  {
    KeepsStale(s, r) && forall k :: Stale(r, k) ==> Stale(s, k)
  }

  lemma SameAidsTidy(s: Ap, r: Ap)
    requires Shape(s) && Shape(r) && r.aids == s.aids && r.free == s.free
    requires forall y :: 0 <= y < NUM_STA ==> r.sta[y].aid == s.sta[y].aid
    ensures Tidy(s, r)
  {
  }

  lemma FreeTidy(s: Ap, x: nat)
    requires Inv(s) && InUse(s, x)
    ensures Tidy(s, FreeSta(s, x))
  {
    FreeEffect(s, x);
    assert AidOk(s, x);
  }

  lemma AllocTidy(s: Ap, addr: Mac)
    requires Shape(s) && AllBelow(s.free, NUM_STA)
    ensures Tidy(s, Alloc(s, addr).0)
  {
    if s.free != [] {
      var x := s.free[0];
      var r := Alloc(s, addr).0;
      assert s.free == [x] + r.free;
      assert forall y :: InUse(s, y) ==> InUse(r, y) && r.sta[y] == s.sta[y];
      assert forall y :: InUse(r, y) && y != x ==> InUse(s, y);
    }
  }

  lemma PutCapsTidy(s: Ap, x: nat, k: Caps)
    requires Shape(s) && x < NUM_STA
    ensures Tidy(s, PutCaps(s, x, k))
  {
    SameAidsTidy(s, PutCaps(s, x, k));
  }

  lemma ApFreeTidy(s: Ap, cfg: Config, x: nat)
    requires Good(cfg, s) && InUse(s, x)
    ensures Tidy(s, ApFreeSta(s, cfg, x))
  {
    var k := ClearCaps(CapsOf(s, x), cfg);
    PutCapsTidy(s, x, k);
    ClearedIsInv(s, cfg, x);
    FreeTidy(PutCaps(s, x, k), x);
  }

  lemma ClearedIsInv(s: Ap, cfg: Config, x: nat)
    requires Inv(s) && InUse(s, x)
    ensures var m := PutCaps(s, x, ClearCaps(CapsOf(s, x), cfg)); Inv(m) && InUse(m, x)
  {
    var m := PutCaps(s, x, ClearCaps(CapsOf(s, x), cfg));
    assert AidOk(s, x) && LogOk(s, x);
    assert AidOk(m, x) && LogOk(m, x);
    StationUpdateKeepsInv(s, m, x);
  }

  lemma AuthFrameTidy(s: Ap, cfg: Config, authMode: nat, wep: bool, f: AuthFrame)
    requires Good(cfg, s)
    ensures ChainsInRange(s) && Tidy(s, OnAuth(s, cfg, authMode, wep, f).0)
  {
    PoolGivesRanges(s);
    var r := OnAuth(s, cfg, authMode, wep, f).0;
    var mode := AuthMode(authMode, wep);
    if !((f.algorithm > 0 && mode == 0) || (f.algorithm == 0 && mode == 1)) {
      LookupRefinesMap(s, f.sa);
      if Lookup(s, f.sa).None? {
        AllocTidy(s, f.sa);
        AuthOfNew(s, cfg, authMode, wep, f);
        SameAidsTidy(Alloc(s, f.sa).0, r);
      } else {
        SameAidsTidy(s, r);
      }
    }
  }

  lemma AuthOfNew(s: Ap, cfg: Config, authMode: nat, wep: bool, f: AuthFrame)
    requires Shape(s) && ChainsInRange(s) && AllBelow(s.free, NUM_STA) && Lookup(s, f.sa).None?
    requires var mode := AuthMode(authMode, wep); !((f.algorithm > 0 && mode == 0) || (f.algorithm == 0 && mode == 1))
    ensures var (m, r) := (Alloc(s, f.sa).0, OnAuth(s, cfg, authMode, wep, f).0);
      r.aids == m.aids && r.free == m.free && forall y :: 0 <= y < NUM_STA ==> r.sta[y].aid == m.sta[y].aid
  {
  }

  lemma {:induction false} TickAuthTidy(s: Ap, cfg: Config, todo: seq<nat>)
    requires Good(cfg, s) && NoDup(todo) && forall x :: x in todo ==> x in s.auth
    ensures AllBelow(todo, NUM_STA) && Tidy(s, TickAuth(s, todo))
    decreases |todo|
  {
    assert forall i :: 0 <= i < |todo| ==> todo[i] in s.auth;
    ListedBelow(s);
    if todo != [] {
      AuthFirst(s, cfg, todo);
      TickAuthOneTidy(s, todo[0]);
      TickAuthTidy(TickAuthOne(s, todo[0]), cfg, todo[1..]);
    }
  }

  lemma TickAuthOneTidy(s: Ap, x: nat)
    requires Inv(s) && x in s.auth
    ensures x < NUM_STA && Tidy(s, TickAuthOne(s, x))
  {
    if s.sta[x].expireTo == 1 {
      TickAuthExpires(s, x);
      FreeTidy(s, x);
    } else {
      SameAidsTidy(s, TickAuthOne(s, x));
    }
  }

  lemma TickAsocOneTidy(s: Ap, cfg: Config, x: nat)
    requires Good(cfg, s) && x in s.asoc
    ensures x < NUM_STA && Tidy(s, TickAsocOne(s, cfg, x))
  {
    if Countdown(cfg, s.sta[x]) == 1 {
      AsocRecordKeepsGood(s, cfg, x, Without(s.asoc, x));
      var m := s.(sta := s.sta[x := Visited(cfg, s.sta[x])], asoc := Without(s.asoc, x));
      SameAidsTidy(s, m);
      ApFreeTidy(m, cfg, x);
    } else {
      SameAidsTidy(s, TickAsocOne(s, cfg, x));
    }
  }

  lemma {:induction false} TickAsocTidy(s: Ap, cfg: Config, todo: seq<nat>)
    requires Good(cfg, s) && NoDup(todo) && forall x :: x in todo ==> x in s.asoc
    ensures AllBelow(todo, NUM_STA) && Tidy(s, TickAsoc(s, cfg, todo))
    decreases |todo|
  {
    assert forall i :: 0 <= i < |todo| ==> todo[i] in s.asoc;
    ListedBelow(s);
    if todo != [] {
      AsocFirst(s, cfg, todo);
      TickAsocOneTidy(s, cfg, todo[0]);
      TickAsocTidy(TickAsocOne(s, cfg, todo[0]), cfg, todo[1..]);
    }
  }

  lemma TickTidy(s: Ap, cfg: Config)
    requires Good(cfg, s)
    ensures AllBelow(s.auth, NUM_STA) && Tidy(s, Tick(s, cfg))
  {
    TickAuthKeepsGood(s, cfg, s.auth);
    TickAuthTidy(s, cfg, s.auth);
    var m := TickAuth(s, s.auth);
    TickAsocTidy(m, cfg, m.asoc);
  }

  lemma {:induction false} FlushTidy(s: Ap, cfg: Config, todo: seq<nat>)
    requires Good(cfg, s) && NoDup(todo) && forall x :: x in todo ==> x in s.asoc
    ensures AllBelow(todo, NUM_STA) && Tidy(s, FlushAsoc(s, cfg, todo))
    decreases |todo|
  {
    assert forall i :: 0 <= i < |todo| ==> todo[i] in s.asoc;
    ListedBelow(s);
    if todo != [] {
      FlushFirst(s, cfg, todo);
      DelistKeepsGood(s, cfg, todo[0]);
      var d := s.(asoc := Without(s.asoc, todo[0]));
      SameAidsTidy(s, d);
      ApFreeTidy(d, cfg, todo[0]);
      FlushTidy(ApFreeSta(d, cfg, todo[0]), cfg, todo[1..]);
    }
  }

  /** An association request keeps what is stale, and makes a slot stale if and only if it refuses a holder. */
  lemma AssocSlots(s: Ap, cfg: Config, f: AssocFrame)
    requires Good(cfg, s)
    ensures ChainsInRange(s) && KeepsStale(s, OnAssocReq(s, cfg, f).0)
    ensures Tidy(s, OnAssocReq(s, cfg, f).0) <==> !RefusesHolder(s, cfg, f)
  {
    AssocAids(s, cfg, f);
    if Candidate(s, f).Some? {
      var x := Candidate(s, f).value;
      assert AidOk(s, x);
      var refused := f.elementsRefused.Some? || AdmitRefuses(s, cfg, x, f);
      AidChangeSlots(s, OnAssocReq(s, cfg, f).0, x, refused);
    }
  }

  lemma AidChangeSlots(s: Ap, r: Ap, x: nat, refused: bool)
    requires Shape(s) && InUse(s, x)
    requires s.sta[x].aid <= NUM_STA && (s.sta[x].aid > 0 ==> s.aids[s.sta[x].aid - 1] == Some(x))
    requires s.sta[x].aid == 0 && !refused ==> LeastFreeAid(s.aids) < NUM_STA
    requires AidChange(s, r, x, if refused then 0 else AidFor(s, x), AidsAfter(s, x, refused))
    ensures KeepsStale(s, r) && (Tidy(s, r) <==> !(refused && s.sta[x].aid > 0))
  {
    if refused && s.sta[x].aid > 0 {
      assert Stale(r, s.sta[x].aid - 1) && !Stale(s, s.sta[x].aid - 1);
    }
  }

  lemma DirectTidy(s: Ap, r: Ap)
    requires Shape(s) && Shape(r) && Direct(s, r)
    ensures Tidy(s, r)
  {
    forall k: int
      ensures Stale(s, k) <==> Stale(r, k)
      ensures Stale(s, k) ==> r.aids[k] == s.aids[k]
    {
      if 0 <= k < NUM_STA {
        assert r.aids[k] == if GivenBack(s, r, k) then None else s.aids[k];
      }
    }
  }

  lemma FreeAssocTidy(s: Ap, own: Mac)
    requires Pool(s) && Queues(s)
    ensures Tidy(s, FreeAssoc(s, own))
  {
    FreedEffect(s, own);
    var f := Freed(s, own);
    DirectTidy(s, f);
    AllocTidy(f, BROADCAST);
    SameAidsTidy(Alloc(f, BROADCAST).0, InitBcmc(f));
  }

  /** A frame from a group address can have given the broadcast station an AID. */
  ghost predicate BroadcastHolds(s: Ap)
    requires Shape(s) && ChainsInRange(s)
  {
    var b := Lookup(s, BROADCAST);
    b.Some? && s.sta[b.value].aid > 0
  }

  lemma UpdateBmcSlots(s: Ap)
    requires Inv(s)
    ensures ChainsInRange(s) && KeepsStale(s, UpdateBmc(s))
    ensures Tidy(s, UpdateBmc(s)) <==> !BroadcastHolds(s)
  {
    LookupRefinesMap(s, BROADCAST);
    if x: nat :| Lookup(s, BROADCAST) == Some(x) {
      assert AidOk(s, x);
      AidChangeSlots(s, UpdateBmc(s), x, true);
    }
  }

  lemma BeaconSlots(s: Ap, own: Mac)
    requires Inv(s)
    ensures ChainsInRange(s) && KeepsStale(s, ApState.SetBeacon(s, own))
    ensures Tidy(s, ApState.SetBeacon(s, own)) <==> !BroadcastHolds(s)
  {
    UpdateBmcSlots(s);
    AllocTidy(UpdateBmc(s), own);
  }

  /** The event takes the AID from a holder: a refused association request, or a beacon when the broadcast station has one. */
  ghost predicate Orphans(s: Ap, cfg: Config, e: Event)
    requires Good(cfg, s)
  {
    PoolGivesRanges(s);
    match e
    case AssocEvent(f) => RefusesHolder(s, cfg, f)
    case SetBeacon(_) => BroadcastHolds(s)
    case _ => false
  }

  lemma OnStationTidy(s: Ap, cfg: Config, e: Event, x: nat)
    requires Good(cfg, s) && InUse(s, x) && !e.AddSta?
    ensures Tidy(s, OnStation(s, cfg, e, x))
  {
    if e.Remove? {
      ApFreeTidy(s, cfg, x);
    } else {
      SameAidsTidy(s, OnStation(s, cfg, e, x));
    }
  }

  lemma OnAllSlots(s: Ap, cfg: Config, e: Event)
    requires Good(cfg, s) && !OneStation(e)
    ensures KeepsStale(s, OnAll(s, cfg, e)) && (Tidy(s, OnAll(s, cfg, e)) <==> !Orphans(s, cfg, e))
  {
    PoolGivesRanges(s);
    ListedBelow(s);
    match e
    case AuthEvent(authMode, wep, f) => AuthFrameTidy(s, cfg, authMode, wep, f);
    case AssocEvent(f) => AssocSlots(s, cfg, f);
    case SetBeacon(own) => BeaconSlots(s, own);
    case Disassociate(linked, own) => if linked { FreeAssocTidy(s, own); }
    case SetMaxNumSta(_) => SameAidsTidy(s, OnAll(s, cfg, e));
    case FlushEvent => FlushTidy(s, cfg, s.asoc);
    case TickEvent => TickTidy(s, cfg);
    case _ =>
  }

  lemma StepSlots(s: Ap, cfg: Config, e: Event)
    requires ValidConfig(cfg) && Good(cfg, s) && !e.AddSta?
    ensures KeepsStale(s, Step(s, cfg, e)) && (Tidy(s, Step(s, cfg, e)) <==> !Orphans(s, cfg, e))
  {
    AddresseeIsFound(s, e);
    if !OneStation(e) {
      OnAllSlots(s, cfg, e);
    } else if x: nat :| Addressee(s, e) == Some(x) {
      OnStationTidy(s, cfg, e, x);
    }
  }

  ghost predicate NeverOrphans(s: Ap, cfg: Config, es: seq<Event>)
    requires ValidConfig(cfg) && Good(cfg, s) && Truthful(s, cfg, es)
    decreases |es|
  {
    es == [] || (!Orphans(s, cfg, es[0]) && (StepKeepsGood(s, cfg, es[0]); NeverOrphans(Step(s, cfg, es[0]), cfg, es[1..])))
  }

  /** A run keeps what is stale, and makes a slot stale if and only if one of its events orphans one. */
  lemma {:induction false} RunSlots(s: Ap, cfg: Config, es: seq<Event>)
    requires ValidConfig(cfg) && Good(cfg, s) && Truthful(s, cfg, es) && forall k :: 0 <= k < |es| ==> !es[k].AddSta?
    ensures KeepsStale(s, Run(s, cfg, es)) && (Tidy(s, Run(s, cfg, es)) <==> NeverOrphans(s, cfg, es))
    decreases |es|
  {
    if es != [] {
      StepKeepsGood(s, cfg, es[0]);
      StepSlots(s, cfg, es[0]);
      RunSlots(Step(s, cfg, es[0]), cfg, es[1..]);
    }
  }

  /**
   From a table without stale slots a run leaves none behind if and only if none of its events took the
   AID from a station that held one. Requests of rtw_add_sta can hand a slot back and are kept out.
   */
  lemma SlotsCurrentIff(s: Ap, cfg: Config, es: seq<Event>)
    requires ValidConfig(cfg) && Good(cfg, s) && Truthful(s, cfg, es) && forall k :: 0 <= k < |es| ==> !es[k].AddSta?
    requires SlotsCurrent(s)
    ensures SlotsCurrent(Run(s, cfg, es)) <==> NeverOrphans(s, cfg, es)
  {
    RunSlots(s, cfg, es);
    CurrentMeansNoneStale(s);
    CurrentMeansNoneStale(Run(s, cfg, es));
  }

  /** A stale slot is taken, and no station has its AID. */
  lemma StaleIsOut(s: Ap, k: nat)
    requires Inv(s) && Stale(s, k)
    ensures LeastFreeAid(s.aids) != k && forall x :: InUse(s, x) ==> s.sta[x].aid != k + 1
  {
    forall x | InUse(s, x)
      ensures s.sta[x].aid != k + 1
    {
      assert AidOk(s, x);
    }
  }

  /** A stale slot is never offered again: through the whole run it keeps the station it names, and no station gets its AID. */
  lemma StaleIsNeverOffered(s: Ap, cfg: Config, es: seq<Event>, k: nat)
    requires ValidConfig(cfg) && Good(cfg, s) && Truthful(s, cfg, es) && forall i :: 0 <= i < |es| ==> !es[i].AddSta?
    requires Stale(s, k)
    ensures var r := Run(s, cfg, es);
      r.aids[k] == s.aids[k] && LeastFreeAid(r.aids) != k && forall x :: InUse(r, x) ==> r.sta[x].aid != k + 1
  {
    RunSlots(s, cfg, es);
    StaleIsOut(Run(s, cfg, es), k);
  }
}
