/**
 The access point as the driver runs it: one adapter whose pool, hash table and AID table are
 fixed arrays and whose lists are walked and edited in place. Every method is proved to do to the
 adapter's view exactly what the corresponding function of ApState does.
 */
module AdapterModule {
  import opened Wrappers
  import opened Lists
  import opened MacAddress
  import opened ApState
  import opened ApPool
  import opened ApHandlers
  import opened ApExpiry
  import opened ApTeardown
  import opened ApReset

  class Adapter {
    const cfg: Config
    const sta: array<StaInfo>          // pstainfo_buf
    const hash: array<seq<nat>>        // sta_hash
    const aids: array<Option<nat>>     // sta_aid
    var free: seq<nat>                 // free_sta_queue
    var asocStaCount: int
    var maxNumSta: nat
    var authList: seq<nat>
    var asocList: seq<nat>
    var bss: Bss
    ghost var leak: Six<int>

    ghost predicate Allocated()
      reads this
    {
      sta.Length == hash.Length == aids.Length == NUM_STA
    }

    ghost function View(): (s: Ap)
      reads this, sta, hash, aids
      ensures Allocated() ==> Shape(s)
    {
      Ap(sta[..], free, hash[..], asocStaCount, aids[..], maxNumSta, authList, asocList, bss, leak)
    }

    /** What get_stainfo and the list walks rely on. */
    ghost predicate Valid()
      reads this, sta, hash, aids
    {
      Allocated() && Pool(View()) && Queues(View())
    }

    // ---- rtw_sta_mgt.c -----------------------------------------------------------------------

    /** _init_sta_priv */
    constructor (cfg: Config)
      ensures this.cfg == cfg && fresh(sta) && fresh(hash) && fresh(aids)
      ensures Allocated() && View() == FreshAp()
    {
      this.cfg := cfg;
      sta := new StaInfo[NUM_STA](i => Blank(BROADCAST));
      hash := new seq<nat>[NUM_STA](i => []);
      aids := new Option<nat>[NUM_STA](i => None);
      free, asocStaCount := [], 0;
      maxNumSta, authList, asocList := NUM_STA, [], [];
      bss := Bss(All(0), HtOpMode(Pure, false, false), false, []);
      leak := All(0);
      new;
      ghost var before := View();
      for i := 0 to NUM_STA
        invariant Allocated() && free == seq(i, k => k)
        invariant View() == before.(free := free)
      {
        free := free + [i];
      }
    }

    /** alloc_stainfo */
    method AllocStaInfo(addr: Mac) returns (r: Option<nat>)
      requires Allocated() && AllBelow(free, NUM_STA)
      modifies this, sta, hash
      ensures Allocated() && (View(), r) == Alloc(old(View()), addr)
    {
      if free == [] {
        return None;
      }
      var x := free[0];
      free := free[1..];
      sta[x] := Blank(addr);
      var h := WifiMacHash(addr);
      hash[h] := hash[h] + [x];
      asocStaCount := asocStaCount + 1;
      return Some(x);
    }

    method UnlinkSta(x: nat)
      requires Allocated() && x < NUM_STA
      modifies this, sta, hash
      ensures Allocated() && View() == Unlink(old(View()), x)
    {
      leak := AddBits(leak, sta[x].capSet);
      var h := WifiMacHash(sta[x].hwaddr);
      hash[h] := Without(hash[h], x);
      asocStaCount := asocStaCount - 1;
      asocList := Without(asocList, x);
      authList := Without(authList, x);
      sta[x] := sta[x].(expireTo := 0);
    }

    /** free_stainfo */
    method FreeStaInfo(x: nat)
      requires Allocated() && x < NUM_STA
      modifies this, sta, hash, aids
      ensures Allocated() && View() == FreeSta(old(View()), x)
    {
      UnlinkSta(x);
      var aid := sta[x].aid;
      if 0 < aid <= NUM_STA && aids[aid - 1] == Some(x) {
        aids[aid - 1] := None;
        sta[x] := sta[x].(aid := 0);
      }
      free := free + [x];
    }

    /** get_stainfo: the chain is walked from its head to the first station with the address. */
    method GetStaInfo(addr: Mac) returns (r: Option<nat>)
      requires Allocated() && ChainsInRange(View())
      ensures r == Lookup(View(), addr)
    {
      var a := if IsMulticast(addr) then BROADCAST else addr;
      var chain := hash[WifiMacHash(a)];
      assert chain == View().hash[WifiMacHash(a)];
      var i := 0;
      while i < |chain|
        invariant 0 <= i <= |chain|
        invariant FindIn(sta[..], chain, a) == FindIn(sta[..], chain[i..], a)
      {
        if sta[chain[i]].hwaddr == a {
          return Some(chain[i]);
        }
        i := i + 1;
      }
      return None;
    }

    // ---- capability counters -----------------------------------------------------------------

    method AnnounceBeacon(ie: BeaconIe)
      requires Allocated()
      modifies this`bss
      ensures bss == Announce(old(bss), ie)
    {
      bss := bss.(beacons := bss.beacons + [ie]);
    }

    method CountCap(c: Cap, delta: int, edge: int)
      requires Allocated()
      modifies this`bss
      ensures bss == Count(old(bss), cfg, c, delta, edge)
    {
      bss := bss.(counter := bss.counter.Put(c, bss.counter.Get(c) + delta));
      var ie := BeaconOf(cfg, c);
      if bss.counter.Get(c) == edge && ie.Some? {
        AnnounceBeacon(ie.value);
      }
    }

    method FollowCap(x: nat, c: Cap, on: bool)
      requires Allocated() && x < NUM_STA
      modifies this`bss, sta
      ensures Allocated() && View() == PutCaps(old(View()), x, Follow(CapsOf(old(View()), x), cfg, c, on))
    {
      var bits := sta[x].capSet;
      if on && !bits.Get(c) {
        sta[x] := sta[x].(capSet := bits.Put(c, true));
        CountCap(c, 1, 1);
      } else if !on && bits.Get(c) {
        sta[x] := sta[x].(capSet := bits.Put(c, false));
        CountCap(c, -1, 0);
      }
      assert sta[..] == old(sta[..])[x := sta[x]];
    }

    method HtOperationUpdate() returns (changes: nat)
      requires Allocated()
      modifies this`bss
      ensures (bss.htOpMode, changes) ==
        NewHtOpMode(cfg, old(bss).olbcHt, old(bss).htOpMode,
                    old(bss).counter.noHtGf != 0, old(bss).counter.noHt != 0, old(bss).counter.ht20Mhz != 0)
      ensures bss == old(bss).(htOpMode := bss.htOpMode)
    {
      if cfg.htOption {
        return 0;
      }
      changes := 0;
      var mode := bss.htOpMode;
      if !mode.nonGfPresent && bss.counter.noHtGf != 0 {
        mode := mode.(nonGfPresent := true);
        changes := changes + 1;
      } else if mode.nonGfPresent && bss.counter.noHtGf == 0 {
        mode := mode.(nonGfPresent := false);
        changes := changes + 1;
      }
      if !mode.nonHtPresent && (bss.counter.noHt != 0 || bss.olbcHt) {
        mode := mode.(nonHtPresent := true);
        changes := changes + 1;
      } else if mode.nonHtPresent && bss.counter.noHt == 0 && !bss.olbcHt {
        mode := mode.(nonHtPresent := false);
        changes := changes + 1;
      }
      var newMode := Pure;
      if bss.counter.noHt != 0 || mode.nonGfPresent {
        newMode := Mixed;
      } else if cfg.apSupWidth && bss.counter.ht20Mhz != 0 {
        newMode := Ht20MhzStaAssoced;
      } else if bss.olbcHt {
        newMode := MayBeLegacyStas;
      }
      if mode.opMode != newMode {
        mode := mode.(opMode := newMode);
        changes := changes + 1;
      }
      bss := bss.(htOpMode := mode);
    }

    method FinishHtUpdate()
      requires Allocated()
      modifies this`bss
      ensures bss == ApState.HtOperationUpdate(old(bss), cfg)
    {
      var changes := HtOperationUpdate();
      if changes > 0 {
        AnnounceBeacon(HtCapability);
        AnnounceBeacon(HtAddInfo);
      }
    }

    /** bss_cap_update */
    method BssCapUpdate(x: nat)
      requires Allocated() && x < NUM_STA
      modifies this`bss, sta
      ensures Allocated() && View() == ApState.BssCapUpdate(old(View()), cfg, x)
    {
      var p := sta[x].asked;
      ghost var s := View();
      ghost var k := CapsOf(s, x);
      FollowCap(x, NonErp, p.nonErp);
      ghost var k1 := Follow(k, cfg, NonErp, p.nonErp);
      FollowCap(x, NoShortSlot, !p.shortSlot);
      ghost var k2 := Follow(k1, cfg, NoShortSlot, !p.shortSlot);
      PutCapsTwice(s, x, k1, k2);
      FollowCap(x, NoShortPreamble, !p.shortPreamble);
      ghost var k3 := Follow(k2, cfg, NoShortPreamble, !p.shortPreamble);
      PutCapsTwice(s, x, k2, k3);
      FollowCap(x, NoHt, !p.ht);
      ghost var k4 := Follow(k3, cfg, NoHt, !p.ht);
      PutCapsTwice(s, x, k3, k4);
      BssCapUpdateGreenfield(x, s, k4);
      ghost var k6 := UpdateHtCaps(k3, cfg, p);
      FinishHtUpdate();
      PutCapsTwice(s, x, k6, HtOperationAfter(k6, cfg));
    }

    method BssCapUpdateGreenfield(x: nat, ghost s: Ap, ghost k: Caps)
      requires Allocated() && x < NUM_STA && Shape(s) && View() == PutCaps(s, x, k)
      modifies this`bss, sta
      ensures Allocated()
      ensures var p := s.sta[x].asked;
        View() == PutCaps(s, x, MarkIf(MarkIf(k, cfg, NoHtGf, p.ht && !p.htGreenfield), cfg, Ht20Mhz, p.ht && !p.htSupWidth))
    {
      var p := sta[x].asked;
      if p.ht && !p.htGreenfield {
        FollowCap(x, NoHtGf, true);
      }
      ghost var k1 := MarkIf(k, cfg, NoHtGf, p.ht && !p.htGreenfield);
      PutCapsTwice(s, x, k, k1);
      if p.ht && !p.htSupWidth {
        FollowCap(x, Ht20Mhz, true);
      }
      PutCapsTwice(s, x, k1, MarkIf(k1, cfg, Ht20Mhz, p.ht && !p.htSupWidth));
    }

    /** ap_free_sta */
    method ApFreeSta(x: nat)
      requires Allocated() && x < NUM_STA
      modifies this, sta, hash, aids
      ensures Allocated() && View() == ApState.ApFreeSta(old(View()), cfg, x)
    {
      ghost var s := View();
      ghost var k := CapsOf(s, x);
      FollowCap(x, NonErp, false);
      ghost var k1 := Unmark(k, cfg, NonErp);
      FollowCap(x, NoShortSlot, false);
      ghost var k2 := Unmark(k1, cfg, NoShortSlot);
      PutCapsTwice(s, x, k1, k2);
      FollowCap(x, NoShortPreamble, false);
      ghost var k3 := Unmark(k2, cfg, NoShortPreamble);
      PutCapsTwice(s, x, k2, k3);
      FollowCap(x, NoHtGf, false);
      ghost var k4 := Unmark(k3, cfg, NoHtGf);
      PutCapsTwice(s, x, k3, k4);
      FollowCap(x, NoHt, false);
      ghost var k5 := Unmark(k4, cfg, NoHt);
      PutCapsTwice(s, x, k4, k5);
      FollowCap(x, Ht20Mhz, false);
      ghost var k6 := Unmark(k5, cfg, Ht20Mhz);
      PutCapsTwice(s, x, k5, k6);
      FinishHtUpdate();
      PutCapsTwice(s, x, k6, HtOperationAfter(k6, cfg));
      FreeStaInfo(x);
    }

    // ---- rtw_mlme_ext.c: frames --------------------------------------------------------------

    /** OnAuth; `pstat` is the slot of the station, and a refusal leaves the station as it is. */
    method OnAuth(authMode: nat, wep: bool, f: AuthFrame) returns (status: Status)
      requires Allocated() && ChainsInRange(View()) && AllBelow(free, NUM_STA)
      modifies this, sta, hash
      ensures Allocated() && (View(), status) == ApState.OnAuth(old(View()), cfg, authMode, wep, f)
    {
      var mode := authMode;
      if mode == 2 && !wep {
        mode := 0;
      }
      if (f.algorithm > 0 && mode == 0) || (f.algorithm == 0 && mode == 1) {
        return NoSuppAlg;
      }
      var pstat := GetStaInfo(f.sa);
      if pstat == None {
        pstat := AllocStaInfo(f.sa);
        if pstat == None {
          return UnableHandleSta;
        }
        sta[pstat.value] := sta[pstat.value].(state := NO_STATE.(authNull := true), authSeq := 0);
        status := AuthListed(pstat.value, mode, f);
      } else {
        asocList := Without(asocList, pstat.value);
        status := AuthListed(pstat.value, mode, f);
      }
    }

    method AuthListed(x: nat, mode: nat, f: AuthFrame) returns (status: Status)
      requires Allocated() && x < NUM_STA
      modifies this`authList, sta
      ensures Allocated() && (View(), status) == ApHandlers.AuthListed(old(View()), cfg, mode, f, x)
    {
      if x !in authList {
        authList := authList + [x];
      }
      var p := sta[x];
      if p.authSeq == 0 {
        p := p.(expireTo := cfg.authTo);
      }
      status := Successful;
      if p.authSeq + 1 != f.seqNo {
        status := OutOfAuthSeq;
      } else if f.algorithm == 0 && (mode == 0 || mode == 2) {
        if f.seqNo == 1 {
          p := AuthDone(p.(state := p.state.(authNull := false, authSuccess := true), expireTo := cfg.assocTo), f.seqNo, OpenAccepted);
        } else {
          status := OutOfAuthSeq;
        }
      } else if f.seqNo == 1 {
        p := AuthDone(p.(state := p.state.(authNull := false, authState := true)), f.seqNo, ChallengeIssued);
      } else if f.seqNo == 3 {
        if f.challengeOk {
          p := AuthDone(p.(state := p.state.(authState := false, authSuccess := true), expireTo := cfg.assocTo), f.seqNo, ChallengePassed);
        } else {
          status := ChallengeFail;
        }
      } else {
        status := OutOfAuthSeq;
      }
      sta[x] := p;
    }

    /** The rate loop of OnAssocReq: the NONERP flag falls with the first rate above 11 Mb/s. */
    static method NonErpFlag(rates: seq<bv8>) returns (nonErp: bool)
      ensures nonErp == OnlySlowRates(rates)
    {
      nonErp := true;
      for i := 0 to |rates|
        invariant nonErp && forall j :: 0 <= j < i ==> rates[j] & 0x7f <= 22
      {
        if rates[i] & 0x7f > 22 {
          return false;
        }
      }
    }

    /** The AID loop of OnAssocReq: the first AID whose slot is NULL, or NUM_STA + 1. */
    method FirstFreeAid() returns (aid: nat)
      requires Allocated()
      ensures aid == LeastFreeAid(aids[..]) + 1
    {
      aid := 1;
      while aid <= NUM_STA && aids[aid - 1] != None
        invariant 1 <= aid <= NUM_STA + 1
        invariant forall j :: 0 <= j < aid - 1 ==> aids[j].Some?
      {
        aid := aid + 1;
      }
    }

    /** OnAssocReq */
    method OnAssocReq(f: AssocFrame) returns (status: Status)
      requires Allocated() && ChainsInRange(View()) && maxNumSta <= NUM_STA
      modifies this`authList, this`asocList, sta, aids
      ensures Allocated() && (View(), status) == ApState.OnAssocReq(old(View()), cfg, f)
    {
      if f.tooShort {
        return Refused(RSON_CLS2);
      }
      var pstat := GetStaInfo(f.sa);
      if pstat == None || !sta[pstat.value].state.authSuccess {
        return Refused(RSON_CLS2);
      }
      var x := pstat.value;
      SetAsked(x, sta[x].asked.(shortSlot := f.shortSlot));
      if f.elementsRefused.Some? {
        status := RefuseAssoc(x, Refused(f.elementsRefused.value));
        return;
      }
      status := AssocAdmit(x, f);
    }

    method AssocAdmit(x: nat, f: AssocFrame) returns (status: Status)
      requires Allocated() && x < NUM_STA && maxNumSta <= NUM_STA
      modifies this`authList, this`asocList, sta, aids
      ensures Allocated() && (View(), status) == ApState.AssocAdmit(old(View()), cfg, x, f)
    {
      var asked := sta[x].asked.(ht := false, htGreenfield := false, htSupWidth := false);
      if f.htCap.Some? {
        asked := asked.(ht := true, htGreenfield := f.htCap.value.0, htSupWidth := f.htCap.value.1);
      }
      if !cfg.htOption && asked.ht {
        SetAsked(x, asked);
        status := RefuseAssoc(x, Refused(STATS_FAILURE));
        return;
      }
      var nonErp := NonErpFlag(f.rates);
      SetAsked(x, asked.(nonErp := nonErp, shortPreamble := f.shortPreamble));
      status := AssocFinish(x, f);
    }

    method AssocFinish(x: nat, f: AssocFrame) returns (status: Status)
      requires Allocated() && x < NUM_STA && maxNumSta <= NUM_STA
      modifies this`authList, this`asocList, sta, aids
      ensures Allocated() && (View(), status) == ApState.AssocFinish(old(View()), cfg, x, f)
    {
      if f.p2pRefused {
        status := RefuseAssoc(x, Successful);
        return;
      }
      var aid := sta[x].aid;
      if aid == 0 {
        aid := FirstFreeAid();
        if aid > maxNumSta {
          status := RefuseAssoc(x, Refused(WLAN_STATUS_AP_UNABLE_TO_HANDLE_NEW_STA));
          return;
        }
      }
      AssocAccept(x, aid);
      return Successful;
    }

    method SetAsked(x: nat, asked: Asked)
      requires Allocated() && x < NUM_STA
      modifies sta
      ensures Allocated() && View() == Asking(old(View()), x, asked)
    {
      sta[x] := sta[x].(asked := asked);
    }

    /** OnAssocReqFail: the AID is zeroed, its slot in the table is not touched. */
    method RefuseAssoc(x: nat, reason: Status) returns (status: Status)
      requires Allocated() && x < NUM_STA
      modifies sta
      ensures Allocated() && (View(), status) == AssocRefused(old(View()), x, reason)
    {
      sta[x] := sta[x].(aid := 0);
      return reason;
    }

    method AssocAccept(x: nat, aid: nat)
      requires Allocated() && x < NUM_STA
      modifies this`authList, this`asocList, sta, aids
      ensures Allocated() && View() == ApState.AssocAccept(old(View()), cfg, x, aid)
    {
      var p := sta[x];
      if p.aid == 0 && 0 < aid <= NUM_STA {
        aids[aid - 1] := Some(x);
      }
      p := p.(aid := aid, state := p.state.(asoc := true), log := p.log + [Associated]);
      authList := Without(authList, x);
      if x !in asocList {
        p := p.(expireTo := cfg.expireTo);
        asocList := asocList + [x];
      }
      sta[x] := p;
    }

    /** update_sta_info_apmode */
    method UpdateStaInfoApMode(x: nat)
      requires Allocated() && x < NUM_STA
      modifies sta
      ensures Allocated() && View() == StaInfoUpdate(old(View()), x)
    {
      sta[x] := sta[x].(macId := sta[x].aid + 1, rxPkts := 0, lastRxPkts := 0, state := NO_STATE.(asoc := true));
    }

    /** stassoc_event_callback in AP mode */
    method StaAssocDone(addr: Mac)
      requires Allocated() && ChainsInRange(View())
      modifies this`bss, sta
      ensures Allocated()
      ensures var s := old(View()); var x := Lookup(s, addr);
        View() == if x.None? then s else StaInfoUpdate(ApState.BssCapUpdate(s, cfg, x.value), x.value)
    {
      var psta := GetStaInfo(addr);
      if psta.Some? {
        var x := psta.value;
        BssCapUpdate(x);
        UpdateStaInfoApMode(x);
      }
    }

    /** rtw_add_sta, with its return values -EINVAL and -ENOMEM */
    method AddSta(addr: Mac, aid: nat, ht: Option<(bool, bool)>) returns (ret: int)
      requires Allocated() && ChainsInRange(View())
      modifies sta
      ensures Allocated()
      ensures var s := old(View()); var x := Lookup(s, addr);
        && View() == (if addr == BROADCAST || x.None? then s else AddStation(s, x.value, aid, ht))
        && ret == if addr == BROADCAST then -22 else if x.None? then -12 else 0
    {
      if addr == BROADCAST {
        return -22;
      }
      var psta := GetStaInfo(addr);
      if psta.None? {
        return -12;
      }
      var x := psta.value;
      var p := sta[x].(aid := aid);
      if ht.Some? {
        p := p.(asked := p.asked.(htGreenfield := ht.value.0, htSupWidth := ht.value.1));
      }
      sta[x] := p;
      UpdateStaInfoApMode(x);
      return 0;
    }

    // ---- list walks --------------------------------------------------------------------------

    method VisitAuth(x: nat)
      requires Allocated() && x < NUM_STA
      modifies this, sta, hash, aids
      ensures Allocated() && View() == TickAuthOne(old(View()), x)
    {
      if sta[x].expireTo > 0 {
        sta[x] := sta[x].(expireTo := sta[x].expireTo - 1);
        if sta[x].expireTo == 0 {
          authList := Without(authList, x);
          FreeStaInfo(x);
        }
      }
      assert old(sta[x].expireTo) == 0 ==> View() == old(View());
    }

    /** The auth_list half of expire_timeout_chk: the successor is fetched before the visit may free the station. */
    method ExpireAuthList()
      requires Allocated() && NoDup(authList) && AllBelow(authList, NUM_STA)
      modifies this, sta, hash, aids
      ensures Allocated() && View() == TickAuth(old(View()), old(authList))
    {
      var plist := First(authList);
      ghost var done: seq<nat> := [];
      ghost var todo := authList;
      while plist != None
        invariant Allocated() && authList == done + todo && plist == First(todo)
        invariant NoDup(authList) && AllBelow(todo, NUM_STA)
        invariant TickAuth(View(), todo) == TickAuth(old(View()), old(authList))
        decreases |todo|
      {
        var x := plist.value;
        AuthWalkStep(View(), done, todo);
        plist := Next(authList, x);
        done := if sta[x].expireTo == 1 then done else done + [x];
        VisitAuth(x);
        todo := todo[1..];
      }
    }

    method VisitAsoc(x: nat)
      requires Allocated() && x < NUM_STA
      modifies this, sta, hash, aids
      ensures Allocated() && View() == TickAsocOne(old(View()), cfg, x)
    {
      if Alive(sta[x]) {
        sta[x] := sta[x].(lastRxPkts := sta[x].rxPkts, expireTo := cfg.expireTo);
      }
      var e := sta[x].expireTo;
      if e > 0 {
        sta[x] := sta[x].(expireTo := e - 1);
      }
      assert sta[..] == old(sta[..])[x := Visited(cfg, old(sta[x]))];
      if e == 1 {
        asocList := Without(asocList, x);
        ApFreeSta(x);
      }
    }

    /** The asoc_list half of expire_timeout_chk. */
    method ExpireAsocList()
      requires Allocated() && NoDup(asocList) && AllBelow(asocList, NUM_STA)
      modifies this, sta, hash, aids
      ensures Allocated() && View() == TickAsoc(old(View()), cfg, old(asocList))
    {
      var plist := First(asocList);
      ghost var done: seq<nat> := [];
      ghost var todo := asocList;
      while plist != None
        invariant Allocated() && asocList == done + todo && plist == First(todo)
        invariant NoDup(asocList) && AllBelow(todo, NUM_STA)
        invariant TickAsoc(View(), cfg, todo) == TickAsoc(old(View()), cfg, old(asocList))
        decreases |todo|
      {
        var x := plist.value;
        AsocWalkStep(View(), cfg, done, todo);
        plist := Next(asocList, x);
        done := if Countdown(cfg, sta[x]) == 1 then done else done + [x];
        VisitAsoc(x);
        todo := todo[1..];
      }
    }

    /** expire_timeout_chk */
    method ExpireTimeoutChk()
      requires Allocated() && Good(cfg, View())
      modifies this, sta, hash, aids
      ensures Allocated() && AllBelow(old(authList), NUM_STA) && View() == Tick(old(View()), cfg)
      ensures Good(cfg, View())
    {
      ListedBelow(View());
      TickEffect(View(), cfg);
      TickAuthKeepsGood(View(), cfg, authList);
      ExpireAuthList();
      ListedBelow(View());
      ExpireAsocList();
    }

    /** One station of the flush: off asoc_list, then freed. */
    method FlushOne(x: nat)
      requires Allocated() && x < NUM_STA
      modifies this, sta, hash, aids
      ensures Allocated()
      ensures var s := old(View()); View() == ApState.ApFreeSta(s.(asoc := Without(s.asoc, x)), cfg, x)
    {
      asocList := Without(asocList, x);
      ApFreeSta(x);
    }

    /** rtw_sta_flush */
    method StaFlush()
      requires Allocated() && NoDup(asocList) && AllBelow(asocList, NUM_STA)
      modifies this, sta, hash, aids
      ensures Allocated() && View() == FlushAsoc(old(View()), cfg, old(asocList))
    {
      var plist := First(asocList);
      ghost var todo := asocList;
      while plist != None
        invariant Allocated() && asocList == todo && plist == First(todo)
        invariant NoDup(asocList) && AllBelow(todo, NUM_STA)
        invariant FlushAsoc(View(), cfg, todo) == FlushAsoc(old(View()), cfg, old(asocList))
        decreases |todo|
      {
        var x := plist.value;
        FlushWalkStep(View(), cfg, todo);
        plist := Next(asocList, x);
        FlushOne(x);
        todo := todo[1..];
      }
    }

    method FreeUnless(x: nat, keep: Option<nat>)
      requires Allocated() && x < NUM_STA
      modifies this, sta, hash, aids
      ensures Allocated() && View() == if keep == Some(x) then old(View()) else FreeSta(old(View()), x)
    {
      if keep != Some(x) {
        FreeStaInfo(x);
      }
    }

    /** One chain of free_all_stainfo. */
    method FreeChainSta(index: nat, keep: Option<nat>)
      requires Allocated() && index < NUM_STA && Pool(View()) && Queues(View())
      modifies this, sta, hash, aids
      ensures Allocated() && Pool(View()) && Queues(View()) && AllBelow(old(View()).hash[index], NUM_STA)
      ensures View() == FreeChain(old(View()), old(View()).hash[index], keep)
    {
      ChainListed(View(), index);
      var plist := First(hash[index]);
      ghost var done: seq<nat> := [];
      ghost var todo := hash[index];
      ghost var r := FreeChain(View(), todo, keep);
      while plist != None
        invariant Allocated() && hash[index] == done + todo && plist == First(todo) && AllBelow(todo, NUM_STA)
        invariant Pool(View()) && Queues(View()) && FreeChain(View(), todo, keep) == r
        decreases |todo|
      {
        var x := plist.value;
        plist := FreeAndNext(index, x, keep, done, todo);
        done := if keep == Some(x) then done + [x] else done;
        todo := todo[1..];
      }
    }

    /** One node of the chain: its successor is read before it may be freed. */
    method FreeAndNext(index: nat, x: nat, keep: Option<nat>, ghost done: seq<nat>, ghost todo: seq<nat>) returns (plist: Option<nat>)
      requires Allocated() && index < NUM_STA && Pool(View()) && Queues(View()) && AllBelow(todo, NUM_STA)
      requires todo != [] && x == todo[0] && hash[index] == done + todo
      modifies this, sta, hash, aids
      ensures Allocated() && Pool(View()) && Queues(View()) && plist == First(todo[1..])
      ensures hash[index] == (if keep == Some(x) then done + [x] else done) + todo[1..]
      ensures FreeChain(old(View()), todo, keep) == FreeChain(View(), todo[1..], keep)
    {
      ChainWalkStep(View(), index, done, todo, keep);
      plist := Next(hash[index], x);
      FreeUnless(x, keep);
      assert hash[index] == View().hash[index];
    }

    /** free_all_stainfo */
    method FreeAllStaInfo()
      requires Allocated() && Pool(View()) && Queues(View())
      modifies this, sta, hash, aids
      ensures Allocated() && ChainsInRange(old(View())) && View() == FreeAll(old(View()))
      ensures Pool(View()) && Queues(View())
    {
      FreeAllEffect(View());
      var keep := GetStaInfo(BROADCAST);
      if asocStaCount == 1 {
        return;
      }
      for index := 0 to NUM_STA
        invariant Allocated() && Pool(View()) && Queues(View())
        invariant FreeChains(View(), index, keep) == FreeChains(old(View()), 0, keep)
      {
        FreeChainSta(index, keep);
      }
    }

    /** start_ap_mode */
    method StartApMode()
      requires Allocated()
      modifies this`bss, this`leak, aids
      ensures Allocated() && View() == StartAp(old(View()))
    {
      for i := 0 to NUM_STA
        invariant bss == old(bss) && leak == old(leak)
        invariant forall k :: 0 <= k < i ==> aids[k] == None
      {
        aids[i] := None;
      }
      bss := Bss(All(0), HtOpMode(Pure, false, false), false, []);
      leak := All(0);
      assert aids[..] == StartAp(old(View())).aids;
    }

    /** init_bcmc_stainfo */
    method InitBcmcStaInfo()
      requires Allocated() && AllBelow(free, NUM_STA)
      modifies this, sta, hash
      ensures Allocated() && View() == InitBcmc(old(View()))
    {
      var psta := AllocStaInfo(BROADCAST);
      if psta.Some? {
        sta[psta.value] := sta[psta.value].(macId := 1);
      }
    }

    /** stop_ap_mode */
    method StopApMode()
      requires Allocated() && Good(cfg, View())
      modifies this, sta, hash, aids
      ensures Allocated() && Good(cfg, Flush(old(View()), cfg)) && View() == RenewPool(Flush(old(View()), cfg))
    {
      ListedBelow(View());
      FlushEffect(View(), cfg, asocList);
      StaFlush();
      RenewStations();
    }

    /** The tail of stop_ap_mode and of free_assoc_resources. */
    method RenewStations()
      requires Allocated() && Pool(View()) && Queues(View())
      modifies this, sta, hash, aids
      ensures Allocated() && View() == RenewPool(old(View()))
    {
      FreeStationsEffect(View());
      FreeAllStaInfo();
      FreeAtSta(BROADCAST);
      InitBcmcStaInfo();
    }

    /** get_stainfo, and free_stainfo of what it finds */
    method FreeAtSta(addr: Mac)
      requires Allocated() && Pool(View()) && Queues(View())
      modifies this, sta, hash, aids
      ensures Allocated() && View() == FreeAt(old(View()), addr)
    {
      LookupRefinesMap(View(), addr);
      var psta := GetStaInfo(addr);
      if psta.Some? {
        FreeStaInfo(psta.value);
      }
    }

    /** free_assoc_resources in access-point state */
    method FreeAssocResources(own: Mac)
      requires Allocated() && Pool(View()) && Queues(View())
      modifies this, sta, hash, aids
      ensures Allocated() && View() == FreeAssoc(old(View()), own)
    {
      FreeAtEffect(View(), own);
      FreeAtSta(own);
      RenewStations();
    }

    /** What set_802_11_infrastructure_mode does to the stations when it leaves access-point mode. */
    method LeaveApMode(linked: bool, own: Mac)
      requires Allocated() && Good(cfg, View())
      modifies this, sta, hash, aids
      ensures Allocated() && Shape(View())
      ensures linked ==> OnlyBroadcast(View()) && Quiet(View())
      ensures var s := old(View()); var m := if linked then FreeAssoc(s, own) else s;
        Good(cfg, m) && Good(cfg, Flush(m, cfg)) && View() == RenewPool(Flush(m, cfg))
    {
      if linked {
        FreeAssocKeepsGood(View(), cfg, own);
        LeaveEffect(View(), cfg, own);
        FreeAssocResources(own);
      }
      StopApMode();
    }

    /** What rtw_set_beacon does to the stations; false is -EINVAL for want of a slot. */
    method SetBeacon(own: Mac) returns (ok: bool)
      requires Allocated() && Good(cfg, View())
      modifies this, sta, hash
      ensures Allocated() && ChainsInRange(old(View())) && AllBelow(old(free), NUM_STA)
      ensures View() == ApState.SetBeacon(old(View()), own) && Good(cfg, View())
      ensures var m := UpdateBmc(old(View())); ok <==> Lookup(m, own).Some? || m.free != []
    {
      PoolGivesRanges(View());
      SetBeaconKeepsGood(View(), cfg, own);
      UpdateBmcSta();
      var psta := GetStaInfo(own);
      if psta.None? {
        psta := AllocStaInfo(own);
      }
      return psta.Some?;
    }

    method UpdateBmcSta()
      requires Allocated() && ChainsInRange(View())
      modifies sta
      ensures Allocated() && View() == UpdateBmc(old(View()))
    {
      var psta := GetStaInfo(BROADCAST);
      if psta.Some? {
        var x := psta.value;
        sta[x] := sta[x].(aid := 0, macId := 1, rxPkts := 0, lastRxPkts := 0, state := NO_STATE.(asoc := true));
      }
    }
  }

  /** One round of the walk of asoc_list by the tick. */
  lemma AsocWalkStep(s: Ap, cfg: Config, done: seq<nat>, todo: seq<nat>)
    requires Shape(s) && todo != [] && AllBelow(todo, NUM_STA) && s.asoc == done + todo && NoDup(s.asoc)
    ensures var x := todo[0];
      var r := TickAsocOne(s, cfg, x);
      && Next(s.asoc, x) == First(todo[1..])
      && r.asoc == (if Countdown(cfg, s.sta[x]) == 1 then done else done + [x]) + todo[1..] && NoDup(r.asoc)
      && TickAsoc(s, cfg, todo) == TickAsoc(r, cfg, todo[1..])
  {
    assert s.asoc == done + [todo[0]] + todo[1..];
    NextSplit(done, todo[0], todo[1..]);
    WithoutSplit(done, todo[0], todo[1..]);
    WithoutTwice(s.asoc, todo[0]);
    ApFreeLists(s.(sta := s.sta[todo[0] := Visited(cfg, s.sta[todo[0]])], asoc := Without(s.asoc, todo[0])), cfg, todo[0]);
  }

  lemma ApFreeLists(s: Ap, cfg: Config, x: nat)
    requires Shape(s) && x < NUM_STA
    ensures ApState.ApFreeSta(s, cfg, x).asoc == Without(s.asoc, x)
  {
  }

  /** One round of the walk of asoc_list by the flush. */
  lemma FlushWalkStep(s: Ap, cfg: Config, todo: seq<nat>)
    requires Shape(s) && todo != [] && AllBelow(todo, NUM_STA) && s.asoc == todo && NoDup(s.asoc)
    ensures var x := todo[0];
      var r := ApState.ApFreeSta(s.(asoc := Without(s.asoc, x)), cfg, x);
      && Next(s.asoc, x) == First(todo[1..]) && r.asoc == todo[1..] && NoDup(r.asoc)
      && FlushAsoc(s, cfg, todo) == FlushAsoc(r, cfg, todo[1..])
  {
    assert s.asoc == [] + [todo[0]] + todo[1..];
    NextSplit([], todo[0], todo[1..]);
    WithoutSplit([], todo[0], todo[1..]);
    WithoutTwice(s.asoc, todo[0]);
    ApFreeLists(s.(asoc := Without(s.asoc, todo[0])), cfg, todo[0]);
  }

  lemma ChainListed(s: Ap, h: nat)
    requires Pool(s) && h < NUM_STA
    ensures NoDup(s.hash[h]) && AllBelow(s.hash[h], NUM_STA) && forall x :: x in s.hash[h] ==> InUse(s, x)
  {
    assert ChainOk(s, h);
    assert forall i :: 0 <= i < |s.hash[h]| ==> s.hash[h][i] in s.hash[h];
  }

  /** One round of the walk of a hash chain by free_all_stainfo. */
  lemma ChainWalkStep(s: Ap, h: nat, done: seq<nat>, todo: seq<nat>, keep: Option<nat>)
    requires Pool(s) && Queues(s) && h < NUM_STA && todo != [] && AllBelow(todo, NUM_STA) && s.hash[h] == done + todo
    ensures var x := todo[0];
      var r := if keep == Some(x) then s else FreeSta(s, x);
      && Next(s.hash[h], x) == First(todo[1..])
      && r.hash[h] == (if keep == Some(x) then done + [x] else done) + todo[1..]
      && Pool(r) && Queues(r)
      && FreeChain(s, todo, keep) == FreeChain(r, todo[1..], keep)
  {
    assert ChainOk(s, h);
    assert s.hash[h] == done + [todo[0]] + todo[1..];
    assert s.hash[h][|done|] == todo[0];
    NextSplit(done, todo[0], todo[1..]);
    WithoutSplit(done, todo[0], todo[1..]);
    FreeStep(s, todo[0]);
    FreeEffect(s, todo[0]);
  }

  /** One round of the walk of auth_list: what is left of the list, and what is left to do. */
  lemma AuthWalkStep(s: Ap, done: seq<nat>, todo: seq<nat>)
    requires Shape(s) && todo != [] && AllBelow(todo, NUM_STA) && s.auth == done + todo && NoDup(s.auth)
    ensures var x := todo[0];
      var r := TickAuthOne(s, x);
      && Next(s.auth, x) == First(todo[1..])
      && r.auth == (if s.sta[x].expireTo == 1 then done else done + [x]) + todo[1..] && NoDup(r.auth)
      && TickAuth(s, todo) == TickAuth(r, todo[1..])
  {
    assert s.auth == done + [todo[0]] + todo[1..];
    NextSplit(done, todo[0], todo[1..]);
    WithoutSplit(done, todo[0], todo[1..]);
    WithoutTwice(s.auth, todo[0]);
  }

  /** The record of a station is rewritten as a whole, so the last write counts. */
  lemma PutCapsTwice(s: Ap, x: nat, k: Caps, m: Caps)
    requires Shape(s) && x < NUM_STA
    ensures PutCaps(PutCaps(s, x, k), x, m) == PutCaps(s, x, m)
    ensures CapsOf(PutCaps(s, x, k), x) == k
    ensures PutCaps(s, x, k).(bss := m.bss) == PutCaps(s, x, m.(bits := k.bits))
  {
    var p := s.sta[x];
    assert s.sta[x := p.(capSet := k.bits)][x := p.(capSet := m.bits)] == s.sta[x := p.(capSet := m.bits)];
  }
}
