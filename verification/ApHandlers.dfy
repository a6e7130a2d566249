/** Every handler of the access point keeps the whole invariant. */
module ApHandlers {
  import opened Wrappers
  import opened Lists
  import opened MacAddress
  import opened ApState
  import opened ApPool
  import opened ApInvariant
  import opened ApCounters

  /** auth_to and assoc_to are 3 from the initialisation on. */
  ghost predicate ValidConfig(cfg: Config) {
    cfg.authTo > 0 && cfg.assocTo > 0
  }

  /** The invariant of every state between start_ap_mode and stop_ap_mode. */
  ghost predicate Good(cfg: Config, s: Ap) {
    Inv(s) && Counted(s) && BssOk(cfg, s.bss)
  }

  /** A handler that changes only station `x`, its list membership and new AID slots. */
  lemma FrameKeepsGood(cfg: Config, s: Ap, r: Ap, x: nat)
    requires Good(cfg, s) && InUse(s, x) && Shape(r) && OnlyStation(s, r, x)
    requires NoDup(r.auth) && NoDup(r.asoc) && !(x in r.auth && x in r.asoc)
    requires AidOk(r, x) && LogOk(r, x)
    requires r.leak == s.leak && r.bss == s.bss && r.sta[x].capSet == s.sta[x].capSet
    ensures Good(cfg, r)
  {
    StationUpdateKeepsInv(s, r, x);
    StationUpdateKeepsCounted(s, r, x);
  }

  // ---- authentication ------------------------------------------------------------------------

  lemma AuthStepOk(p: StaInfo, cfg: Config, mode: nat, f: AuthFrame, inAuth: bool, inAsoc: bool)
    requires HistoryOk(p, inAuth, inAsoc) && ValidConfig(cfg)
    ensures HistoryOk(AuthStep(p, cfg, mode, f).0, true, false)
  {
    LogGrows(p.log, if f.seqNo == 3 then ChallengePassed
                    else if f.algorithm == 0 && (mode == 0 || mode == 2) then OpenAccepted
                    else ChallengeIssued);
  }

  /** An exchange changes neither the identity of a station nor anything counted about it. */
  lemma AuthStepFrame(p: StaInfo, cfg: Config, mode: nat, f: AuthFrame)
    ensures var q := AuthStep(p, cfg, mode, f).0;
      q.hwaddr == p.hwaddr && q.aid == p.aid && q.macId == p.macId && q.capSet == p.capSet
  {
  }

  /** OnAuth from the point where the station is known. */
  function AuthListed(s: Ap, cfg: Config, mode: nat, f: AuthFrame, x: nat): (r: (Ap, Status))
    requires Shape(s) && x < NUM_STA
  {
    var s := if x in s.auth then s else s.(auth := s.auth + [x]);
    var (p, status) := AuthStep(s.sta[x], cfg, mode, f);
    (s.(sta := s.sta[x := p]), status)
  }

  lemma AuthListedStation(cfg: Config, s: Ap, mode: nat, f: AuthFrame, x: nat)
    requires ValidConfig(cfg) && Shape(s) && x < NUM_STA && AidOk(s, x) && LogOk(s, x)
    ensures var r := AuthListed(s.(asoc := Without(s.asoc, x)), cfg, mode, f, x).0;
      && Shape(r) && AidOk(r, x) && LogOk(r, x) && r.sta[x].capSet == s.sta[x].capSet
      && r.sta[x].hwaddr == s.sta[x].hwaddr
  {
    AuthStepOk(s.sta[x], cfg, mode, f, x in s.auth, x in s.asoc);
    AuthStepFrame(s.sta[x], cfg, mode, f);
    var r := AuthListed(s.(asoc := Without(s.asoc, x)), cfg, mode, f, x).0;
    assert r.sta[x] == AuthStep(s.sta[x], cfg, mode, f).0 && r.aids == s.aids && x in r.auth && x !in r.asoc;
  }

  lemma AuthListedLists(cfg: Config, s: Ap, mode: nat, f: AuthFrame, x: nat)
    requires Shape(s) && x < NUM_STA && NoDup(s.auth) && NoDup(s.asoc)
    ensures var r := AuthListed(s.(asoc := Without(s.asoc, x)), cfg, mode, f, x).0;
      && Shape(r) && OnlyStation(s, r, x)
      && NoDup(r.auth) && NoDup(r.asoc) && x in r.auth && x !in r.asoc
      && r.leak == s.leak && r.bss == s.bss
  {
    var r := AuthListed(s.(asoc := Without(s.asoc, x)), cfg, mode, f, x).0;
    AuthStepFrame(s.sta[x], cfg, mode, f);
    if x !in s.auth { NoDupAppend(s.auth, x); }
    assert r.sta == s.sta[x := AuthStep(s.sta[x], cfg, mode, f).0];
    assert r.auth == if x in s.auth then s.auth else s.auth + [x];
  }

  lemma AuthListedKeepsGood(cfg: Config, s: Ap, mode: nat, f: AuthFrame, x: nat)
    requires ValidConfig(cfg) && Good(cfg, s) && InUse(s, x)
    ensures Good(cfg, AuthListed(s.(asoc := Without(s.asoc, x)), cfg, mode, f, x).0)
  {
    assert AidOk(s, x) && LogOk(s, x);
    AuthListedStation(cfg, s, mode, f, x);
    AuthListedLists(cfg, s, mode, f, x);
    FrameKeepsGood(cfg, s, AuthListed(s.(asoc := Without(s.asoc, x)), cfg, mode, f, x).0, x);
  }

  lemma AllocKeepsGood(cfg: Config, s: Ap, addr: Mac)
    requires Good(cfg, s)
    requires forall x :: InUse(s, x) && s.sta[x].hwaddr == addr ==> addr != Canonical(addr)
    ensures Good(cfg, Alloc(s, addr).0)
  {
    AllocKeepsInv(s, addr);
    AllocKeepsCounted(s, addr);
  }

  lemma OnAuthKeepsGood(s: Ap, cfg: Config, authMode: nat, wep: bool, f: AuthFrame)
    requires ValidConfig(cfg) && Good(cfg, s)
    ensures ChainsInRange(s) && Good(cfg, OnAuth(s, cfg, authMode, wep, f).0)
  {
    LookupRefinesMap(s, f.sa);
    var mode := AuthMode(authMode, wep);
    if !((f.algorithm > 0 && mode == 0) || (f.algorithm == 0 && mode == 1)) {
      match Lookup(s, f.sa)
      case Some(x) =>
        AuthListedKeepsGood(cfg, s, mode, f, x);
      case None =>
        AllocKeepsGood(cfg, s, f.sa);
        AllocKeepsInv(s, f.sa);
        var (m, slot) := Alloc(s, f.sa);
        if slot.Some? {
          var x := slot.value;
          var n := m.(sta := m.sta[x := m.sta[x].(state := NO_STATE.(authNull := true), authSeq := 0)]);
          assert AidOk(m, x) && LogOk(m, x);
          FrameKeepsGood(cfg, m, n, x);
          AuthListedKeepsGood(cfg, n, mode, f, x);
          assert x !in m.asoc by {
            assert !InUse(s, x);
          }
        }
    }
  }

  // ---- association ---------------------------------------------------------------------------

  lemma AskingKeepsGood(cfg: Config, s: Ap, x: nat, asked: Asked)
    requires Good(cfg, s) && InUse(s, x)
    ensures Good(cfg, Asking(s, x, asked))
  {
    assert AidOk(s, x) && LogOk(s, x);
    FrameKeepsGood(cfg, s, Asking(s, x, asked), x);
  }

  lemma AssocRefusedKeepsGood(cfg: Config, s: Ap, x: nat, status: Status)
    requires Good(cfg, s) && InUse(s, x)
    ensures Good(cfg, AssocRefused(s, x, status).0)
  {
    assert AidOk(s, x) && LogOk(s, x);
    FrameKeepsGood(cfg, s, AssocRefused(s, x, status).0, x);
  }

  lemma AssocAcceptOwns(s: Ap, cfg: Config, x: nat, aid: nat)
    requires Shape(s) && x < NUM_STA && AidOk(s, x) && LogOk(s, x) && s.sta[x].state.authSuccess
    requires 0 < aid <= NUM_STA && if s.sta[x].aid > 0 then aid == s.sta[x].aid else s.aids[aid - 1] == None
    ensures var r := AssocAccept(s, cfg, x, aid);
      |r.sta| == NUM_STA && |r.aids| == NUM_STA && AidOk(r, x) && LogOk(r, x)
  {
    LogGrows(s.sta[x].log, Associated);
    var r := AssocAccept(s, cfg, x, aid);
    assert r.sta[x].log == s.sta[x].log + [Associated];
  }

  lemma AssocAcceptEffect(s: Ap, cfg: Config, x: nat, aid: nat)
    requires Shape(s) && x < NUM_STA && AidOk(s, x) && LogOk(s, x) && s.sta[x].state.authSuccess
    requires 0 < aid <= NUM_STA && if s.sta[x].aid > 0 then aid == s.sta[x].aid else s.aids[aid - 1] == None
    ensures var r := AssocAccept(s, cfg, x, aid);
      && Shape(r) && OnlyStation(s, r, x) && AidOk(r, x) && LogOk(r, x)
      && r.auth == Without(s.auth, x) && r.asoc == (if x in s.asoc then s.asoc else s.asoc + [x])
      && r.leak == s.leak && r.bss == s.bss && r.sta[x].capSet == s.sta[x].capSet
  {
    AssocAcceptOwns(s, cfg, x, aid);
    var r := AssocAccept(s, cfg, x, aid);
    assert r.aids == if s.sta[x].aid == 0 then s.aids[aid - 1 := Some(x)] else s.aids;
  }

  lemma AssocAcceptKeepsGood(s: Ap, cfg: Config, x: nat, aid: nat)
    requires Good(cfg, s) && InUse(s, x) && s.sta[x].state.authSuccess
    requires 0 < aid <= NUM_STA && if s.sta[x].aid > 0 then aid == s.sta[x].aid else s.aids[aid - 1] == None
    ensures Good(cfg, AssocAccept(s, cfg, x, aid))
  {
    assert AidOk(s, x) && LogOk(s, x);
    AssocAcceptEffect(s, cfg, x, aid);
    if x !in s.asoc { NoDupAppend(s.asoc, x); }
    FrameKeepsGood(cfg, s, AssocAccept(s, cfg, x, aid), x);
  }

  lemma AssocAdmitKeepsGood(s: Ap, cfg: Config, x: nat, f: AssocFrame)
    requires Good(cfg, s) && InUse(s, x) && s.sta[x].state.authSuccess
    ensures Good(cfg, AssocAdmit(s, cfg, x, f).0)
  {
    var asked := s.sta[x].asked.(ht := f.htCap.Some?,
                                 htGreenfield := f.htCap.Some? && f.htCap.value.0,
                                 htSupWidth := f.htCap.Some? && f.htCap.value.1);
    var status := AssocAdmit(s, cfg, x, f).1;
    if !cfg.htOption && asked.ht {
      AskingKeepsGood(cfg, s, x, asked);
      AssocRefusedKeepsGood(cfg, Asking(s, x, asked), x, status);
    } else {
      var all := asked.(nonErp := OnlySlowRates(f.rates), shortPreamble := f.shortPreamble);
      var m := Asking(s, x, all);
      AskingKeepsGood(cfg, s, x, all);
      AssocRefusedKeepsGood(cfg, m, x, status);
      assert AidOk(m, x);
      if !f.p2pRefused && (m.sta[x].aid > 0 || AidFor(m, x) <= m.maxNumSta) {
        AssocAcceptKeepsGood(m, cfg, x, AidFor(m, x));
      }
    }
  }

  lemma OnAssocReqKeepsGood(s: Ap, cfg: Config, f: AssocFrame)
    requires Good(cfg, s)
    ensures ChainsInRange(s) && Good(cfg, OnAssocReq(s, cfg, f).0)
  {
    LookupRefinesMap(s, f.sa);
    if !f.tooShort && Lookup(s, f.sa).Some? {
      var x := Lookup(s, f.sa).value;
      if s.sta[x].state.authSuccess {
        var asked := s.sta[x].asked.(shortSlot := f.shortSlot);
        var m := Asking(s, x, asked);
        AskingKeepsGood(cfg, s, x, asked);
        if f.elementsRefused.Some? {
          AssocRefusedKeepsGood(cfg, m, x, Refused(f.elementsRefused.value));
        } else {
          AssocAdmitKeepsGood(m, cfg, x, f);
        }
      }
    }
  }

  // ---- after the association event -----------------------------------------------------------

  lemma PutCapsKeepsGood(s: Ap, cfg: Config, x: nat, k: Caps)
    requires Good(cfg, s) && InUse(s, x)
    requires Moved(CapsOf(s, x), k, k.bits) && HtModeOk(cfg, k.bss)
    ensures Good(cfg, PutCaps(s, x, k))
  {
    var r := PutCaps(s, x, k);
    assert AidOk(s, x) && LogOk(s, x);
    assert AidOk(r, x) && LogOk(r, x);
    StationUpdateKeepsInv(s, r, x);
    assert CapsOf(r, x) == k;
    StationUpdateKeepsCounted(s, r, x);
    assert s.bss.counter.Get(NonErp) >= 0;
    assert r.bss.counter.Get(NonErp) == |Flagged(r, NonErp)| + r.leak.Get(NonErp);
    assert r.bss.counter.nonErp >= 0;
  }

  lemma BssCapUpdateKeepsGood(s: Ap, cfg: Config, x: nat)
    requires Good(cfg, s) && InUse(s, x)
    ensures Good(cfg, BssCapUpdate(s, cfg, x))
  {
    CountedGivesRest(s, x);
    UpdateCapsEffect(CapsOf(s, x), cfg, s.sta[x].asked);
    PutCapsKeepsGood(s, cfg, x, UpdateCaps(CapsOf(s, x), cfg, s.sta[x].asked));
  }

  lemma StaInfoUpdateKeepsGood(s: Ap, cfg: Config, x: nat)
    requires Good(cfg, s) && InUse(s, x)
    ensures Good(cfg, StaInfoUpdate(s, x))
  {
    assert AidOk(s, x) && LogOk(s, x);
    FrameKeepsGood(cfg, s, StaInfoUpdate(s, x), x);
  }

  // ---- leaving -------------------------------------------------------------------------------

  lemma FreeKeepsGood(s: Ap, cfg: Config, x: nat)
    requires Good(cfg, s) && InUse(s, x)
    ensures Good(cfg, FreeSta(s, x))
  {
    FreeKeepsInv(s, x);
    FreeKeepsCounted(s, x);
    FreeEffect(s, x);
  }

  lemma PutCapsEffect(s: Ap, x: nat, k: Caps)
    requires Shape(s) && x < NUM_STA
    ensures var m := PutCaps(s, x, k);
      && OthersKept(s, m, x) && m.free == s.free && m.auth == s.auth && m.asoc == s.asoc
      && m.leak == s.leak && m.sta[x].capSet == k.bits
  {
  }

  /** ap_free_sta takes the counts back first, so it adds nothing to the leak. */
  lemma ApFreeKeepsGood(s: Ap, cfg: Config, x: nat)
    requires Good(cfg, s) && InUse(s, x)
    ensures var r := ApFreeSta(s, cfg, x);
      && Good(cfg, r) && r.leak == s.leak && OthersKept(s, r, x) && !InUse(r, x)
      && r.auth == Without(s.auth, x) && r.asoc == Without(s.asoc, x)
  {
    CountedGivesRest(s, x);
    var k := ClearCaps(CapsOf(s, x), cfg);
    ClearCapsEffect(CapsOf(s, x), cfg);
    PutCapsKeepsGood(s, cfg, x, k);
    PutCapsEffect(s, x, k);
    FreeAfterClear(cfg, s, PutCaps(s, x, k), x);
  }

  lemma FreeAfterClear(cfg: Config, s: Ap, m: Ap, x: nat)
    requires Good(cfg, m) && InUse(m, x) && m.sta[x].capSet == All(false)
    requires Shape(s) && OthersKept(s, m, x) && m.leak == s.leak && m.free == s.free
    ensures var r := FreeSta(m, x);
      && Good(cfg, r) && r.leak == s.leak && OthersKept(s, r, x) && !InUse(r, x)
      && r.auth == Without(m.auth, x) && r.asoc == Without(m.asoc, x)
  {
    FreeKeepsGood(m, cfg, x);
    FreeKeepsCounted(m, x);
    FreeEffect(m, x);
  }

  // ---- requests of the user ----------------------------------------------------------------------

  /** An AID a caller may give a station: none, or one whose slot the station owns. */
  predicate OwnsSlot(s: Ap, x: nat, aid: nat)
    requires Shape(s)
  {
    aid == 0 || (aid <= NUM_STA && s.aids[aid - 1] == Some(x))
  }

  /** The AID that rtw_add_sta stores keeps the invariant if and only if the station owns its slot. */
  lemma AddStationIff(s: Ap, cfg: Config, x: nat, aid: nat, ht: Option<(bool, bool)>)
    requires Good(cfg, s) && InUse(s, x)
    ensures Good(cfg, AddStation(s, x, aid, ht)) <==> OwnsSlot(s, x, aid)
    ensures Inv(AddStation(s, x, aid, ht)) <==> OwnsSlot(s, x, aid)
  {
    assert AidOk(s, x) && LogOk(s, x);
    var r := AddStation(s, x, aid, ht);
    if OwnsSlot(s, x, aid) {
      FrameKeepsGood(cfg, s, r, x);
    } else {
      assert InUse(r, x) && r.sta[x].aid == aid && !AidOk(r, x);
    }
  }

  lemma UpdateBmcKeepsGood(s: Ap, cfg: Config)
    requires Good(cfg, s)
    ensures ChainsInRange(s) && Good(cfg, UpdateBmc(s))
  {
    LookupRefinesMap(s, BROADCAST);
    if Lookup(s, BROADCAST).Some? {
      AddStationIff(s, cfg, Lookup(s, BROADCAST).value, 0, None);
    }
  }

  lemma SetBeaconKeepsGood(s: Ap, cfg: Config, own: Mac)
    requires Good(cfg, s)
    ensures ChainsInRange(s) && Good(cfg, SetBeacon(s, own))
  {
    UpdateBmcKeepsGood(s, cfg);
    var m := UpdateBmc(s);
    LookupRefinesMap(m, own);
    if Lookup(m, own).None? {
      AllocKeepsGood(cfg, m, own);
    }
  }
}
