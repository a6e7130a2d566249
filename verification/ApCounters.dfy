/**
 The six capability counters, the HT operation mode and the beacon updates: how they follow the
 bits of the stations.
 */
module ApCounters {
  import opened MacAddress
  import opened ApState
  import opened ApPool

  // ---- one station ---------------------------------------------------------------------------

  /** What the counters hold apart from this station's own bits. */
  function Rest(k: Caps): (r: Six<int>) {
    var n, b := k.bss.counter, k.bits;
    Six(n.nonErp - Bit(b.nonErp), n.noShortSlot - Bit(b.noShortSlot), n.noShortPreamble - Bit(b.noShortPreamble),
        n.noHtGf - Bit(b.noHtGf), n.noHt - Bit(b.noHt), n.ht20Mhz - Bit(b.ht20Mhz))
  }

  ghost function ErpUpdates(b: Bss): (r: nat) {
    multiset(b.beacons)[ErpInfo]
  }

  /** An ERP beacon update was sent exactly when the counter of non-ERP stations left or reached zero. */
  ghost predicate ErpLaw(b: Bss, r: Bss)
  {
    ErpUpdates(r) - ErpUpdates(b) == Bit((b.counter.nonErp == 0) != (r.counter.nonErp == 0))
  }

  // ---- the HT operation mode -----------------------------------------------------------------

  /** The mode that section 7.3.2.57 of IEEE Std 802.11n-2009 asks for, from who is in the BSS. */
  function HtOpModeOf(cfg: Config, olbc: bool, noGf: bool, noHt: bool, ht20: bool): (r: HtOpMode) {
    HtOpMode(
      if noHt || noGf then Mixed
      else if cfg.apSupWidth && ht20 then Ht20MhzStaAssoced
      else if olbc then MayBeLegacyStas
      else Pure,
      noGf,
      noHt || olbc)
  }

  /** Unless the guard on ht_option returns early, the mode is a function of the counters. */
  ghost predicate HtModeOk(cfg: Config, b: Bss) {
    cfg.htOption ||
    b.htOpMode == HtOpModeOf(cfg, b.olbcHt, b.counter.noHtGf != 0, b.counter.noHt != 0, b.counter.ht20Mhz != 0)
  }

  lemma NewHtOpModeIsFunctional(cfg: Config, olbc: bool, mode: HtOpMode, noGf: bool, noHt: bool, ht20: bool)
    requires !cfg.htOption
    ensures var (m, n) := NewHtOpMode(cfg, olbc, mode, noGf, noHt, ht20);
      m == HtOpModeOf(cfg, olbc, noGf, noHt, ht20) && (n > 0 <==> m != mode)
  {
  }

  /** The bits are now `bits`, every counter moved exactly as they did, and the ERP updates obey their law. */
  ghost predicate Moved(k: Caps, r: Caps, bits: Six<bool>) {
    && Rest(r) == Rest(k) && r.bits == bits && ErpLaw(k.bss, r.bss) && r.bss.olbcHt == k.bss.olbcHt
  }

  /** A counter change by one, announced on the edge between zero and non-zero. */
  lemma CountEffect(b: Bss, cfg: Config, c: Cap, up: bool)
    requires b.counter.nonErp >= 0
    requires !up && c == NonErp ==> b.counter.nonErp >= 1
    ensures var r := Count(b, cfg, c, if up then 1 else -1, if up then 1 else 0);
      && r.counter == b.counter.Put(c, b.counter.Get(c) + if up then 1 else -1)
      && ErpLaw(b, r) && r.olbcHt == b.olbcHt && r.htOpMode == b.htOpMode
  {
    match c case NonErp => case NoShortSlot => case NoShortPreamble => case NoHtGf => case NoHt => case Ht20Mhz =>
  }

  lemma MarkEffect(k: Caps, cfg: Config, c: Cap)
    requires Rest(k).nonErp >= 0
    ensures Moved(k, Mark(k, cfg, c), k.bits.Put(c, true))
  {
    CountEffect(k.bss, cfg, c, true);
    match c case NonErp => case NoShortSlot => case NoShortPreamble => case NoHtGf => case NoHt => case Ht20Mhz =>
  }

  lemma UnmarkEffect(k: Caps, cfg: Config, c: Cap)
    requires Rest(k).nonErp >= 0
    ensures Moved(k, Unmark(k, cfg, c), k.bits.Put(c, false))
  {
    if k.bits.Get(c) {
      CountEffect(k.bss, cfg, c, false);
    }
    match c case NonErp => case NoShortSlot => case NoShortPreamble => case NoHtGf => case NoHt => case Ht20Mhz =>
  }

  lemma FollowEffect(k: Caps, cfg: Config, c: Cap, on: bool)
    requires Rest(k).nonErp >= 0
    ensures Moved(k, Follow(k, cfg, c, on), k.bits.Put(c, on))
  {
    if on { MarkEffect(k, cfg, c); } else { UnmarkEffect(k, cfg, c); }
  }

  lemma MarkIfEffect(k: Caps, cfg: Config, c: Cap, on: bool)
    requires Rest(k).nonErp >= 0
    ensures Moved(k, MarkIf(k, cfg, c, on), if on then k.bits.Put(c, true) else k.bits)
  {
    if on { MarkEffect(k, cfg, c); }
  }

  /** Steps compose while at most the first of them touches the ERP counter. */
  lemma MovedTwice(k: Caps, m: Caps, r: Caps, bits: Six<bool>)
    requires Moved(k, m, m.bits) && Moved(m, r, bits) && m.bits.nonErp == bits.nonErp
    ensures Moved(k, r, bits)
  {
  }

  lemma HtOperationMoves(k: Caps, cfg: Config)
    ensures Moved(k, HtOperationAfter(k, cfg), k.bits)
    ensures HtModeOk(cfg, HtOperationAfter(k, cfg).bss)
  {
    var b := k.bss;
    if !cfg.htOption {
      NewHtOpModeIsFunctional(cfg, b.olbcHt, b.htOpMode, b.counter.noHtGf != 0, b.counter.noHt != 0, b.counter.ht20Mhz != 0);
    }
  }

  lemma UpdateLegacyCapsEffect(k: Caps, cfg: Config, p: Asked)
    requires Rest(k).nonErp >= 0
    ensures Moved(k, UpdateLegacyCaps(k, cfg, p),
                  k.bits.(nonErp := p.nonErp, noShortSlot := !p.shortSlot, noShortPreamble := !p.shortPreamble))
  {
    var k1 := Follow(k, cfg, NonErp, p.nonErp);
    FollowEffect(k, cfg, NonErp, p.nonErp);
    var k2 := Follow(k1, cfg, NoShortSlot, !p.shortSlot);
    FollowEffect(k1, cfg, NoShortSlot, !p.shortSlot);
    MovedTwice(k, k1, k2, k2.bits);
    var k3 := Follow(k2, cfg, NoShortPreamble, !p.shortPreamble);
    FollowEffect(k2, cfg, NoShortPreamble, !p.shortPreamble);
    MovedTwice(k, k2, k3, k3.bits);
  }

  lemma UpdateHtCapsEffect(k: Caps, cfg: Config, p: Asked)
    requires Rest(k).nonErp >= 0
    ensures Moved(k, UpdateHtCaps(k, cfg, p),
                  k.bits.(noHt := !p.ht,
                          noHtGf := k.bits.noHtGf || (p.ht && !p.htGreenfield),
                          ht20Mhz := k.bits.ht20Mhz || (p.ht && !p.htSupWidth)))
  {
    var k1 := Follow(k, cfg, NoHt, !p.ht);
    FollowEffect(k, cfg, NoHt, !p.ht);
    var k2 := MarkIf(k1, cfg, NoHtGf, p.ht && !p.htGreenfield);
    MarkIfEffect(k1, cfg, NoHtGf, p.ht && !p.htGreenfield);
    MovedTwice(k, k1, k2, k2.bits);
    var k3 := MarkIf(k2, cfg, Ht20Mhz, p.ht && !p.htSupWidth);
    MarkIfEffect(k2, cfg, Ht20Mhz, p.ht && !p.htSupWidth);
    MovedTwice(k, k2, k3, k3.bits);
  }

  lemma UpdateCapsEffect(k: Caps, cfg: Config, p: Asked)
    requires Rest(k).nonErp >= 0
    ensures Moved(k, UpdateCaps(k, cfg, p),
                  Six(p.nonErp, !p.shortSlot, !p.shortPreamble,
                      k.bits.noHtGf || (p.ht && !p.htGreenfield), !p.ht, k.bits.ht20Mhz || (p.ht && !p.htSupWidth)))
    ensures HtModeOk(cfg, UpdateCaps(k, cfg, p).bss)
  {
    UpdateLegacyCapsEffect(k, cfg, p);
    var m := UpdateLegacyCaps(k, cfg, p);
    UpdateHtCapsEffect(m, cfg, p);
    var n := UpdateHtCaps(m, cfg, p);
    MovedTwice(k, m, n, n.bits);
    HtOperationMoves(n, cfg);
    MovedTwice(k, n, HtOperationAfter(n, cfg), n.bits);
  }

  lemma ClearLegacyCapsEffect(k: Caps, cfg: Config)
    requires Rest(k).nonErp >= 0
    ensures Moved(k, ClearLegacyCaps(k, cfg),
                  k.bits.(nonErp := false, noShortSlot := false, noShortPreamble := false))
  {
    var k1 := Unmark(k, cfg, NonErp);
    UnmarkEffect(k, cfg, NonErp);
    var k2 := Unmark(k1, cfg, NoShortSlot);
    UnmarkEffect(k1, cfg, NoShortSlot);
    MovedTwice(k, k1, k2, k2.bits);
    var k3 := Unmark(k2, cfg, NoShortPreamble);
    UnmarkEffect(k2, cfg, NoShortPreamble);
    MovedTwice(k, k2, k3, k3.bits);
  }

  lemma ClearHtCapsEffect(k: Caps, cfg: Config)
    requires Rest(k).nonErp >= 0
    ensures Moved(k, ClearHtCaps(k, cfg), k.bits.(noHtGf := false, noHt := false, ht20Mhz := false))
  {
    var k1 := Unmark(k, cfg, NoHtGf);
    UnmarkEffect(k, cfg, NoHtGf);
    var k2 := Unmark(k1, cfg, NoHt);
    UnmarkEffect(k1, cfg, NoHt);
    MovedTwice(k, k1, k2, k2.bits);
    var k3 := Unmark(k2, cfg, Ht20Mhz);
    UnmarkEffect(k2, cfg, Ht20Mhz);
    MovedTwice(k, k2, k3, k3.bits);
  }

  lemma ClearCapsEffect(k: Caps, cfg: Config)
    requires Rest(k).nonErp >= 0
    ensures Moved(k, ClearCaps(k, cfg), All(false))
    ensures HtModeOk(cfg, ClearCaps(k, cfg).bss)
  {
    ClearLegacyCapsEffect(k, cfg);
    var m := ClearLegacyCaps(k, cfg);
    ClearHtCapsEffect(m, cfg);
    var n := ClearHtCaps(m, cfg);
    MovedTwice(k, m, n, n.bits);
    HtOperationMoves(n, cfg);
    MovedTwice(k, n, HtOperationAfter(n, cfg), n.bits);
  }

  // ---- the whole pool ------------------------------------------------------------------------

  ghost function Flagged(s: Ap, c: Cap): (r: set<int>)
    requires Shape(s)
  {
    set x | 0 <= x < NUM_STA && HasFlag(s, x, c)
  }

  predicate HasFlag(s: Ap, x: nat, c: Cap)
    requires Shape(s)
  {
    InUse(s, x) && s.sta[x].capSet.Get(c)
  }

  /** Each counter is the number of in-use stations with the bit, plus what direct frees left behind. */
  ghost predicate Counted(s: Ap)
    requires Shape(s)
  {
    forall c: Cap :: s.bss.counter.Get(c) == |Flagged(s, c)| + s.leak.Get(c) && s.leak.Get(c) >= 0
  }

  ghost predicate BssOk(cfg: Config, b: Bss) {
    && !b.olbcHt && HtModeOk(cfg, b)
    && (ErpUpdates(b) % 2 == 1 <==> b.counter.nonErp > 0)
  }

  lemma SizesDifferByOne(f: set<int>, g: set<int>, x: int)
    requires forall y :: y != x ==> (y in f <==> y in g)
    ensures |g| - |f| == Bit(x in g) - Bit(x in f)
  {
    var rest := f - {x};
    assert forall y :: y in g - {x} <==> y in rest;
    assert g - {x} == rest;
    assert x in f ==> f == (f - {x}) + {x};
    assert x in g ==> g == (g - {x}) + {x};
    assert x !in f ==> f == f - {x};
    assert x !in g ==> g == g - {x};
  }

  lemma FlaggedUpdate(s: Ap, r: Ap, x: nat, c: Cap)
    requires Shape(s) && Shape(r) && x < NUM_STA && OthersKept(s, r, x)
    ensures |Flagged(r, c)| - |Flagged(s, c)| == Bit(HasFlag(r, x, c)) - Bit(HasFlag(s, x, c))
  {
    forall y | y != x ensures y in Flagged(s, c) <==> y in Flagged(r, c) {
      if 0 <= y < NUM_STA {
        assert HasFlag(s, y, c) <==> HasFlag(r, y, c);
      }
    }
    SizesDifferByOne(Flagged(s, c), Flagged(r, c), x);
  }

  lemma CountedGivesRest(s: Ap, x: nat)
    requires Shape(s) && Counted(s) && InUse(s, x)
    ensures Rest(CapsOf(s, x)).nonErp >= 0
  {
    assert s.bss.counter.Get(NonErp) == |Flagged(s, NonErp)| + s.leak.Get(NonErp);
    assert s.sta[x].capSet.nonErp ==> x in Flagged(s, NonErp);
  }

  /** A station whose bits moved together with the counters leaves the counts right. */
  lemma StationUpdateKeepsCounted(s: Ap, r: Ap, x: nat)
    requires Shape(s) && Shape(r) && InUse(s, x) && InUse(r, x) && OthersKept(s, r, x) && r.leak == s.leak
    requires Rest(CapsOf(r, x)) == Rest(CapsOf(s, x))
    requires Counted(s)
    ensures Counted(r)
  {
    var k, m := CapsOf(s, x), CapsOf(r, x);
    forall c: Cap ensures r.bss.counter.Get(c) == |Flagged(r, c)| + r.leak.Get(c) && r.leak.Get(c) >= 0 {
      assert s.bss.counter.Get(c) == |Flagged(s, c)| + s.leak.Get(c) && s.leak.Get(c) >= 0;
      FlaggedUpdate(s, r, x, c);
      assert m.bss.counter.Get(c) - Bit(m.bits.Get(c)) == k.bss.counter.Get(c) - Bit(k.bits.Get(c)) by {
        RestAt(k, c);
        RestAt(m, c);
      }
    }
  }

  lemma RestAt(k: Caps, c: Cap)
    ensures Rest(k).Get(c) == k.bss.counter.Get(c) - Bit(k.bits.Get(c))
  {
    match c case NonErp => case NoShortSlot => case NoShortPreamble => case NoHtGf => case NoHt => case Ht20Mhz =>
  }

  lemma AllocKeepsCounted(s: Ap, addr: Mac)
    requires Shape(s) && FreeOk(s) && Counted(s)
    ensures Counted(Alloc(s, addr).0)
  {
    if s.free != [] {
      var x := s.free[0];
      var r := Alloc(s, addr).0;
      assert s.free == [x] + r.free;
      forall c: Cap ensures r.bss.counter.Get(c) == |Flagged(r, c)| + r.leak.Get(c) && r.leak.Get(c) >= 0 {
        assert s.bss.counter.Get(c) == |Flagged(s, c)| + s.leak.Get(c) && s.leak.Get(c) >= 0;
        FlaggedUpdate(s, r, x, c);
        assert !r.sta[x].capSet.Get(c);
      }
    }
  }

  /** A direct free moves the station's bits into the leak. */
  lemma FreeKeepsCounted(s: Ap, x: nat)
    requires Shape(s) && InUse(s, x) && Counted(s)
    ensures Counted(FreeSta(s, x))
    ensures FreeSta(s, x).leak == AddBits(s.leak, s.sta[x].capSet)
  {
    FreeEffect(s, x);
    var r := FreeSta(s, x);
    forall c: Cap ensures r.bss.counter.Get(c) == |Flagged(r, c)| + r.leak.Get(c) && r.leak.Get(c) >= 0 {
      assert s.bss.counter.Get(c) == |Flagged(s, c)| + s.leak.Get(c) && s.leak.Get(c) >= 0;
      FlaggedUpdate(s, r, x, c);
      assert r.leak.Get(c) == s.leak.Get(c) + Bit(s.sta[x].capSet.Get(c)) by {
        match c case NonErp => case NoShortSlot => case NoShortPreamble => case NoHtGf => case NoHt => case Ht20Mhz =>
      }
    }
  }
}
