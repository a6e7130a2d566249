/**
 The access-point half of the station manager as values: the pool of station slots, the free
 queue, the hash chains, the AID table, the two lists and the capability counters, with the
 elementary updates that every handler is made of. A `struct sta_info *` is the index of its slot.
 */
module ApState {
  import opened Wrappers
  import opened Lists
  import opened MacAddress

  /** The six per-station bits that are mirrored by a counter of the BSS. */
  datatype Cap = NonErp | NoShortSlot | NoShortPreamble | NoHtGf | NoHt | Ht20Mhz

  /** One value per capability. */
  datatype Six<T> = Six(nonErp: T, noShortSlot: T, noShortPreamble: T, noHtGf: T, noHt: T, ht20Mhz: T) {
    function Get(c: Cap): (r: T) {
      match c
      case NonErp => nonErp
      case NoShortSlot => noShortSlot
      case NoShortPreamble => noShortPreamble
      case NoHtGf => noHtGf
      case NoHt => noHt
      case Ht20Mhz => ht20Mhz
    }

    function Put(c: Cap, v: T): (r: Six<T>) {
      match c
      case NonErp => this.(nonErp := v)
      case NoShortSlot => this.(noShortSlot := v)
      case NoShortPreamble => this.(noShortPreamble := v)
      case NoHtGf => this.(noHtGf := v)
      case NoHt => this.(noHt := v)
      case Ht20Mhz => this.(ht20Mhz := v)
    }
  }

  function All<T>(v: T): (r: Six<T>) {
    Six(v, v, v, v, v, v)
  }

  function Bit(b: bool): (r: int) {
    if b then 1 else 0
  }

  function AddBits(n: Six<int>, b: Six<bool>): (r: Six<int>) {
    Six(n.nonErp + Bit(b.nonErp), n.noShortSlot + Bit(b.noShortSlot), n.noShortPreamble + Bit(b.noShortPreamble),
        n.noHtGf + Bit(b.noHtGf), n.noHt + Bit(b.noHt), n.ht20Mhz + Bit(b.ht20Mhz))
  }

  /** What a station has achieved since its slot was allocated; kept only to state properties. */
  datatype Milestone = OpenAccepted | ChallengeIssued | ChallengePassed | Associated

  /** The bits of the `state` word. */
  datatype StateBits = StateBits(authNull: bool, authState: bool, authSuccess: bool, asoc: bool, sleep: bool)

  /** What the last association request asked for: bits of `flags`, `capability` and `ht_cap.cap_info`. */
  datatype Asked = Asked(nonErp: bool, shortPreamble: bool, shortSlot: bool,
                         ht: bool, htGreenfield: bool, htSupWidth: bool)

  datatype StaInfo = StaInfo(
    hwaddr: Mac,
    aid: nat,
    macId: nat,
    state: StateBits,
    authSeq: nat,
    expireTo: nat,
    asked: Asked,
    capSet: Six<bool>, // the `*_set` fields
    rxPkts: nat, lastRxPkts: nat,
    log: seq<Milestone>)

  const NO_STATE := StateBits(false, false, false, false, false)

  /** `_init_stainfo`: every field zeroed. */
  function Blank(addr: Mac): (r: StaInfo) {
    StaInfo(addr, 0, 0, NO_STATE, 0, 0, Asked(false, false, false, false, false, false), All(false), 0, 0, [])
  }

  datatype BeaconIe = ErpInfo | FixedIe | HtCapability | HtAddInfo

  /** Settings that no handler below changes. */
  datatype Config = Config(
    htOption: bool, apSupWidth: bool, above11b: bool,
    authTo: nat, assocTo: nat, expireTo: nat)

  /** The fields of `ht_op_mode` in use: the two low bits, bit 2 and bit 4. */
  datatype HtOpMode = HtOpMode(opMode: OpMode, nonGfPresent: bool, nonHtPresent: bool)

  datatype OpMode = Pure | MayBeLegacyStas | Ht20MhzStaAssoced | Mixed

  /** What the BSS remembers of its stations, and the update_beacon calls so far, oldest first. */
  datatype Bss = Bss(counter: Six<int>, htOpMode: HtOpMode, olbcHt: bool, beacons: seq<BeaconIe>)

  datatype Ap = Ap(
    sta: seq<StaInfo>,
    free: seq<nat>,
    hash: seq<seq<nat>>,
    count: int,              // asoc_sta_count
    aids: seq<Option<nat>>,  // sta_aid
    maxNumSta: nat,
    auth: seq<nat>,
    asoc: seq<nat>,
    bss: Bss,
    leak: Six<int>)     // history: flagged stations freed without ap_free_sta

  ghost predicate Shape(s: Ap) {
    |s.sta| == |s.hash| == |s.aids| == NUM_STA
  }

  predicate AllBelow(q: seq<nat>, n: nat) {
    forall i :: 0 <= i < |q| ==> q[i] < n
  }

  predicate InUse(s: Ap, x: int) {
    0 <= x < NUM_STA && x !in s.free
  }

  // ---- pool ----------------------------------------------------------------------------------

  function FindIn(sta: seq<StaInfo>, chain: seq<nat>, addr: Mac): (r: Option<nat>)
    requires AllBelow(chain, |sta|)
    ensures r.Some? ==> r.value in chain && sta[r.value].hwaddr == addr
    ensures r.None? ==> forall x :: x in chain ==> sta[x].hwaddr != addr
  {
    if chain == [] then None
    else if sta[chain[0]].hwaddr == addr then Some(chain[0])
    else
      assert chain == [chain[0]] + chain[1..];
      FindIn(sta, chain[1..], addr)
  }

  ghost predicate ChainsInRange(s: Ap) {
    forall h :: 0 <= h < |s.hash| ==> AllBelow(s.hash[h], NUM_STA)
  }

  /** get_stainfo */
  function Lookup(s: Ap, addr: Mac): (r: Option<nat>)
    requires Shape(s) && ChainsInRange(s)
  {
    FindIn(s.sta, s.hash[WifiMacHash(Canonical(addr))], Canonical(addr))
  }

  /** alloc_stainfo */
  function Alloc(s: Ap, addr: Mac): (r: (Ap, Option<nat>))
    requires Shape(s) && AllBelow(s.free, NUM_STA)
    ensures Shape(r.0)
  {
    if s.free == [] then (s, None) else
      var x := s.free[0];
      var h := WifiMacHash(addr);
      (s.(free := s.free[1..],
          sta := s.sta[x := Blank(addr)],
          hash := s.hash[h := s.hash[h] + [x]],
          count := s.count + 1),
       Some(x))
  }

  function FreeAid(s: Ap, x: nat): (r: Ap)
    requires Shape(s) && x < NUM_STA
    ensures Shape(r)
  {
    var aid := s.sta[x].aid;
    if 0 < aid <= NUM_STA && s.aids[aid - 1] == Some(x) then
      s.(aids := s.aids[aid - 1 := None], sta := s.sta[x := s.sta[x].(aid := 0)])
    else s
  }

  /** The part of free_stainfo that takes the station off every list. */
  function Unlink(s: Ap, x: nat): (r: Ap)
    requires Shape(s) && x < NUM_STA
    ensures Shape(r)
  {
    var h := WifiMacHash(s.sta[x].hwaddr);
    s.(hash := s.hash[h := Without(s.hash[h], x)],
       count := s.count - 1,
       asoc := Without(s.asoc, x),
       auth := Without(s.auth, x),
       sta := s.sta[x := s.sta[x].(expireTo := 0)],
       leak := AddBits(s.leak, s.sta[x].capSet))
  }

  /** free_stainfo */
  function FreeSta(s: Ap, x: nat): (r: Ap)
    requires Shape(s) && x < NUM_STA
    ensures Shape(r)
  {
    var s := FreeAid(Unlink(s, x), x);
    s.(free := s.free + [x])
  }

  // ---- capability counters -------------------------------------------------------------------

  /** The bits of one station together with the BSS state that counts them. */
  datatype Caps = Caps(bits: Six<bool>, bss: Bss)

  function Announce(b: Bss, ie: BeaconIe): (r: Bss) {
    b.(beacons := b.beacons + [ie])
  }

  /** The beacon element that a change of a counter from or to zero makes stale, if any. */
  function BeaconOf(cfg: Config, c: Cap): (r: Option<BeaconIe>) {
    match c
    case NonErp => Some(ErpInfo)
    case NoShortSlot => if cfg.above11b then Some(FixedIe) else None
    case NoShortPreamble => if cfg.above11b then Some(FixedIe) else None
    case _ => None
  }

  /** Change the counter of `c` and announce it if it is then `edge`. */
  function Count(b: Bss, cfg: Config, c: Cap, delta: int, edge: int): (r: Bss)
  {
    var b := b.(counter := b.counter.Put(c, b.counter.Get(c) + delta));
    if b.counter.Get(c) == edge && BeaconOf(cfg, c).Some? then Announce(b, BeaconOf(cfg, c).value) else b
  }

  /** Set the bit `c` and count it, if it is not set yet. */
  function Mark(k: Caps, cfg: Config, c: Cap): (r: Caps)
  {
    if k.bits.Get(c) then k else Caps(k.bits.Put(c, true), Count(k.bss, cfg, c, 1, 1))
  }

  /** Clear the bit `c` and uncount it, if it is set. */
  function Unmark(k: Caps, cfg: Config, c: Cap): (r: Caps)
  {
    if !k.bits.Get(c) then k else Caps(k.bits.Put(c, false), Count(k.bss, cfg, c, -1, 0))
  }

  function MarkIf(k: Caps, cfg: Config, c: Cap, on: bool): (r: Caps) {
    if on then Mark(k, cfg, c) else k
  }

  function Follow(k: Caps, cfg: Config, c: Cap, on: bool): (r: Caps)
  {
    if on then Mark(k, cfg, c) else Unmark(k, cfg, c)
  }

  /** rtw_ht_operation_update on the mode alone: the new mode and the number of changes. */
  function NewHtOpMode(cfg: Config, olbc: bool, mode: HtOpMode, noGf: bool, noHt: bool, ht20: bool): (r: (HtOpMode, nat)) {
    if cfg.htOption then (mode, 0) else
      var (m1, n1) :=
        if !mode.nonGfPresent && noGf then (mode.(nonGfPresent := true), 1)
        else if mode.nonGfPresent && !noGf then (mode.(nonGfPresent := false), 1)
        else (mode, 0);
      var (m2, n2) :=
        if !m1.nonHtPresent && (noHt || olbc) then (m1.(nonHtPresent := true), n1 + 1)
        else if m1.nonHtPresent && !noHt && !olbc then (m1.(nonHtPresent := false), n1 + 1)
        else (m1, n1);
      var opMode :=
        if noHt || m2.nonGfPresent then Mixed
        else if cfg.apSupWidth && ht20 then Ht20MhzStaAssoced
        else if olbc then MayBeLegacyStas
        else Pure;
      if m2.opMode != opMode then (m2.(opMode := opMode), n2 + 1) else (m2, n2)
  }

  function HtOperationUpdate(b: Bss, cfg: Config): (r: Bss)
    ensures r.counter == b.counter
  {
    var (mode, changes) :=
      NewHtOpMode(cfg, b.olbcHt, b.htOpMode, b.counter.noHtGf != 0, b.counter.noHt != 0, b.counter.ht20Mhz != 0);
    var b := b.(htOpMode := mode);
    if changes > 0 then Announce(Announce(b, HtCapability), HtAddInfo) else b
  }

  function HtOperationAfter(k: Caps, cfg: Config): (r: Caps) {
    k.(bss := HtOperationUpdate(k.bss, cfg))
  }

  /** The ERP, slot-time and preamble part of bss_cap_update. */
  function UpdateLegacyCaps(k: Caps, cfg: Config, p: Asked): (r: Caps)
  {
    var k := Follow(k, cfg, NonErp, p.nonErp);
    var k := Follow(k, cfg, NoShortSlot, !p.shortSlot);
    Follow(k, cfg, NoShortPreamble, !p.shortPreamble)
  }

  /** The HT part of bss_cap_update. */
  function UpdateHtCaps(k: Caps, cfg: Config, p: Asked): (r: Caps)
  {
    var k := Follow(k, cfg, NoHt, !p.ht);
    var k := MarkIf(k, cfg, NoHtGf, p.ht && !p.htGreenfield);
    MarkIf(k, cfg, Ht20Mhz, p.ht && !p.htSupWidth)
  }

  /** bss_cap_update: the bits follow what the station `p` asked for. */
  function UpdateCaps(k: Caps, cfg: Config, p: Asked): (r: Caps)
  {
    HtOperationAfter(UpdateHtCaps(UpdateLegacyCaps(k, cfg, p), cfg, p), cfg)
  }

  function ClearLegacyCaps(k: Caps, cfg: Config): (r: Caps)
  {
    Unmark(Unmark(Unmark(k, cfg, NonErp), cfg, NoShortSlot), cfg, NoShortPreamble)
  }

  function ClearHtCaps(k: Caps, cfg: Config): (r: Caps)
  {
    Unmark(Unmark(Unmark(k, cfg, NoHtGf), cfg, NoHt), cfg, Ht20Mhz)
  }

  /** The first half of ap_free_sta: every bit is taken back. */
  function ClearCaps(k: Caps, cfg: Config): (r: Caps)
  {
    HtOperationAfter(ClearHtCaps(ClearLegacyCaps(k, cfg), cfg), cfg)
  }

  function CapsOf(s: Ap, x: nat): (r: Caps)
    requires Shape(s) && x < NUM_STA
  {
    Caps(s.sta[x].capSet, s.bss)
  }

  function PutCaps(s: Ap, x: nat, k: Caps): (r: Ap)
    requires Shape(s) && x < NUM_STA
    ensures Shape(r)
  {
    s.(sta := s.sta[x := s.sta[x].(capSet := k.bits)], bss := k.bss)
  }

  /** bss_cap_update */
  function BssCapUpdate(s: Ap, cfg: Config, x: nat): (r: Ap)
    requires Shape(s) && x < NUM_STA
    ensures Shape(r)
  {
    PutCaps(s, x, UpdateCaps(CapsOf(s, x), cfg, s.sta[x].asked))
  }

  /** ap_free_sta */
  function ApFreeSta(s: Ap, cfg: Config, x: nat): (r: Ap)
    requires Shape(s) && x < NUM_STA
    ensures Shape(r)
  {
    FreeSta(PutCaps(s, x, ClearCaps(CapsOf(s, x), cfg)), x)
  }

  // ---- frames --------------------------------------------------------------------------------

  datatype AuthFrame = AuthFrame(
    sa: Mac, algorithm: nat, seqNo: nat,
    challengeOk: bool) // the challenge element is present and equals chg_txt

  datatype Status = Successful | NoSuppAlg | UnableHandleSta | OutOfAuthSeq | ChallengeFail | Refused(reason: nat)

  /** OnAuth once the station is known and listed: the sequence checks and their effect. */
  function AuthStep(p: StaInfo, cfg: Config, mode: nat, f: AuthFrame): (r: (StaInfo, Status)) {
    var p := if p.authSeq == 0 then p.(expireTo := cfg.authTo) else p;
    if p.authSeq + 1 != f.seqNo then (p, OutOfAuthSeq)
    else if f.algorithm == 0 && (mode == 0 || mode == 2) then
      if f.seqNo == 1 then
        (AuthDone(p.(state := p.state.(authNull := false, authSuccess := true), expireTo := cfg.assocTo),
                  f.seqNo, OpenAccepted), Successful)
      else (p, OutOfAuthSeq)
    else if f.seqNo == 1 then
      (AuthDone(p.(state := p.state.(authNull := false, authState := true)), f.seqNo, ChallengeIssued), Successful)
    else if f.seqNo == 3 then
      if f.challengeOk then
        (AuthDone(p.(state := p.state.(authState := false, authSuccess := true), expireTo := cfg.assocTo),
                  f.seqNo, ChallengePassed), Successful)
      else (p, ChallengeFail)
    else (p, OutOfAuthSeq)
  }

  /** The accepted exit of OnAuth. */
  function AuthDone(p: StaInfo, seqNo: nat, m: Milestone): (r: StaInfo) {
    p.(authSeq := if p.state.authSuccess then 0 else seqNo + 1, log := p.log + [m])
  }

  /** The authentication mode after shared-key without WEP has been turned into open. */
  function AuthMode(mode: nat, wep: bool): (r: nat) {
    if mode == 2 && !wep then 0 else mode
  }

  function OnAuth(s: Ap, cfg: Config, authMode: nat, wep: bool, f: AuthFrame): (r: (Ap, Status))
    requires Shape(s) && ChainsInRange(s) && AllBelow(s.free, NUM_STA)
    ensures Shape(r.0)
  {
    var mode := AuthMode(authMode, wep);
    if (f.algorithm > 0 && mode == 0) || (f.algorithm == 0 && mode == 1) then (s, NoSuppAlg) else
      var (s, found) :=
        match Lookup(s, f.sa)
        case Some(x) => (s.(asoc := Without(s.asoc, x)), Some(x))
        case None =>
          var (s, slot) := Alloc(s, f.sa);
          if slot.None? then (s, None)
          else (s.(sta := s.sta[slot.value := s.sta[slot.value].(state := NO_STATE.(authNull := true), authSeq := 0)]), slot);
      if found.None? then (s, UnableHandleSta) else
        var x := found.value;
        var s := if x in s.auth then s else s.(auth := s.auth + [x]);
        var (p, status) := AuthStep(s.sta[x], cfg, mode, f);
        (s.(sta := s.sta[x := p]), status)
  }

  /** An association request after the checks that touch nothing kept here. */
  datatype AssocFrame = AssocFrame(
    sa: Mac,
    tooShort: bool,
    shortPreamble: bool, shortSlot: bool,
    elementsRefused: Option<nat>,     // SSID, rate or security elements not acceptable
    rates: seq<bv8>,
    htCap: Option<(bool, bool)>,      // (greenfield, 20/40 MHz) when the element is present
    p2pRefused: bool)

  /** True iff no rate is above 11 Mb/s. */
  predicate OnlySlowRates(rates: seq<bv8>) {
    forall i :: 0 <= i < |rates| ==> rates[i] & 0x7f <= 22
  }

  function LeastFreeAid(aids: seq<Option<nat>>): (k: nat)
    ensures k <= |aids|
    ensures k < |aids| ==> aids[k] == None
    ensures forall j :: 0 <= j < k ==> aids[j].Some?
  {
    if aids == [] || aids[0].None? then 0 else 1 + LeastFreeAid(aids[1..])
  }

  function AssocRefused(s: Ap, x: nat, status: Status): (r: (Ap, Status))
    requires Shape(s) && x < NUM_STA
    ensures Shape(r.0)
  {
    (s.(sta := s.sta[x := s.sta[x].(aid := 0)]), status)
  }

  const WLAN_STATUS_AP_UNABLE_TO_HANDLE_NEW_STA := 17
  const STATS_FAILURE := 1

  /** OnAssocReq from the HT element on: `x` has passed the earlier checks. */
  function AssocAdmit(s: Ap, cfg: Config, x: nat, f: AssocFrame): (r: (Ap, Status))
    requires Shape(s) && x < NUM_STA
    ensures Shape(r.0)
  {
    var asked := s.sta[x].asked.(ht := f.htCap.Some?,
                                 htGreenfield := f.htCap.Some? && f.htCap.value.0,
                                 htSupWidth := f.htCap.Some? && f.htCap.value.1);
    if !cfg.htOption && asked.ht then AssocRefused(Asking(s, x, asked), x, Refused(STATS_FAILURE)) else
      AssocFinish(Asking(s, x, asked.(nonErp := OnlySlowRates(f.rates), shortPreamble := f.shortPreamble)), cfg, x, f)
  }

  /** The P2P check and the AID of OnAssocReq. */
  function AssocFinish(s: Ap, cfg: Config, x: nat, f: AssocFrame): (r: (Ap, Status))
    requires Shape(s) && x < NUM_STA
    ensures Shape(r.0)
  {
    if f.p2pRefused then AssocRefused(s, x, Successful)
    else if s.sta[x].aid == 0 && AidFor(s, x) > s.maxNumSta then
      AssocRefused(s, x, Refused(WLAN_STATUS_AP_UNABLE_TO_HANDLE_NEW_STA))
    else
      (AssocAccept(s, cfg, x, AidFor(s, x)), Successful)
  }

  function Asking(s: Ap, x: nat, asked: Asked): (r: Ap)
    requires Shape(s) && x < NUM_STA
    ensures Shape(r)
  {
    s.(sta := s.sta[x := s.sta[x].(asked := asked)])
  }

  /** The AID a station keeps or is offered. */
  function AidFor(s: Ap, x: nat): (r: nat)
    requires Shape(s) && x < NUM_STA
  {
    if s.sta[x].aid > 0 then s.sta[x].aid else LeastFreeAid(s.aids) + 1
  }

  /** Station `x` joins the BSS under `aid`. */
  function AssocAccept(s: Ap, cfg: Config, x: nat, aid: nat): (r: Ap)
    requires Shape(s) && x < NUM_STA
    ensures Shape(r)
  {
    var p := s.sta[x];
    var listed := x in s.asoc;
    s.(sta := s.sta[x := p.(aid := aid, state := p.state.(asoc := true),
                            expireTo := if listed then p.expireTo else cfg.expireTo,
                            log := p.log + [Associated])],
       aids := if p.aid == 0 && 0 < aid <= NUM_STA then s.aids[aid - 1 := Some(x)] else s.aids,
       auth := Without(s.auth, x),
       asoc := if listed then s.asoc else s.asoc + [x])
  }

  const RSON_CLS2 := 6

  function OnAssocReq(s: Ap, cfg: Config, f: AssocFrame): (r: (Ap, Status))
    requires Shape(s) && ChainsInRange(s)
    ensures Shape(r.0)
  {
    if f.tooShort then (s, Refused(RSON_CLS2)) else
      match Lookup(s, f.sa)
      case None => (s, Refused(RSON_CLS2))
      case Some(x) =>
        if !s.sta[x].state.authSuccess then (s, Refused(RSON_CLS2)) else
          var s := Asking(s, x, s.sta[x].asked.(shortSlot := f.shortSlot));
          if f.elementsRefused.Some? then AssocRefused(s, x, Refused(f.elementsRefused.value))
          else AssocAdmit(s, cfg, x, f)
  }

  /** sta_info_update: the MAC id follows the AID, the statistics restart and `state` is overwritten. */
  function StaInfoUpdate(s: Ap, x: nat): (r: Ap)
    requires Shape(s) && x < NUM_STA
    ensures Shape(r)
  {
    s.(sta := s.sta[x := s.sta[x].(macId := s.sta[x].aid + 1, rxPkts := 0, lastRxPkts := 0,
                                   state := NO_STATE.(asoc := true))])
  }

  /** rtw_add_sta: AID and HT capabilities as the caller gives them, unchecked, and the record started anew. */
  function AddStation(s: Ap, x: nat, aid: nat, ht: Option<(bool, bool)>): (r: Ap)
    requires Shape(s) && x < NUM_STA
    ensures Shape(r)
  {
    var p := s.sta[x];
    var asked := if ht.Some? then p.asked.(htGreenfield := ht.value.0, htSupWidth := ht.value.1) else p.asked;
    StaInfoUpdate(s.(sta := s.sta[x := p.(aid := aid, asked := asked)]), x)
  }

  /** update_bmc_sta: the record of the broadcast station is started anew, without an AID. */
  function UpdateBmc(s: Ap): (r: Ap)
    requires Shape(s) && ChainsInRange(s)
    ensures Shape(r) && r.hash == s.hash && r.free == s.free
  {
    var b := Lookup(s, BROADCAST);
    if b.None? then s else AddStation(s, b.value, 0, None)
  }

  /** What rtw_set_beacon does to the stations: update_bmc_sta, and the AP's own entry unless it is there. */
  function SetBeacon(s: Ap, own: Mac): (r: Ap)
    requires Shape(s) && ChainsInRange(s) && AllBelow(s.free, NUM_STA)
    ensures Shape(r)
  {
    var s := UpdateBmc(s);
    if Lookup(s, own).Some? then s else Alloc(s, own).0
  }

  // ---- the two-second tick -------------------------------------------------------------------

  /** One station of auth_list. */
  function TickAuthOne(s: Ap, x: nat): (r: Ap)
    requires Shape(s) && x < NUM_STA
    ensures Shape(r)
  {
    var e := s.sta[x].expireTo;
    if e == 0 then s else
      var s := s.(sta := s.sta[x := s.sta[x].(expireTo := e - 1)]);
      if e == 1 then FreeSta(s.(auth := Without(s.auth, x)), x) else s
  }

  predicate Alive(p: StaInfo) {
    p.rxPkts != p.lastRxPkts || p.state.sleep
  }

  /** The value the countdown of an associated station is decremented from. */
  function Countdown(cfg: Config, p: StaInfo): (r: nat) {
    if Alive(p) then cfg.expireTo else p.expireTo
  }

  function Decremented(e: nat): (r: nat) {
    if e > 0 then e - 1 else 0
  }

  /** The record of an associated station after the visit. */
  function Visited(cfg: Config, p: StaInfo): (r: StaInfo) {
    p.(lastRxPkts := p.rxPkts, expireTo := Decremented(Countdown(cfg, p)))
  }

  /** One station of asoc_list. */
  function TickAsocOne(s: Ap, cfg: Config, x: nat): (r: Ap)
    requires Shape(s) && x < NUM_STA
    ensures Shape(r)
  {
    var expired := Countdown(cfg, s.sta[x]) == 1;
    var s := s.(sta := s.sta[x := Visited(cfg, s.sta[x])]);
    if expired then ApFreeSta(s.(asoc := Without(s.asoc, x)), cfg, x) else s
  }

  function TickAuth(s: Ap, todo: seq<nat>): (r: Ap)
    requires Shape(s) && AllBelow(todo, NUM_STA)
    ensures Shape(r)
    decreases |todo|
  {
    if todo == [] then s else TickAuth(TickAuthOne(s, todo[0]), todo[1..])
  }

  function TickAsoc(s: Ap, cfg: Config, todo: seq<nat>): (r: Ap)
    requires Shape(s) && AllBelow(todo, NUM_STA)
    ensures Shape(r)
    decreases |todo|
  {
    if todo == [] then s else TickAsoc(TickAsocOne(s, cfg, todo[0]), cfg, todo[1..])
  }
}
