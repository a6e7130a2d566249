/** What collect_bss_info reads out of the beacons and probe responses it receives, whatever they hold. */
module CollectBss {
  import opened Wrappers
  import opened InformationElement
  import opened Ieee80211
  import opened BssInfo
  import opened MacAddress

  const MAX_IE_SZ: nat := 768

  /** The fields of the scan record that come from the frame. */
  datatype Info = Info(
    ieLength: nat,
    fromBeacon: bool,
    ssid: seq<Byte>,
    rates: seq<Byte>,
    dsConfig: Byte,
    beaconPeriod: nat,
    infrastructure: bool,
    mac: Mac,
    privacy: bool)

  /** The record, a refusal, or an access outside the arrays of the frame or of the record. */
  datatype Outcome = Outside | Refused | Collected(info: Info)

  /** The bytes copied from an element, its absence, or a copy that leaves its source or its room. */
  datatype Copy = Beyond | Absent | Copied(bytes: seq<Byte>)

  /** get_ie and a copy of the whole body of what it finds, into `room` bytes. */
  function CopyBody(b: seq<Byte>, limit: nat, id: Byte, room: nat): (r: Copy)
    requires limit <= |b|
    ensures r.Copied? ==> |r.bytes| <= room
  {
    match Look(b, id, limit, 0)
    case Stray => Beyond
    case Missing => Absent
    case At(at) =>
      var len := b[at + 1] as nat;
      if at + 2 + len > |b| || len > room then Beyond else Copied(b[at + 2..at + 2 + len])
  }

  /** get_ie and the byte after the length of what it finds. */
  function FirstByte(b: seq<Byte>, limit: nat, id: Byte): (r: Copy)
    requires limit <= |b|
    ensures r.Copied? ==> |r.bytes| == 1
  {
    match Look(b, id, limit, 0)
    case Stray => Beyond
    case Missing => Absent
    case At(at) => if at + 2 >= |b| then Beyond else Copied([b[at + 2]])
  }

  function BytesOf(c: Copy): (r: seq<Byte>) {
    if c.Copied? then c.bytes else []
  }

  /** The supported rates followed by the extended ones in a zeroed array of 16; None where a copy leaves it. */
  function RatesOf(b: seq<Byte>, limit: nat): (r: Option<seq<Byte>>)
    requires limit <= |b|
  {
    var first := CopyBody(b, limit, SUPPORTED_RATES, LENGTH_RATES_EX);
    if first.Beyond? then None
    else
      var second := CopyBody(b, limit, EXT_SUPPORTED_RATES, LENGTH_RATES_EX - |BytesOf(first)|);
      if second.Beyond? then None
      else
        var joined := BytesOf(first) + BytesOf(second);
        Some(joined + Zeros(LENGTH_RATES_EX - |joined|))
  }

  /** The DS parameter set, else the primary channel of the HT element, else the current channel. */
  function ChannelOf(b: seq<Byte>, limit: nat, current: Byte): (r: Option<Byte>)
    requires limit <= |b|
  {
    match FirstByte(b, limit, DS_SET)
    case Beyond => None
    case Copied(ds) => Some(ds[0])
    case Absent =>
      match FirstByte(b, limit, HT_ADD_INFO)
      case Beyond => None
      case Copied(ht) => Some(ht[0])
      case Absent => Some(current)
  }

  function Number16(low: Byte, high: Byte): (r: nat) {
    low as nat + 256 * high as nat
  }

  /** What surrounds the elements: from beacon, transmitter address, BSS address, and the current channel. */
  datatype Frame = Frame(beacon: bool, addr2: Mac, addr3: Mac, current: Byte)

  function InfoOf(body: seq<Byte>, f: Frame, ssid: seq<Byte>, rates: seq<Byte>, channel: Byte): (r: Info)
    requires |body| >= FIXED_IE_LENGTH
  {
    var caps := Number16(body[10], body[11]);
    Info(|body|, f.beacon, ssid, rates, channel, Number16(body[8], body[9]),
         caps % 2 == 1, if caps % 2 == 1 then f.addr2 else f.addr3, caps / 16 % 2 == 1)
  }

  /** The elements in the array of 768 zeroed bytes they are copied to. */
  function InArray(body: seq<Byte>): (b: seq<Byte>)
    requires FIXED_IE_LENGTH <= |body| <= MAX_IE_SZ
    ensures |b| == MAX_IE_SZ - FIXED_IE_LENGTH
  {
    (body + Zeros(MAX_IE_SZ - |body|))[FIXED_IE_LENGTH..]
  }

  /** What collect_bss_info makes of any frame body. */
  function Collect(body: seq<Byte>, f: Frame): (r: Outcome) {
    if |body| > MAX_IE_SZ || |body| < FIXED_IE_LENGTH then Refused
    else
      var b, limit := InArray(body), |body| - FIXED_IE_LENGTH;
      match CopyBody(b, limit, SSID, 32)
      case Beyond => Outside
      case Absent => Refused
      case Copied(ssid) =>
        var rates, channel := RatesOf(b, limit), ChannelOf(b, limit, f.current);
        if rates.None? || channel.None? then Outside else Collected(InfoOf(body, f, ssid, rates.value, channel.value))
  }

  method CopyIe(b: seq<Byte>, limit: nat, id: Byte, room: nat) returns (r: Copy)
    requires limit <= |b|
    ensures r == CopyBody(b, limit, id, room)
  {
    var stop, len, _ := GetIe(b, id, 0, limit);
    match stop
    case Stray => return Beyond;
    case Missing => return Absent;
    case At(at) =>
      if at + 2 + len > |b| || len > room {
        return Beyond;
      }
      return Copied(b[at + 2..at + 2 + len]);
  }

  method ReadByte(b: seq<Byte>, limit: nat, id: Byte) returns (r: Copy)
    requires limit <= |b|
    ensures r == FirstByte(b, limit, id)
  {
    var stop, _, _ := GetIe(b, id, 0, limit);
    match stop
    case Stray => return Beyond;
    case Missing => return Absent;
    case At(at) =>
      if at + 2 >= |b| {
        return Beyond;
      }
      return Copied([b[at + 2]]);
  }

  method CollectRates(b: seq<Byte>, limit: nat) returns (r: Option<seq<Byte>>)
    requires limit <= |b|
    ensures r == RatesOf(b, limit)
  {
    var first := CopyIe(b, limit, SUPPORTED_RATES, LENGTH_RATES_EX);
    if first.Beyond? {
      return None;
    }
    var i := |BytesOf(first)|;
    var second := CopyIe(b, limit, EXT_SUPPORTED_RATES, LENGTH_RATES_EX - i);
    if second.Beyond? {
      return None;
    }
    var rates := JoinRates(BytesOf(first), BytesOf(second));
    return Some(rates);
  }

  /** The two copies into the zeroed array */
  method JoinRates(a: seq<Byte>, b: seq<Byte>) returns (rates: seq<Byte>)
    requires |a| + |b| <= LENGTH_RATES_EX
    ensures rates == (a + b) + Zeros(LENGTH_RATES_EX - |a + b|)
  {
    var supported := new Byte[LENGTH_RATES_EX](_ => 0);
    ghost var zeros := supported[..];
    CopyIn(supported, 0, a);
    ghost var one := supported[..];
    CopyIn(supported, |a|, b);
    Joined(a, b, zeros, one, supported[..]);
    return supported[..];
  }

  lemma Joined(a: seq<Byte>, b: seq<Byte>, zeros: seq<Byte>, one: seq<Byte>, two: seq<Byte>)
    requires |a| + |b| <= |zeros| == LENGTH_RATES_EX && forall i :: 0 <= i < |zeros| ==> zeros[i] == 0
    requires one == zeros[..0] + a + zeros[|a|..] && two == one[..|a|] + b + one[|a| + |b|..]
    ensures two == (a + b) + Zeros(LENGTH_RATES_EX - |a + b|)
  {
    assert one[..|a|] == a;
    assert one[|a| + |b|..] == zeros[|a| + |b|..];
    assert zeros[|a| + |b|..] == Zeros(LENGTH_RATES_EX - |a + b|);
  }

  method CollectChannel(b: seq<Byte>, limit: nat, current: Byte) returns (r: Option<Byte>)
    requires limit <= |b|
    ensures r == ChannelOf(b, limit, current)
  {
    var ds := ReadByte(b, limit, DS_SET);
    match ds
    case Beyond => return None;
    case Copied(bytes) => return Some(bytes[0]);
    case Absent =>
      var ht := ReadByte(b, limit, HT_ADD_INFO);
      match ht
      case Beyond => return None;
      case Copied(bytes) => return Some(bytes[0]);
      case Absent => return Some(current);
  }

  method CollectBssInfo(body: seq<Byte>, f: Frame) returns (r: Outcome)
    ensures r == Collect(body, f)
  {
    if |body| > MAX_IE_SZ {
      return Refused;
    }
    if |body| < FIXED_IE_LENGTH {
      return Refused; // the limit handed to get_ie is negative
    }
    var b, limit := InArray(body), |body| - FIXED_IE_LENGTH;
    var ssid := CopyIe(b, limit, SSID, 32);
    if ssid.Beyond? {
      return Outside;
    }
    if ssid.Absent? {
      return Refused;
    }
    var rates := CollectRates(b, limit);
    var channel := CollectChannel(b, limit, f.current);
    if rates.None? || channel.None? {
      return Outside;
    }
    return Collected(InfoOf(body, f, ssid.bytes, rates.value, channel.value));
  }

  // ---- frames that are elements --------------------------------------------------------------

  function BodyWith(ies: seq<Ie>, id: Byte): (r: Option<seq<Byte>>) {
    var k := FirstWith(ies, id);
    if k == |ies| then None else Some(ies[k].body)
  }

  function BodyOr(ies: seq<Ie>, id: Byte): (r: seq<Byte>) {
    var r := BodyWith(ies, id);
    if r.Some? then r.value else []
  }

  /** The body of the frame is fixed fields and these elements. */
  ghost predicate Framed(body: seq<Byte>, ies: seq<Ie>) {
    FIXED_IE_LENGTH <= |body| <= MAX_IE_SZ && body[FIXED_IE_LENGTH..] == Print(ies)
  }

  lemma CopyBodyTiled(b: seq<Byte>, limit: nat, ies: seq<Ie>, id: Byte, room: nat)
    requires limit <= |b| && b[..limit] == Print(ies)
    ensures var w := BodyWith(ies, id);
      CopyBody(b, limit, id, room) == if w.None? then Absent else if |w.value| <= room then Copied(w.value) else Beyond
  {
    LookTiled(b, id, limit, ies);
    var k := FirstWith(ies, id);
    if k < |ies| {
      AtElement(b, limit, ies, k);
    }
  }

  /** The first element with the id is empty and ends where the array of the elements ends. */
  ghost predicate EmptyAtEnd(ies: seq<Ie>, id: Byte) {
    BodyWith(ies, id) == Some([]) && FirstWith(ies, id) + 1 == |ies| && |Print(ies)| == MAX_IE_SZ - FIXED_IE_LENGTH
  }

  lemma FirstByteTiled(b: seq<Byte>, limit: nat, ies: seq<Ie>, id: Byte)
    requires limit <= |b| == MAX_IE_SZ - FIXED_IE_LENGTH && b[..limit] == Print(ies)
    ensures FirstByte(b, limit, id).Absent? <==> BodyWith(ies, id).None?
    ensures FirstByte(b, limit, id).Beyond? <==> EmptyAtEnd(ies, id)
    ensures BodyOr(ies, id) != [] ==> FirstByte(b, limit, id) == Copied([BodyOr(ies, id)[0]])
  {
    LookTiled(b, id, limit, ies);
    var k := FirstWith(ies, id);
    if k < |ies| {
      AtElement(b, limit, ies, k);
      AtTheEnd(ies, k + 1);
      var p := Offset(ies, k);
      assert ies[k].body != [] ==> b[p + 2..p + 2 + |ies[k].body|][0] == b[p + 2];
    }
  }

  ghost predicate LeavesArrays(ies: seq<Ie>) {
    || |BodyOr(ies, SSID)| > 32
    || |BodyOr(ies, SUPPORTED_RATES)| + |BodyOr(ies, EXT_SUPPORTED_RATES)| > LENGTH_RATES_EX
    || EmptyAtEnd(ies, DS_SET) || (BodyWith(ies, DS_SET).None? && EmptyAtEnd(ies, HT_ADD_INFO))
  }

  /**
   When collect_bss_info leaves its arrays, for a frame of elements with an SSID: an SSID of more than 32 bytes,
   more than 16 rates in the two elements together, or a channel to be read from an empty element at the very end.
   */
  lemma OutsideIff(body: seq<Byte>, f: Frame, ies: seq<Ie>)
    requires Framed(body, ies)
    ensures Collect(body, f) == Refused <==> BodyWith(ies, SSID).None?
    ensures Collect(body, f) == Outside <==> BodyWith(ies, SSID).Some? && LeavesArrays(ies)
  {
    InArrayTiled(body, ies);
    var b, limit := InArray(body), |body| - FIXED_IE_LENGTH;
    CopyBodyTiled(b, limit, ies, SSID, 32);
    RatesTiled(b, limit, ies);
    FirstByteTiled(b, limit, ies, DS_SET);
    FirstByteTiled(b, limit, ies, HT_ADD_INFO);
  }

  lemma InArrayTiled(body: seq<Byte>, ies: seq<Ie>)
    requires Framed(body, ies)
    ensures InArray(body)[..|body| - FIXED_IE_LENGTH] == Print(ies)
  {
  }

  lemma RatesTiled(b: seq<Byte>, limit: nat, ies: seq<Ie>)
    requires limit <= |b| && b[..limit] == Print(ies)
    ensures var r := BodyOr(ies, SUPPORTED_RATES) + BodyOr(ies, EXT_SUPPORTED_RATES);
      RatesOf(b, limit) == if |r| <= LENGTH_RATES_EX then Some(r + Zeros(LENGTH_RATES_EX - |r|)) else None
  {
    CopyBodyTiled(b, limit, ies, SUPPORTED_RATES, LENGTH_RATES_EX);
    var a := BodyOr(ies, SUPPORTED_RATES);
    if |a| <= LENGTH_RATES_EX {
      CopyBodyTiled(b, limit, ies, EXT_SUPPORTED_RATES, LENGTH_RATES_EX - |a|);
    }
  }

  /** The byte after the length of the first element with the id; of an empty one it belongs to what follows. */
  function ByteAfter(ies: seq<Ie>, id: Byte): (r: Option<Byte>) {
    var k := FirstWith(ies, id);
    if k == |ies| then None
    else if ies[k].body != [] then Some(ies[k].body[0])
    else if k + 1 < |ies| then Some(ies[k + 1].id)
    else Some(0)
  }

  lemma ByteAfterTiled(b: seq<Byte>, limit: nat, ies: seq<Ie>, id: Byte)
    requires limit <= |b| == MAX_IE_SZ - FIXED_IE_LENGTH && b[..limit] == Print(ies)
    requires forall i :: limit <= i < |b| ==> b[i] == 0
    requires !EmptyAtEnd(ies, id)
    ensures FirstByte(b, limit, id) == var w := ByteAfter(ies, id); if w.None? then Absent else Copied([w.value])
  {
    FirstByteTiled(b, limit, ies, id);
    LookTiled(b, id, limit, ies);
    var k := FirstWith(ies, id);
    if k < |ies| && ies[k].body == [] {
      AtElement(b, limit, ies, k);
      AtTheEnd(ies, k + 1);
      if k + 1 < |ies| {
        AtElement(b, limit, ies, k + 1);
      }
    }
  }

  /** The channel of the DS parameter set, else the primary channel of the HT element, else the current one. */
  function ChannelIn(ies: seq<Ie>, current: Byte): (r: Byte) {
    var ds, ht := ByteAfter(ies, DS_SET), ByteAfter(ies, HT_ADD_INFO);
    if ds.Some? then ds.value else if ht.Some? then ht.value else current
  }

  lemma ChannelTiled(b: seq<Byte>, limit: nat, ies: seq<Ie>, current: Byte)
    requires limit <= |b| == MAX_IE_SZ - FIXED_IE_LENGTH && b[..limit] == Print(ies)
    requires forall i :: limit <= i < |b| ==> b[i] == 0
    requires !LeavesArrays(ies)
    ensures ChannelOf(b, limit, current) == Some(ChannelIn(ies, current))
  {
    ByteAfterTiled(b, limit, ies, DS_SET);
    if BodyWith(ies, DS_SET).None? {
      ByteAfterTiled(b, limit, ies, HT_ADD_INFO);
    }
  }

  /**
   The whole record of a frame of elements: the first SSID, the rates of the first two rate elements joined and
   padded, the channel as the elements give it, and the fixed fields.
   */
  lemma CollectFrame(body: seq<Byte>, f: Frame, ies: seq<Ie>)
    requires Framed(body, ies) && BodyWith(ies, SSID).Some? && !LeavesArrays(ies)
    ensures var rates := BodyOr(ies, SUPPORTED_RATES) + BodyOr(ies, EXT_SUPPORTED_RATES);
      Collect(body, f) == Collected(InfoOf(body, f, BodyOr(ies, SSID), rates + Zeros(LENGTH_RATES_EX - |rates|), ChannelIn(ies, f.current)))
  {
    InArrayTiled(body, ies);
    var b, limit := InArray(body), |body| - FIXED_IE_LENGTH;
    CopyBodyTiled(b, limit, ies, SSID, 32);
    RatesTiled(b, limit, ies);
    ChannelTiled(b, limit, ies, f.current);
  }

  // ---- generated beacons ---------------------------------------------------------------------

  /** What get_ie finds in a generated beacon. */
  lemma ElementBodies(c: Config)
    requires |c.ssid| <= 32
    ensures var es := Elements(c);
      && BodyWith(es, SSID) == Some(c.ssid)
      && BodyWith(es, SUPPORTED_RATES) == Some(AtMost8(ModeRates(EffectiveMode(c))))
      && BodyWith(es, DS_SET) == Some([(c.dsConfig % 256) as Byte])
      && BodyWith(es, HT_ADD_INFO) == None
  {
    var es := Elements(c);
    FirstWithIs(es, SSID, 0);
    FirstWithIs(es, SUPPORTED_RATES, 1);
    FirstWithIs(es, DS_SET, 2);
    FirstWithIs(es, HT_ADD_INFO, |es|);
  }

  /** Splitting the rates at 8 over two elements loses none: reading rejoins them. */
  lemma RatesRejoin(c: Config)
    requires |c.ssid| <= 32
    ensures var es := Elements(c);
      BodyOr(es, SUPPORTED_RATES) + BodyOr(es, EXT_SUPPORTED_RATES) == ModeRates(EffectiveMode(c))
  {
    ElementBodies(c);
    var es, r := Elements(c), ModeRates(EffectiveMode(c));
    FirstWithIs(es, EXT_SUPPORTED_RATES, 4);
    if |r| > 8 {
      assert r[..8] + r[8..] == r;
    } else {
      assert r + [] == r;
    }
  }

  lemma FixedReads(timestamp: seq<Byte>, c: Config, b: seq<Byte>)
    requires |timestamp| == 8 && |b| >= FIXED_IE_LENGTH && b[..FIXED_IE_LENGTH] == Fixed(timestamp, c)
    ensures Number16(b[8], b[9]) == c.beaconPeriod % 0x1_0000
    ensures Number16(b[10], b[11]) == Capability(c)
  {
    var f := b[..FIXED_IE_LENGTH];
    assert f[8] == b[8] && f[9] == b[9] && f[10] == b[10] && f[11] == b[11];
    Low16Number(c.beaconPeriod);
    Low16Number(Capability(c));
  }

  lemma Low16Number(x: nat)
    ensures Number16(Low16(x)[0], Low16(x)[1]) == x % 0x1_0000
  {
    assert x == 0x1_0000 * (x / 0x1_0000) + 256 * (x / 256 % 256) + x % 256;
  }

  lemma CapabilityBits(c: Config)
    ensures Capability(c) % 2 == 0 && (Capability(c) / 16 % 2 == 1 <==> c.privacy)
  {
  }

  lemma {:induction false} PrintBound(ies: seq<Ie>)
    requires forall k :: 0 <= k < |ies| ==> |ies[k].body| <= 32
    ensures |Print(ies)| <= 34 * |ies|
  {
    if ies != [] {
      PrintBound(ies[1..]);
    }
  }

  /** The bytes of a generated beacon body. */
  ghost predicate Generated(c: Config, timestamp: seq<Byte>, b: seq<Byte>) {
    |c.ssid| <= 32 && |timestamp| == 8 && b == Fixed(timestamp, c) + Print(Elements(c))
  }

  /** They are within the limits of collect_bss_info, which accepts them. */
  lemma GeneratedFits(c: Config, timestamp: seq<Byte>, b: seq<Byte>)
    requires Generated(c, timestamp, b)
    ensures FIXED_IE_LENGTH <= |b| <= MAX_IE_SZ && b[..FIXED_IE_LENGTH] == Fixed(timestamp, c)
    ensures b[FIXED_IE_LENGTH..] == Print(Elements(c))
    ensures Framed(b, Elements(c))
  {
    PrintBound(Elements(c));
  }

  lemma CollectedElements(c: Config, b: seq<Byte>, limit: nat, current: Byte)
    requires |c.ssid| <= 32 && limit <= |b| == MAX_IE_SZ - FIXED_IE_LENGTH && b[..limit] == Print(Elements(c))
    ensures CopyBody(b, limit, SSID, 32) == Copied(c.ssid)
    ensures RatesOf(b, limit) == Some(SupportedRates(EffectiveMode(c)))
    ensures ChannelOf(b, limit, current) == Some((c.dsConfig % 256) as Byte)
  {
    ElementBodies(c);
    RatesRejoin(c);
    CopyBodyTiled(b, limit, Elements(c), SSID, 32);
    RatesTiled(b, limit, Elements(c));
    FirstByteTiled(b, limit, Elements(c), DS_SET);
  }

  /**
   Reading back a generated beacon gives the configuration: the rates and the SSID always, the
   channel exactly when it fits the one byte written for it, the beacon period exactly when it fits two.
   */
  lemma GenerateThenCollect(c: Config, timestamp: seq<Byte>, b: seq<Byte>, f: Frame)
    requires Generated(c, timestamp, b)
    ensures Collect(b, f).Collected? && Recovered(c, b, f, Collect(b, f).info)
  {
    GeneratedFits(c, timestamp, b);
    CollectGenerated(c, b, f);
    GeneratedInfo(c, timestamp, b, f, (c.dsConfig % 256) as Byte);
  }

  ghost predicate Recovered(c: Config, b: seq<Byte>, f: Frame, info: Info) {
    && info.ieLength == |b| && info.ssid == c.ssid && info.rates == SupportedRates(EffectiveMode(c))
    && (info.dsConfig as nat == c.dsConfig <==> c.dsConfig < 256)
    && (info.beaconPeriod == c.beaconPeriod <==> c.beaconPeriod < 0x1_0000)
    && info.privacy == c.privacy && !info.infrastructure && info.mac == f.addr3
  }

  lemma GeneratedInfo(c: Config, timestamp: seq<Byte>, b: seq<Byte>, f: Frame, channel: Byte)
    requires |timestamp| == 8 && |b| >= FIXED_IE_LENGTH && b[..FIXED_IE_LENGTH] == Fixed(timestamp, c)
    requires channel as nat == c.dsConfig % 256
    ensures Recovered(c, b, f, InfoOf(b, f, c.ssid, SupportedRates(EffectiveMode(c)), channel))
  {
    FixedReads(timestamp, c, b);
    CapabilityBits(c);
  }

  lemma CollectGenerated(c: Config, b: seq<Byte>, f: Frame)
    requires |c.ssid| <= 32 && Framed(b, Elements(c))
    ensures Collect(b, f) == Collected(InfoOf(b, f, c.ssid, SupportedRates(EffectiveMode(c)), (c.dsConfig % 256) as Byte))
  {
    InArrayTiled(b, Elements(c));
    CollectedElements(c, InArray(b), |b| - FIXED_IE_LENGTH, f.current);
  }
}
