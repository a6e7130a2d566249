/** The elements the driver writes into its own beacons. */
module BssInfo {
  import opened InformationElement
  import opened Ieee80211

  const SSID: Byte := 0
  const SUPPORTED_RATES: Byte := 1
  const DS_SET: Byte := 3
  const IBSS_PARA: Byte := 6
  const EXT_SUPPORTED_RATES: Byte := 50
  const HT_ADD_INFO: Byte := 61

  const FIXED_IE_LENGTH: nat := 12
  const LENGTH_RATES_EX: nat := 16

  const CCK_RATES: seq<Byte> := [0x82, 0x84, 0x8b, 0x96]
  const OFDM_RATES: seq<Byte> := [0x0c, 0x12, 0x18, 0x24, 0x30, 0x48, 0x60, 0x6c]

  const CAP_IBSS: nat := 0x02
  const CAP_PRIVACY: nat := 0x10
  const CAP_SHORT_PREAMBLE: nat := 0x20

  /** What generate_ie reads of registry_priv and of its dev_network; the numbers are 32-bit fields. */
  datatype Config = Config(
    ssid: seq<Byte>,
    wirelessMode: Byte,
    shortPreamble: bool,
    privacy: bool,
    beaconPeriod: nat,
    atimWindow: nat,
    dsConfig: nat)

  function Zeros(n: nat): (z: seq<Byte>)
    ensures |z| == n && forall i :: 0 <= i < n ==> z[i] == 0
  {
    if n == 0 then [] else [0] + Zeros(n - 1)
  }

  /** The rates of a mode, in the order of the two tables. */
  function ModeRates(mode: Byte): (r: seq<Byte>)
    ensures |r| <= 12 && forall i :: 0 <= i < |r| ==> r[i] != 0
  {
    if mode == 1 then CCK_RATES
    else if mode == 2 || mode == 4 || mode == 16 || mode == 20 then OFDM_RATES
    else if mode == 3 || mode == 10 || mode == 8 || mode == 11 then CCK_RATES + OFDM_RATES
    else []
  }

  /** set_supported_rate */
  function SupportedRates(mode: Byte): (r: seq<Byte>)
    ensures |r| == LENGTH_RATES_EX
  {
    ModeRates(mode) + Zeros(LENGTH_RATES_EX - |ModeRates(mode)|)
  }

  /** get_rateset_len: the leading non-zero bytes, 13 at most. */
  method RatesetLen(rateset: seq<Byte>) returns (i: nat)
    requires |rateset| >= 14
    ensures i <= 13 && (forall j :: 0 <= j < i ==> rateset[j] != 0) && (i < 13 ==> rateset[i] == 0)
  {
    i := 0;
    while true
      invariant i <= 13 && forall j :: 0 <= j < i ==> rateset[j] != 0
      decreases 13 - i
    {
      if rateset[i] == 0 || i > 12 {
        break;
      }
      i := i + 1;
    }
  }

  function EffectiveMode(c: Config): (r: Byte) {
    if c.wirelessMode == 31 then (if c.dsConfig > 14 then 20 else 11) else c.wirelessMode
  }

  function Low16(x: nat): (r: seq<Byte>) {
    [(x % 256) as Byte, (x / 256 % 256) as Byte]
  }

  function Capability(c: Config): (r: nat) {
    CAP_IBSS + (if c.shortPreamble then CAP_SHORT_PREAMBLE else 0) + (if c.privacy then CAP_PRIVACY else 0)
  }

  function Fixed(timestamp: seq<Byte>, c: Config): (r: seq<Byte>) {
    timestamp + Low16(c.beaconPeriod) + Low16(Capability(c))
  }

  function AtMost8(rates: seq<Byte>): (r: seq<Byte>) {
    if |rates| > 8 then rates[..8] else rates
  }

  function ExtRates(rates: seq<Byte>): (r: seq<Ie>) {
    if 8 < |rates| < 256 then [IeData(EXT_SUPPORTED_RATES, rates[8..])] else []
  }

  /** The elements of the beacon in the order generate_ie writes them. */
  function Elements(c: Config): (r: seq<Ie>)
    requires |c.ssid| <= 32
  {
    HeadElements(c, EffectiveMode(c)) + ExtRates(ModeRates(EffectiveMode(c)))
  }

  function HeadElements(c: Config, mode: Byte): (r: seq<Ie>)
    requires |c.ssid| <= 32
  {
    [IeData(SSID, c.ssid),
     IeData(SUPPORTED_RATES, AtMost8(ModeRates(mode))),
     IeData(DS_SET, [(c.dsConfig % 256) as Byte]),
     IeData(IBSS_PARA, Low16(c.atimWindow))]
  }

  lemma RatesetLenIs(mode: Byte, len: nat)
    requires len <= 13 && (forall j :: 0 <= j < len ==> SupportedRates(mode)[j] != 0)
    requires len < 13 ==> SupportedRates(mode)[len] == 0
    ensures len == |ModeRates(mode)| && SupportedRates(mode)[..len] == ModeRates(mode)
  {
    var r, n := SupportedRates(mode), |ModeRates(mode)|;
    assert r[n] == 0;
    assert forall j :: 0 <= j < n ==> r[j] != 0;
  }

  /** The buffer so far: `done` lies between the fixed fields and `p`, and everything else is as it was. */
  ghost predicate WrittenUpTo(orig: seq<Byte>, now: seq<Byte>, p: nat, done: seq<Ie>) {
    && FIXED_IE_LENGTH <= p <= |orig| == |now|
    && now[..FIXED_IE_LENGTH] == orig[..FIXED_IE_LENGTH] && now[FIXED_IE_LENGTH..p] == Print(done) && now[p..] == orig[p..]
  }

  /** set_ie after the elements `done` */
  method AppendIe(buf: array<Byte>, p: nat, e: Ie, sz: nat, ghost orig: seq<Byte>, ghost done: seq<Ie>)
    returns (next: nat, newSz: nat)
    requires p + 2 + |e.body| <= buf.Length && WrittenUpTo(orig, buf[..], p, done)
    modifies buf
    ensures next == p + 2 + |e.body| && newSz == sz + 2 + |e.body|
    ensures WrittenUpTo(orig, buf[..], next, done + [e])
  {
    ghost var before := buf[..];
    next, newSz := SetIe(buf, p, e.id, e.body, sz);
    assert WrittenIe(e.id, e.body) == PrintIe(e);
    Appended(orig, before, buf[..], p, next, done, e);
  }

  lemma Appended(orig: seq<Byte>, before: seq<Byte>, after: seq<Byte>, p: nat, next: nat, done: seq<Ie>, e: Ie)
    requires WrittenUpTo(orig, before, p, done) && next == p + |PrintIe(e)| <= |before|
    requires after == before[..p] + PrintIe(e) + before[next..]
    ensures WrittenUpTo(orig, after, next, done + [e])
  {
    PrintSnoc(done, e);
    assert after[FIXED_IE_LENGTH..next] == before[FIXED_IE_LENGTH..p] + PrintIe(e);
    assert before[next..] == before[p..][next - p..] == orig[next..];
    assert after[..FIXED_IE_LENGTH] == before[..FIXED_IE_LENGTH];
  }

  /**
   generate_ie: the returned size is the bytes written. The 8 timestamp bytes are left to the
   hardware and everything past the size stays as it was.
   */
  method GenerateIe(buf: array<Byte>, c: Config) returns (sz: nat)
    requires |c.ssid| <= 32 && buf.Length >= 768
    modifies buf
    ensures sz == FIXED_IE_LENGTH + |Print(Elements(c))| <= buf.Length
    ensures buf[..FIXED_IE_LENGTH] == Fixed(old(buf[..8]), c)
    ensures buf[FIXED_IE_LENGTH..sz] == Print(Elements(c))
    ensures buf[sz..] == old(buf[sz..])
  {
    WriteFixed(buf, c);
    sz := WriteElements(buf, c);
  }

  method WriteElements(buf: array<Byte>, c: Config) returns (sz: nat)
    requires |c.ssid| <= 32 && buf.Length >= 768
    modifies buf
    ensures WrittenUpTo(old(buf[..]), buf[..], sz, Elements(c))
  {
    ghost var orig := buf[..];
    var mode := EffectiveMode(c);
    var p, size := AppendHead(buf, c, mode);
    var supported := SupportedRates(mode);
    var rateLen := RatesetLen(supported);
    RatesetLenIs(mode, rateLen);
    if rateLen > 8 {
      assert supported[8..rateLen] == ModeRates(mode)[8..];
      p, size := AppendIe(buf, p, IeData(EXT_SUPPORTED_RATES, supported[8..rateLen]), size, orig, HeadElements(c, mode));
    }
    assert rateLen <= 8 ==> HeadElements(c, mode) + [] == HeadElements(c, mode);
    return size;
  }

  /** The four elements that are always there. */
  method AppendHead(buf: array<Byte>, c: Config, mode: Byte) returns (p: nat, sz: nat)
    requires |c.ssid| <= 32 && buf.Length >= 768
    modifies buf
    ensures sz == p <= 12 + 34 + 10 + 3 + 4
    ensures WrittenUpTo(old(buf[..]), buf[..], p, HeadElements(c, mode))
  {
    ghost var orig := buf[..];
    var supported := SupportedRates(mode);
    var rateLen := RatesetLen(supported);
    RatesetLenIs(mode, rateLen);
    var n := if rateLen > 8 then 8 else rateLen;
    assert supported[..n] == AtMost8(ModeRates(mode));
    var e0: Ie, e1: Ie := IeData(SSID, c.ssid), IeData(SUPPORTED_RATES, supported[..n]);
    var e2: Ie, e3: Ie := IeData(DS_SET, [(c.dsConfig % 256) as Byte]), IeData(IBSS_PARA, Low16(c.atimWindow));
    p, sz := FIXED_IE_LENGTH, FIXED_IE_LENGTH;
    p, sz := AppendIe(buf, p, e0, sz, orig, []);
    p, sz := AppendIe(buf, p, e1, sz, orig, [] + [e0]);
    p, sz := AppendIe(buf, p, e2, sz, orig, [] + [e0] + [e1]);
    p, sz := AppendIe(buf, p, e3, sz, orig, [] + [e0] + [e1] + [e2]);
    assert [] + [e0] + [e1] + [e2] + [e3] == HeadElements(c, mode);
  }

  method WriteFixed(buf: array<Byte>, c: Config)
    requires buf.Length >= FIXED_IE_LENGTH
    modifies buf
    ensures buf[..FIXED_IE_LENGTH] == Fixed(old(buf[..8]), c) && buf[FIXED_IE_LENGTH..] == old(buf[FIXED_IE_LENGTH..])
  {
    var interval, cap := Low16(c.beaconPeriod), Low16(Capability(c));
    buf[8], buf[9], buf[10], buf[11] := interval[0], interval[1], cap[0], cap[1];
  }
}
