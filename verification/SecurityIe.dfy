/**
 WPA and RSN elements: what the parsers of ieee80211.c accept. RSN is section 7.3.2.25 of IEEE Std
 802.11-2007. parse_wpa_ie and parse_wpa2_ie differ only in the element id, the header and the OUI.
 */
module SecurityIe {
  import opened Wrappers
  import opened InformationElement

  datatype Kind = Wpa | Rsn

  datatype Cipher = NoCipher | Wep40 | Tkip | Ccmp | Wep104

  function Id(kind: Kind): (r: Byte) {
    if kind.Wpa? then 0xdd else 0x30
  }

  function Oui(kind: Kind): (r: seq<Byte>) {
    if kind.Wpa? then [0x00, 0x50, 0xf2] else [0x00, 0x0f, 0xac]
  }

  /** What stands between the length byte and the version. */
  function Header(kind: Kind): (r: seq<Byte>) {
    if kind.Wpa? then [0x00, 0x50, 0xf2, 0x01] else []
  }

  /** Positions counted from the element id. */
  function GroupAt(kind: Kind): (r: nat) {
    if kind.Wpa? then 8 else 4
  }

  function CountAt(kind: Kind): (r: nat) {
    GroupAt(kind) + 4
  }

  function SuitesAt(kind: Kind): (r: nat) {
    GroupAt(kind) + 6
  }

  /** get_wpa_cipher_suite and get_wpa2_cipher_suite: None where they return 0. */
  function CipherOf(kind: Kind, s: seq<Byte>): (r: Option<Cipher>)
    requires |s| == 4
  {
    if s[0] != Oui(kind)[0] || s[1] != Oui(kind)[1] || s[2] != Oui(kind)[2] then None
    else if s[3] == 0 then Some(NoCipher)
    else if s[3] == 1 then Some(Wep40)
    else if s[3] == 2 then Some(Tkip)
    else if s[3] == 4 then Some(Ccmp)
    else if s[3] == 5 then Some(Wep104)
    else None
  }

  function Singleton(c: Option<Cipher>): (r: set<Cipher>) {
    if c.Some? then {c.value} else {}
  }

  /** The ciphers of `count` suites in a row. */
  ghost function SuiteSet(kind: Kind, list: seq<Byte>): (r: set<Cipher>)
    decreases |list|
  {
    if |list| < 4 then {} else Singleton(CipherOf(kind, list[..4])) + SuiteSet(kind, list[4..])
  }

  /** What a parse leaves behind: success, *group_cipher and *pairwise_cipher. */
  datatype Parsed = Parsed(ok: bool, group: Option<Cipher>, pairwise: set<Cipher>)

  function Count16(b: seq<Byte>, pos: nat): (r: nat)
    requires pos + 2 <= |b|
  {
    b[pos] as nat + 256 * b[pos + 1] as nat
  }

  ghost function ParsedPairwise(kind: Kind, b: seq<Byte>, pos: nat, left: int, group: Option<Cipher>, pairwise: set<Cipher>): (r: Parsed)
    requires pos + left <= |b|
  {
    if left >= 2 then
      var count := Count16(b, pos);
      if count == 0 || left - 2 < count * 4 then Parsed(false, group, pairwise)
      else Parsed(true, group, pairwise + SuiteSet(kind, b[pos + 2..pos + 2 + 4 * count]))
    else Parsed(left != 1, group, pairwise)
  }

  predicate HeadAccepted(kind: Kind, b: seq<Byte>, len: int)
    requires |b| >= 6
  {
    b[0] == Id(kind) && b[1] as int == (len - 2) % 256 && (kind.Wpa? ==> b[2..6] == Header(Wpa))
  }

  ghost function ParsedSec(kind: Kind, b: seq<Byte>, len: int, group: Option<Cipher>, pairwise: set<Cipher>): (r: Parsed)
    requires len <= |b| && |b| >= 6
  {
    var pos, left := GroupAt(kind), len - GroupAt(kind);
    if len <= 0 || !HeadAccepted(kind, b, len) then Parsed(false, group, pairwise)
    else if left >= 4 then ParsedPairwise(kind, b, pos + 4, left - 4, CipherOf(kind, b[pos..pos + 4]), pairwise)
    else Parsed(left <= 0, group, pairwise)
  }

  lemma {:induction false} SuiteSetSnoc(kind: Kind, list: seq<Byte>, s: seq<Byte>)
    requires |list| % 4 == 0 && |s| == 4
    ensures SuiteSet(kind, list + s) == SuiteSet(kind, list) + Singleton(CipherOf(kind, s))
    decreases |list|
  {
    if list == [] {
      assert list + s == s && s[..4] == s && s[4..] == [];
    } else {
      assert (list + s)[..4] == list[..4] && (list + s)[4..] == list[4..] + s;
      SuiteSetSnoc(kind, list[4..], s);
    }
  }

  lemma SuiteSetStep(kind: Kind, b: seq<Byte>, start: nat, pos: nat)
    requires start <= pos && pos + 4 <= |b| && (pos - start) % 4 == 0
    ensures SuiteSet(kind, b[start..pos + 4]) == SuiteSet(kind, b[start..pos]) + Singleton(CipherOf(kind, b[pos..pos + 4]))
  {
    SuiteSetSnoc(kind, b[start..pos], b[pos..pos + 4]);
    assert b[start..pos] + b[pos..pos + 4] == b[start..pos + 4];
  }

  /** The loop over the suite list. */
  method CollectSuites(kind: Kind, b: seq<Byte>, start: nat, count: nat, before: set<Cipher>) returns (pairwise: set<Cipher>)
    requires start + 4 * count <= |b|
    ensures pairwise == before + SuiteSet(kind, b[start..start + 4 * count])
  {
    pairwise := before;
    var pos := start;
    for i := 0 to count
      invariant pos == start + 4 * i && pairwise == before + SuiteSet(kind, b[start..pos])
    {
      SuiteSetStep(kind, b, start, pos);
      pairwise := pairwise + Singleton(CipherOf(kind, b[pos..pos + 4]));
      pos := pos + 4;
    }
  }

  /** parse_wpa_ie and parse_wpa2_ie; the two results are in-out parameters. */
  method ParseSecIe(kind: Kind, b: seq<Byte>, len: int, group0: Option<Cipher>, pairwise0: set<Cipher>)
    returns (ok: bool, group: Option<Cipher>, pairwise: set<Cipher>)
    requires len <= |b| && |b| >= 6
    ensures Parsed(ok, group, pairwise) == ParsedSec(kind, b, len, group0, pairwise0)
  {
    group, pairwise := group0, pairwise0;
    if len <= 0 {
      return false, group, pairwise;
    }
    if !HeadAccepted(kind, b, len) {
      return false, group, pairwise;
    }
    var pos, left := GroupAt(kind), len - GroupAt(kind);
    if left >= 4 {
      group := CipherOf(kind, b[pos..pos + 4]);
      pos, left := pos + 4, left - 4;
    } else if left > 0 {
      return false, group, pairwise;
    }
    if left >= 2 {
      var count := Count16(b, pos);
      pos, left := pos + 2, left - 2;
      if count == 0 || left < count * 4 {
        return false, group, pairwise;
      }
      pairwise := CollectSuites(kind, b, pos, count, pairwise);
    } else if left == 1 {
      return false, group, pairwise;
    }
    return true, group, pairwise;
  }

  /** The body of an element with `n` pairwise suites and the bytes that follow them. */
  function SecBody(kind: Kind, group: seq<Byte>, n: Byte, suites: seq<Byte>, suffix: seq<Byte>): (r: seq<Byte>) {
    Header(kind) + [1, 0] + group + [n, 0] + suites + suffix
  }

  predicate SecShape(group: seq<Byte>, n: Byte, suites: seq<Byte>) {
    |group| == 4 && n >= 1 && |suites| == 4 * n as nat
  }

  /** Where everything is in bytes that begin with such an element; `n` is the suite count. */
  ghost predicate Laid(kind: Kind, b: seq<Byte>, group: seq<Byte>, n: Byte, suites: seq<Byte>) {
    var g, s := GroupAt(kind), SuitesAt(kind);
    && |group| == 4 && n >= 1 && |suites| == 4 * n as nat && |b| >= s + |suites|
    && (kind.Wpa? ==> b[2..6] == Header(Wpa)) && b[g - 2] == 1 && b[g - 1] == 0
    && b[g..g + 4] == group && b[g + 4] == n && b[g + 5] == 0 && b[s..s + |suites|] == suites
  }

  lemma Pieces(x: seq<Byte>, group: seq<Byte>, c: seq<Byte>, suites: seq<Byte>, tail: seq<Byte>)
    requires |group| == 4 && |c| == 2
    ensures var b, g := x + group + c + suites + tail, |x|;
      && b[..g] == x && b[g..g + 4] == group && b[g + 4] == c[0] && b[g + 5] == c[1]
      && b[g + 6..g + 6 + |suites|] == suites && b[g + 6 + |suites|..] == tail
  {
    var b, g := x + group + c + suites + tail, |x|;
    assert b[g..g + 4] == group;
    assert b[g + 6..g + 6 + |suites|] == suites;
  }

  function Front(kind: Kind, head: seq<Byte>): (r: seq<Byte>) {
    head + Header(kind) + [1, 0]
  }

  lemma BodySplits(kind: Kind, group: seq<Byte>, n: Byte, suites: seq<Byte>, suffix: seq<Byte>, head: seq<Byte>, rest: seq<Byte>)
    ensures head + SecBody(kind, group, n, suites, suffix) + rest == Front(kind, head) + group + [n, 0] + suites + (suffix + rest)
  {
  }

  lemma FrontLaid(kind: Kind, head: seq<Byte>)
    requires |head| == 2
    ensures var x := Front(kind, head);
      |x| == GroupAt(kind) && x[0] == head[0] && x[1] == head[1] && x[|x| - 2] == 1 && x[|x| - 1] == 0
      && (kind.Wpa? ==> x[2..6] == Header(Wpa))
  {
  }

  lemma SecLayout(kind: Kind, group: seq<Byte>, n: Byte, suites: seq<Byte>, suffix: seq<Byte>, head: seq<Byte>, rest: seq<Byte>)
    requires SecShape(group, n, suites) && |head| == 2
    ensures var b := head + SecBody(kind, group, n, suites, suffix) + rest;
      && |b| == SuitesAt(kind) + |suites| + |suffix| + |rest|
      && b[0] == head[0] && b[1] == head[1] && Laid(kind, b, group, n, suites)
      && b[SuitesAt(kind) + |suites|..] == suffix + rest
  {
    BodySplits(kind, group, n, suites, suffix, head, rest);
    FrontLaid(kind, head);
    var x := Front(kind, head);
    Pieces(x, group, [n, 0], suites, suffix + rest);
    var b := x + group + [n, 0] + suites + (suffix + rest);
    assert b[0] == b[..|x|][0] && b[1] == b[..|x|][1];
    assert b[|x| - 2] == b[..|x|][|x| - 2] && b[|x| - 1] == b[..|x|][|x| - 1];
    assert kind.Wpa? ==> b[2..6] == b[..|x|][2..6];
  }

  /** An element with its suites in place is accepted, with the ciphers it lists, whatever follows them. */
  lemma LaidParses(kind: Kind, b: seq<Byte>, group: seq<Byte>, n: Byte, suites: seq<Byte>, group0: Option<Cipher>)
    requires Laid(kind, b, group, n, suites) && b[0] == Id(kind) && b[1] as int == (|b| - 2) % 256
    ensures ParsedSec(kind, b, |b|, group0, {}) == Parsed(true, CipherOf(kind, group), SuiteSet(kind, suites))
  {
  }

  lemma SecParses(kind: Kind, group: seq<Byte>, n: Byte, suites: seq<Byte>, suffix: seq<Byte>, group0: Option<Cipher>)
    requires SecShape(group, n, suites) && |SecBody(kind, group, n, suites, suffix)| < 256
    ensures var b := PrintIe(IeData(Id(kind), SecBody(kind, group, n, suites, suffix)));
      |b| >= 6 && ParsedSec(kind, b, |b|, group0, {}) == Parsed(true, CipherOf(kind, group), SuiteSet(kind, suites))
  {
    var body := SecBody(kind, group, n, suites, suffix);
    var head := [Id(kind), |body| as Byte];
    SecLayout(kind, group, n, suites, suffix, head, []);
    assert head + body + [] == PrintIe(IeData(Id(kind), body));
    LaidParses(kind, head + body + [], group, n, suites, group0);
  }
}
