/** restruct_sec_ie: the security element of an association request is cut down to the one selected cipher. */
module SecRewrite {
  import opened Wrappers
  import opened InformationElement
  import opened Ieee80211
  import opened SecurityIe
  import opened MacAddress

  const SEC_IE_SIZE: nat := 255

  datatype AuthMode = AuthOpen | AuthShared | AuthAutoSwitch | AuthWpa | AuthWpaPsk | AuthWpaNone | AuthWpa2 | AuthWpa2Psk

  datatype Encryption =
    | Encryption1Enabled | EncryptionDisabled | Encryption1KeyAbsent | EncryptionNotSupported
    | Encryption2Enabled | Encryption2KeyAbsent | Encryption3Enabled | Encryption3KeyAbsent

  datatype Privacy = NoPrivacy | PrivacyWep40 | PrivacyTkip | PrivacyAes | PrivacyWep104

  datatype PmkidEntry = PmkidEntry(used: bool, bssid: Mac, pmkid: seq<Byte>)

  /** None where authmode stays 0xff. */
  function KindOf(auth: AuthMode): (r: Option<Kind>) {
    match auth
    case AuthWpa | AuthWpaPsk => Some(Wpa)
    case AuthWpa2 | AuthWpa2Psk => Some(Rsn)
    case _ => None
  }

  /** uncst_oui[3]; `stale` is what the stack held, for the statuses that set nothing. */
  function SuiteType(enc: Encryption, stale: Byte): (r: Byte) {
    match enc
    case Encryption1Enabled | Encryption1KeyAbsent => 1
    case Encryption2Enabled | Encryption2KeyAbsent => 2
    case Encryption3Enabled | Encryption3KeyAbsent => 4
    case _ => stale
  }

  function SelectedSuite(kind: Kind, enc: Encryption, stale: Byte): (s: seq<Byte>)
    ensures |s| == 4
  {
    Oui(kind) + [SuiteType(enc, stale)]
  }

  /** dot118021XGrpPrivacy after the group suite type `t` has been seen. */
  function GroupPrivacy(kind: Kind, t: Byte, before: Privacy): (r: Privacy) {
    if t == 1 then PrivacyWep40
    else if t == 2 then PrivacyTkip
    else if t == 4 || (t == 3 && kind.Wpa?) then PrivacyAes
    else if t == 5 then PrivacyWep104
    else if t == 0 || kind.Rsn? then NoPrivacy
    else before
  }

  /** The version and the group OUI that the rewriting insists on. */
  predicate HeadOk(kind: Kind, sec: seq<Byte>)
    requires |sec| == SEC_IE_SIZE
  {
    var g := GroupAt(kind);
    && sec[g - 2] == 1 && sec[g - 1] == 0
    && sec[g] == Oui(kind)[0] && sec[g + 1] == Oui(kind)[1] && sec[g + 2] == Oui(kind)[2]
  }

  /** How far the bytes after the suites move down when the count at `c` becomes one: up by four for a count of zero. */
  function Removed(c: nat, sec: seq<Byte>): (r: int)
    requires |sec| == SEC_IE_SIZE && 2 <= c <= 12
  {
    (sec[c] as int - 1) * 4
  }

  /** How many bytes are moved: a length the source computes without sign. */
  function Moving(c: nat, sec: seq<Byte>): (r: int)
    requires |sec| == SEC_IE_SIZE && 2 <= c <= 12
  {
    sec[1] as int - (c + 4) - Removed(c, sec)
  }

  /** The copy that cuts the list stays inside sec_ie, both where it reads and where it writes. */
  predicate CutFits(c: nat, sec: seq<Byte>)
    requires |sec| == SEC_IE_SIZE && 2 <= c <= 12
  {
    0 <= Moving(c, sec) && c + 6 + Removed(c, sec) + Moving(c, sec) <= SEC_IE_SIZE && c + 6 + Moving(c, sec) <= SEC_IE_SIZE
  }

  /** With a suite to start from, that is so exactly when the list lies inside the element and the element inside sec_ie. */
  lemma CutFitsIff(c: nat, sec: seq<Byte>)
    requires |sec| == SEC_IE_SIZE && 2 <= c <= 12 && sec[c] >= 1
    ensures CutFits(c, sec) <==> c + 2 + 4 * sec[c] as nat <= sec[1] as nat + 2 <= SEC_IE_SIZE
  {
  }

  /** _memcpy byte by byte from the lowest address, on one buffer. */
  function Ascending(b: seq<Byte>, dst: nat, src: nat, n: nat): (r: seq<Byte>)
    requires dst + n <= |b| && src + n <= |b|
    ensures |r| == |b|
  {
    if n == 0 then b
    else
      var before := Ascending(b, dst, src, n - 1);
      before[dst + n - 1 := before[src + n - 1]]
  }

  /** Bytes `src..src + n` moved down to `dst`. */
  function MovedDown(b: seq<Byte>, dst: nat, src: nat, n: nat): (r: seq<Byte>)
    requires dst <= src && src + n <= |b|
    ensures |r| == |b|
  {
    b[..dst] + b[src..src + n] + b[dst + n..]
  }

  /** A count of one at `c` and the selected suite after it. */
  function Selected(c: nat, uncst: seq<Byte>, sec: seq<Byte>): (r: seq<Byte>)
    requires c + 6 <= |sec| && |uncst| == 4
    ensures |r| == |sec|
  {
    var one := sec[c := 1];
    one[..c + 2] + uncst + one[c + 6..]
  }

  /** The buffer once the list after the count at `c` has been cut to the one suite. */
  function CutDown(c: nat, uncst: seq<Byte>, sec: seq<Byte>): (r: seq<Byte>)
    requires |sec| == SEC_IE_SIZE && 2 <= c <= 12 && |uncst| == 4 && CutFits(c, sec)
    ensures |r| == SEC_IE_SIZE && r[1] <= 253
  {
    var cut := Ascending(Selected(c, uncst, sec), c + 6, c + 6 + Removed(c, sec), Moving(c, sec));
    cut[1 := (sec[1] as int - Removed(c, sec)) as Byte]
  }

  predicate Accepts(kind: Kind, uncst: seq<Byte>, sec: seq<Byte>)
    requires |sec| == SEC_IE_SIZE && |uncst| == 4
  {
    HeadOk(kind, sec) && (sec[CountAt(kind)] == 1 ==> sec[SuitesAt(kind)..SuitesAt(kind) + 4] == uncst)
  }

  function Rewritten(kind: Kind, uncst: seq<Byte>, sec: seq<Byte>): (r: seq<Byte>)
    requires |sec| == SEC_IE_SIZE && |uncst| == 4 && sec[1] <= 253
    requires HeadOk(kind, sec) && sec[CountAt(kind)] != 1 ==> CutFits(CountAt(kind), sec)
    ensures |r| == SEC_IE_SIZE && r[1] <= 253
  {
    if HeadOk(kind, sec) && sec[CountAt(kind)] != 1 then CutDown(CountAt(kind), uncst, sec) else sec
  }

  /** A byte is read before the copy can reach it. */
  lemma MovedStep(b: seq<Byte>, dst: nat, src: nat, i: nat)
    requires dst <= src && src + i < |b|
    ensures var now := MovedDown(b, dst, src, i);
      MovedDown(b, dst, src, i + 1) == now[dst + i := now[src + i]]
  {
  }

  /** Towards lower addresses that copy moves the bytes intact. */
  lemma {:induction false} AscendingMovesDown(b: seq<Byte>, dst: nat, src: nat, n: nat)
    requires dst <= src && src + n <= |b|
    ensures Ascending(b, dst, src, n) == MovedDown(b, dst, src, n)
  {
    if n > 0 {
      AscendingMovesDown(b, dst, src, n - 1);
      MovedStep(b, dst, src, n - 1);
    }
  }

  method CopyWithin(b: array<Byte>, dst: nat, src: nat, n: nat)
    requires dst + n <= b.Length && src + n <= b.Length
    modifies b
    ensures b[..] == Ascending(old(b[..]), dst, src, n)
  {
    var i := 0;
    while i < n
      invariant 0 <= i <= n && b[..] == Ascending(old(b[..]), dst, src, i)
    {
      b[dst + i] := b[src + i];
      i := i + 1;
    }
  }

  /** The two while(_TRUE) blocks over sec_ie. */
  method RewriteSec(kind: Kind, uncst: seq<Byte>, sec: array<Byte>, grp: Privacy)
    returns (outside: bool, match_: bool, grp': Privacy)
    requires sec.Length == SEC_IE_SIZE && |uncst| == 4 && uncst[..3] == Oui(kind) && sec[1] <= 253
    modifies sec
    ensures outside <==> HeadOk(kind, old(sec[..])) && old(sec[CountAt(kind)]) != 1 && !CutFits(CountAt(kind), old(sec[..]))
    ensures !outside ==> match_ == Accepts(kind, uncst, old(sec[..])) && sec[..] == Rewritten(kind, uncst, old(sec[..]))
    ensures grp' == if HeadOk(kind, old(sec[..])) then GroupPrivacy(kind, old(sec[GroupAt(kind) + 3]), grp) else grp
  {
    var g, c, s := GroupAt(kind), CountAt(kind), SuitesAt(kind);
    if sec[g - 2] != 1 || sec[g - 1] != 0 {
      return false, false, grp;
    }
    if sec[g] != Oui(kind)[0] || sec[g + 1] != Oui(kind)[1] || sec[g + 2] != Oui(kind)[2] {
      return false, false, grp;
    }
    grp' := GroupPrivacy(kind, sec[g + 3], grp);
    if sec[c] == 1 {
      return false, sec[s..s + 4] == uncst, grp';
    }
    outside := CutDownInPlace(c, uncst, sec);
    return outside, true, grp';
  }

  method Select(c: nat, uncst: seq<Byte>, sec: array<Byte>)
    requires c + 6 <= sec.Length && |uncst| == 4
    modifies sec
    ensures sec[..] == Selected(c, uncst, old(sec[..]))
  {
    sec[c] := 1;
    ghost var one := sec[..];
    assert one == old(sec[..])[c := 1];
    CopyIn(sec, c + 2, uncst);
  }

  method CutDownInPlace(c: nat, uncst: seq<Byte>, sec: array<Byte>) returns (outside: bool)
    requires sec.Length == SEC_IE_SIZE && 2 <= c <= 12 && |uncst| == 4
    modifies sec
    ensures outside <==> !CutFits(c, old(sec[..]))
    ensures !outside ==> sec[..] == CutDown(c, uncst, old(sec[..]))
  {
    ghost var orig := sec[..];
    var cnt, len := sec[c], sec[1];
    var remove := (cnt as int - 1) * 4;
    var n := len as int - (c + 4) - remove;
    Select(c, uncst, sec);
    if n < 0 || c + 6 + remove + n > SEC_IE_SIZE || c + 6 + n > SEC_IE_SIZE {
      return true;
    }
    assert CutFits(c, orig);
    CopyWithin(sec, c + 6, c + 6 + remove, n);
    assert sec[..] == Ascending(Selected(c, uncst, orig), c + 6, c + 6 + Removed(c, orig), Moving(c, orig));
    sec[1] := (len as int - remove) as Byte;
    return false;
  }

  /** Bytes from 12 on are the elements `ies`; four more bytes can be read past them. */
  ghost predicate Tiled(inIe: seq<Byte>, inLen: nat, ies: seq<Ie>) {
    12 <= inLen && inLen + 4 <= |inIe| && inIe[12..inLen] == Print(ies)
  }

  lemma SliceOfSlice(b: seq<Byte>, lo: nat, hi: nat, p: nat, n: nat)
    requires p <= n && lo + n <= hi <= |b|
    ensures b[lo..hi][p..n] == b[lo + p..lo + n]
  {
    var head := b[..lo + n];
    assert b[lo..hi][..n] == head[lo..];
    assert head[lo..][p..] == head[lo + p..];
  }

  lemma AtTile(inIe: seq<Byte>, inLen: nat, ies: seq<Ie>, k: nat)
    requires Tiled(inIe, inLen, ies) && k < |ies|
    ensures var p, n := 12 + Offset(ies, k), 12 + Offset(ies, k + 1);
      && p + 2 <= n == p + 2 + |ies[k].body| <= inLen
      && inIe[p] == ies[k].id && inIe[p + 1] as nat == |ies[k].body| && inIe[p..n] == PrintIe(ies[k])
  {
    OffsetStep(ies, k);
    var p, n := 12 + Offset(ies, k), 12 + Offset(ies, k + 1);
    SliceOfSlice(inIe, 12, inLen, Offset(ies, k), Offset(ies, k + 1));
    assert inIe[p] == inIe[p..n][0] && inIe[p + 1] == inIe[p..n][1];
  }

  /** The test of the search: a WPA element must also show the WPA OUI and type. */
  predicate MatchesAt(kind: Kind, inIe: seq<Byte>, p: nat) {
    p < |inIe| && inIe[p] == Id(kind) && (kind.Wpa? ==> p + 6 <= |inIe| && inIe[p + 2..p + 6] == Header(Wpa))
  }

  /** The search loop from `cnt`, with every read it makes: the byte after the id, and four more where it compares the OUI. */
  function Search(kind: Option<Kind>, inIe: seq<Byte>, inLen: nat, cnt: nat): (r: Stop)
    requires inLen <= |inIe|
    ensures r.At? ==> cnt <= r.at < inLen && r.at + 1 < |inIe| && kind.Some? && MatchesAt(kind.value, inIe, r.at)
    decreases if cnt < inLen then inLen - cnt else 0
  {
    if cnt >= inLen then Missing
    else if cnt + 1 >= |inIe| || (kind == Some(Wpa) && inIe[cnt] == Id(Wpa) && cnt + 6 > |inIe|) then Stray
    else if kind.Some? && MatchesAt(kind.value, inIe, cnt) then At(cnt)
    else Search(kind, inIe, inLen, cnt + 2 + inIe[cnt + 1] as nat)
  }

  /** The first element of the list, from `k`, that passes the test; the length of the list if none does. */
  function FirstSec(kind: Kind, inIe: seq<Byte>, ies: seq<Ie>, k: nat): (r: nat)
    requires k <= |ies|
    ensures k <= r <= |ies|
    ensures forall j :: k <= j < r ==> !MatchesAt(kind, inIe, 12 + Offset(ies, j))
    ensures r < |ies| ==> MatchesAt(kind, inIe, 12 + Offset(ies, r))
    decreases |ies| - k
  {
    if k == |ies| || MatchesAt(kind, inIe, 12 + Offset(ies, k)) then k else FirstSec(kind, inIe, ies, k + 1)
  }

  /** Over elements the search stops at the first that passes the test, and never strays. */
  lemma {:induction false} SearchTiled(kind: Option<Kind>, inIe: seq<Byte>, inLen: nat, ies: seq<Ie>, k: nat)
    requires Tiled(inIe, inLen, ies) && k <= |ies|
    ensures var f := if kind.Some? then FirstSec(kind.value, inIe, ies, k) else |ies|;
      Search(kind, inIe, inLen, 12 + Offset(ies, k)) == if f == |ies| then Missing else At(12 + Offset(ies, f))
    decreases |ies| - k
  {
    AtTheEnd(ies, k);
    if k < |ies| {
      AtTile(inIe, inLen, ies, k);
      SearchTiled(kind, inIe, inLen, ies, k + 1);
    }
  }

  /** What the search hands to sec_ie: nothing, an element, or a copy that leaves its source or sec_ie. */
  datatype Loading = LoadsOutside | LoadsNothing | Loads(e: Ie)

  function LoadingOf(kind: Option<Kind>, inIe: seq<Byte>, inLen: nat): (r: Loading)
    requires inLen <= |inIe|
    ensures r.Loads? ==> kind.Some? && |r.e.body| + 2 <= SEC_IE_SIZE
  {
    match Search(kind, inIe, inLen, 12)
    case Stray => LoadsOutside
    case Missing => LoadsNothing
    case At(at) =>
      var n := at + 2 + inIe[at + 1] as nat;
      if n > |inIe| || n - at > SEC_IE_SIZE then LoadsOutside else Loads(IeData(inIe[at], inIe[at + 2..n]))
  }

  lemma BodyTiled(inIe: seq<Byte>, inLen: nat, ies: seq<Ie>, k: nat)
    requires Tiled(inIe, inLen, ies) && k < |ies|
    ensures var p := 12 + Offset(ies, k);
      && p + 2 + |ies[k].body| <= |inIe| && inIe[p] == ies[k].id && inIe[p + 1] as nat == |ies[k].body|
      && inIe[p + 2..p + 2 + |ies[k].body|] == ies[k].body
  {
    AtTile(inIe, inLen, ies, k);
    var p := 12 + Offset(ies, k);
    assert inIe[p + 2..p + 2 + |ies[k].body|] == inIe[p..p + 2 + |ies[k].body|][2..] == PrintIe(ies[k])[2..];
  }

  /** Over elements it loads the first that passes the test, unless that is too long for sec_ie. */
  lemma LoadingTiled(kind: Option<Kind>, inIe: seq<Byte>, inLen: nat, ies: seq<Ie>)
    requires Tiled(inIe, inLen, ies)
    ensures var k := if kind.Some? then FirstSec(kind.value, inIe, ies, 0) else |ies|;
      LoadingOf(kind, inIe, inLen) ==
        if k == |ies| then LoadsNothing else if |ies[k].body| + 2 > SEC_IE_SIZE then LoadsOutside else Loads(ies[k])
  {
    OffsetEnds(ies);
    SearchTiled(kind, inIe, inLen, ies, 0);
    var k := if kind.Some? then FirstSec(kind.value, inIe, ies, 0) else |ies|;
    if k < |ies| {
      BodyTiled(inIe, inLen, ies, k);
    }
  }

  method FindSec(kind: Option<Kind>, inIe: seq<Byte>, inLen: nat) returns (r: Stop)
    requires inLen <= |inIe|
    ensures r == Search(kind, inIe, inLen, 12)
  {
    var cnt := 12;
    while cnt < inLen
      invariant Search(kind, inIe, inLen, cnt) == Search(kind, inIe, inLen, 12)
      decreases inLen - cnt
    {
      if cnt + 1 >= |inIe| || (kind == Some(Wpa) && inIe[cnt] == Id(Wpa) && cnt + 6 > |inIe|) {
        return Stray;
      }
      if kind.Some? && MatchesAt(kind.value, inIe, cnt) {
        return At(cnt);
      }
      cnt := cnt + inIe[cnt + 1] as nat + 2;
    }
    return Missing;
  }

  /** SecIsInPMKIDList, counted from `i`: the length of the list where it returns -1. */
  function PmkidEntryFor(list: seq<PmkidEntry>, bssid: Mac, i: nat): (r: nat)
    requires i <= |list|
    ensures i <= r <= |list|
    ensures forall j :: i <= j < r ==> !(list[j].used && list[j].bssid == bssid)
    ensures r < |list| ==> list[r].used && list[r].bssid == bssid
    decreases |list| - i
  {
    if i == |list| || (list[i].used && list[i].bssid == bssid) then i else PmkidEntryFor(list, bssid, i + 1)
  }

  function PmkidFor(list: seq<PmkidEntry>, bssid: Mac): (r: Option<seq<Byte>>) {
    var i := PmkidEntryFor(list, bssid, 0);
    if i == |list| then None else Some(list[i].pmkid)
  }

  /** "the Pre-Authentication bit should be zero": the last two bytes, whatever they are. */
  function LastTwoZeroed(s: seq<Byte>): (r: seq<Byte>)
    requires |s| >= 2
    ensures |r| == |s|
  {
    s[..|s| - 2] + [0, 0]
  }

  /** The elements put after the fixed fields. */
  function SecPart(kind: Option<Kind>, wps: Option<seq<Byte>>, sec: Option<seq<Byte>>): (r: seq<Byte>)
    requires sec.Some? ==> |sec.value| >= 2
  {
    if wps.Some? then wps.value
    else if kind.None? || sec.None? then []
    else if kind.value.Rsn? then LastTwoZeroed(sec.value)
    else sec.value
  }

  /** A PMKID count of one, the PMKID, and 18 more in the byte that is normally the length of the element. */
  function WithPmkid(part: seq<Byte>, pmkid: seq<Byte>): (r: seq<Byte>)
    requires |pmkid| == 16
    ensures |r| == |part| + 18
  {
    var all := part + [1, 0] + pmkid;
    all[1 := ((all[1] as nat + 18) % 256) as Byte]
  }

  function OutPart(kind: Option<Kind>, part: seq<Byte>, pmkid: Option<seq<Byte>>): (r: seq<Byte>)
    requires pmkid.Some? ==> |pmkid.value| == 16
  {
    if kind == Some(Rsn) && pmkid.Some? then WithPmkid(part, pmkid.value) else part
  }

  /** sec_ie after the element has been copied to its front. */
  function Loaded(e: Ie, stale: seq<Byte>): (r: seq<Byte>)
    requires |e.body| + 2 <= |stale|
    ensures |r| == |stale|
  {
    PrintIe(e) + stale[|e.body| + 2..]
  }

  /** What is in sec_ie once it has been rewritten, if it was accepted. */
  function SecBytes(kind: Kind, uncst: seq<Byte>, sec: seq<Byte>): (r: Option<seq<Byte>>)
    requires |sec| == SEC_IE_SIZE && |uncst| == 4 && sec[1] <= 253
    requires HeadOk(kind, sec) && sec[CountAt(kind)] != 1 ==> CutFits(CountAt(kind), sec)
    ensures r.Some? ==> |r.value| >= 2
  {
    var after := Rewritten(kind, uncst, sec);
    if Accepts(kind, uncst, sec) then Some(after[..after[1] as nat + 2]) else None
  }

  method Load(sec: array<Byte>, bytes: seq<Byte>, ghost e: Ie)
    requires bytes == PrintIe(e) && |bytes| <= sec.Length
    modifies sec
    ensures sec[..] == Loaded(e, old(sec[..]))
  {
    CopyIn(sec, 0, bytes);
  }

  /** The accepted and rewritten element, from the element `f` the search found and the scratch contents. */
  function Kept(kind: Option<Kind>, suiteType: Byte, f: Option<Ie>, sec: seq<Byte>): (r: Option<seq<Byte>>)
    requires RewritableIe(kind, f, sec)
    ensures r.Some? ==> |r.value| >= 2
  {
    if kind.None? || f.None? then None else SecBytes(kind.value, Oui(kind.value) + [suiteType], Loaded(f.value, sec))
  }

  /** Everything put after the fixed fields, from the element `f` the search found and the scratch contents. */
  function SecOutput(kind: Option<Kind>, suiteType: Byte, wps: Option<seq<Byte>>, f: Option<Ie>, sec: seq<Byte>,
                     pmkid: Option<seq<Byte>>): (r: seq<Byte>)
    requires |sec| == SEC_IE_SIZE && RewritableIe(kind, f, sec)
    requires pmkid.Some? ==> |pmkid.value| == 16
  {
    OutPart(kind, SecPart(kind, wps, Kept(kind, suiteType, f, sec)), pmkid)
  }

  function PrivacyAfter(kind: Option<Kind>, f: Option<Ie>, sec: seq<Byte>, before: Privacy): (r: Privacy)
    requires |sec| == SEC_IE_SIZE && RewritableIe(kind, f, sec)
  {
    if kind.None? || f.None? || !HeadOk(kind.value, Loaded(f.value, sec)) then before
    else GroupPrivacy(kind.value, Loaded(f.value, sec)[GroupAt(kind.value) + 3], before)
  }

  /** An element that fits sec_ie and, in mixed mode, whose list can be cut inside it. */
  predicate RewritableIe(kind: Option<Kind>, f: Option<Ie>, sec: seq<Byte>) {
    |sec| == SEC_IE_SIZE && (f.Some? && kind.Some? ==>
      && |f.value.body| + 2 <= SEC_IE_SIZE
      && var loaded := Loaded(f.value, sec);
         HeadOk(kind.value, loaded) && loaded[CountAt(kind.value)] != 1 ==> CutFits(CountAt(kind.value), loaded))
  }

  function Found(kind: Option<Kind>, inIe: seq<Byte>, inLen: nat): (r: Option<Ie>)
    requires inLen <= |inIe|
  {
    var l := LoadingOf(kind, inIe, inLen);
    if l.Loads? then Some(l.e) else None
  }

  /** Every access of restruct_sec_ie to in_ie and sec_ie is inside them. */
  predicate StaysInside(kind: Option<Kind>, inIe: seq<Byte>, inLen: nat, sec: seq<Byte>)
    requires inLen <= |inIe| && |sec| == SEC_IE_SIZE
  {
    var l := LoadingOf(kind, inIe, inLen);
    l.LoadsNothing? || (l.Loads? && RewritableIe(kind, Some(l.e), sec))
  }

  /** The search, and the copy of what it finds to the front of sec_ie */
  method LoadSec(kind: Option<Kind>, inIe: seq<Byte>, inLen: nat, sec: array<Byte>) returns (r: Loading)
    requires sec.Length == SEC_IE_SIZE && inLen <= |inIe|
    modifies sec
    ensures r == LoadingOf(kind, inIe, inLen)
    ensures sec[..] == if r.Loads? then Loaded(r.e, old(sec[..])) else old(sec[..])
  {
    var stop := FindSec(kind, inIe, inLen);
    match stop {
      case Stray => return LoadsOutside;
      case Missing => return LoadsNothing;
      case At(p) =>
        var n := p + 2 + inIe[p + 1] as nat;
        if n > |inIe| || n - p > SEC_IE_SIZE {
          return LoadsOutside;
        }
        var e: Ie := IeData(inIe[p], inIe[p + 2..n]);
        assert inIe[p..n] == PrintIe(e);
        Load(sec, inIe[p..n], e);
        return Loads(e);
    }
  }

  lemma TailOfTail(a: seq<Byte>, b: seq<Byte>, c: seq<Byte>, m: nat, n: nat)
    requires m <= n <= |a| == |b| == |c| && b[m..] == a[m..] && c[n..] == b[n..]
    ensures c[n..] == a[n..]
  {
    assert b[n..] == b[m..][n - m..] == a[m..][n - m..] == a[n..];
  }

  /** The front of sec_ie is the element that is kept, if one was accepted. */
  predicate KeptIn(sec: seq<Byte>, accepted: bool, kept: Option<seq<Byte>>) {
    if accepted then |sec| >= 2 && sec[1] as nat + 2 <= |sec| && kept == Some(sec[..sec[1] as nat + 2]) else kept == None
  }

  class SecurityPriv {
    var authType: AuthMode
    var encryptStatus: Encryption
    var wpsPhase: bool
    var wpsIe: seq<Byte>
    var grpPrivacy: Privacy
    const pmkids: seq<PmkidEntry>

    constructor (authType: AuthMode, encryptStatus: Encryption, pmkids: seq<PmkidEntry>)
      ensures this.authType == authType && this.encryptStatus == encryptStatus && this.pmkids == pmkids
      ensures !wpsPhase && wpsIe == [] && grpPrivacy == NoPrivacy
    {
      this.authType, this.encryptStatus, this.pmkids := authType, encryptStatus, pmkids;
      wpsPhase, wpsIe, grpPrivacy := false, [], NoPrivacy;
    }

    method IsInPmkidList(bssid: Mac) returns (i: int)
      requires |pmkids| > 0
      ensures i == var e := PmkidEntryFor(pmkids, bssid, 0); if e == |pmkids| then -1 else e
    {
      i := 0;
      while true
        invariant 0 <= i < |pmkids| && PmkidEntryFor(pmkids, bssid, 0) == PmkidEntryFor(pmkids, bssid, i)
        decreases |pmkids| - i
      {
        if pmkids[i].used && pmkids[i].bssid == bssid {
          break;
        }
        i := i + 1;
        if i >= |pmkids| {
          return -1;
        }
      }
    }

    /** What the search and the two rewriting blocks leave in sec_ie and in the group privacy. */
    method SelectSec(inIe: seq<Byte>, inLen: nat, sec: array<Byte>, stale: Byte) returns (outside: bool, match_: bool)
      requires sec.Length == SEC_IE_SIZE && inLen <= |inIe|
      modifies this`grpPrivacy, sec
      ensures outside <==> !StaysInside(KindOf(authType), inIe, inLen, old(sec[..]))
      ensures !outside && match_ ==> sec[1] <= 253
      ensures !outside ==> KeptIn(sec[..], match_,
        Kept(KindOf(authType), SuiteType(encryptStatus, stale), Found(KindOf(authType), inIe, inLen), old(sec[..])))
      ensures !outside ==>
        grpPrivacy == PrivacyAfter(KindOf(authType), Found(KindOf(authType), inIe, inLen), old(sec[..]), old(grpPrivacy))
    {
      var kind := KindOf(authType);
      var loading := LoadSec(kind, inIe, inLen, sec);
      match loading {
        case LoadsOutside => return true, false;
        case LoadsNothing => return false, false;
        case Loads(_) =>
          var uncst := SelectedSuite(kind.value, encryptStatus, stale);
          outside, match_, grpPrivacy := RewriteSec(kind.value, uncst, sec, grpPrivacy);
      }
    }

    /** The fixed fields and the security part. */
    method WriteSec(inIe: seq<Byte>, outIe: array<Byte>, kind: Option<Kind>, match_: bool, sec: seq<Byte>,
                    ghost kept: Option<seq<Byte>>) returns (ielength: nat)
      requires |inIe| >= 12 && outIe.Length >= 12 + 257 && outIe.Length >= 12 + |wpsIe|
      requires KeptIn(sec, match_, kept) && (kept.Some? ==> |kept.value| >= 2)
      modifies this`wpsPhase, outIe
      ensures !wpsPhase && ielength <= outIe.Length && outIe[ielength..] == old(outIe[ielength..])
      ensures ielength <= 12 + 257 || ielength == 12 + |wpsIe|
      ensures var wps := if old(wpsPhase) then Some(wpsIe) else None;
        outIe[..ielength] == inIe[..12] + SecPart(kind, wps, kept)
    {
      CopyIn(outIe, 0, inIe[..12]);
      ghost var fixed := outIe[..];
      assert fixed[..12] == inIe[..12];
      ielength := 12;
      if wpsPhase {
        CopyIn(outIe, ielength, wpsIe);
        ielength := ielength + |wpsIe|;
        wpsPhase := false;
      } else if kind.Some? && match_ {
        CopyIn(outIe, ielength, sec[..sec[1] as nat + 2]);
        ielength := ielength + sec[1] as nat + 2;
        ghost var copied := outIe[..];
        assert copied[..ielength] == inIe[..12] + sec[..sec[1] as nat + 2];
        if kind.value.Rsn? {
          outIe[ielength - 1] := 0;
          outIe[ielength - 2] := 0;
          assert outIe[..ielength] == copied[..ielength - 2] + [0, 0];
        }
      }
    }

    method AppendPmkid(outIe: array<Byte>, len: nat, bssid: Mac, kind: Option<Kind>, ghost fixed: seq<Byte>, ghost part: seq<Byte>)
      returns (ielength: nat)
      requires |pmkids| > 0 && forall e :: e in pmkids ==> |e.pmkid| == 16
      requires len + 18 <= outIe.Length && |fixed| == 12 && outIe[..len] == fixed + part
      modifies outIe
      ensures len <= ielength <= outIe.Length && outIe[..ielength] == fixed + OutPart(kind, part, PmkidFor(pmkids, bssid))
      ensures outIe[ielength..] == old(outIe[ielength..])
    {
      ielength := len;
      var iEntry := IsInPmkidList(bssid);
      if iEntry < 0 {
        return;
      }
      if kind == Some(Rsn) {
        var pmkid := pmkids[iEntry].pmkid;
        outIe[ielength], outIe[ielength + 1] := 1, 0;
        CopyIn(outIe, ielength + 2, pmkid);
        ielength := ielength + 18;
        assert outIe[..ielength] == fixed + (part + [1, 0] + pmkid);
        assert outIe[13] == outIe[..ielength][13] == (part + [1, 0] + pmkid)[1];
        outIe[13] := ((outIe[13] as nat + 18) % 256) as Byte;
      }
    }

    method WriteOut(inIe: seq<Byte>, outIe: array<Byte>, match_: bool, sec: seq<Byte>, bssid: Mac, ghost kept: Option<seq<Byte>>)
      returns (ielength: nat)
      requires |inIe| >= 12 && |pmkids| > 0 && forall e :: e in pmkids ==> |e.pmkid| == 16
      requires outIe.Length >= 12 + 257 + 18 && outIe.Length >= 12 + |wpsIe| + 18
      requires KeptIn(sec, match_, kept) && (kept.Some? ==> |kept.value| >= 2)
      modifies this`wpsPhase, outIe
      ensures !wpsPhase && ielength <= outIe.Length && outIe[ielength..] == old(outIe[ielength..])
      ensures var wps := if old(wpsPhase) then Some(wpsIe) else None;
        outIe[..ielength] == inIe[..12] + OutPart(KindOf(authType), SecPart(KindOf(authType), wps, kept), PmkidFor(pmkids, bssid))
    {
      ghost var wps := if wpsPhase then Some(wpsIe) else None;
      ghost var before := outIe[..];
      var len := WriteSec(inIe, outIe, KindOf(authType), match_, sec, kept);
      ghost var written := outIe[..];
      ielength := AppendPmkid(outIe, len, bssid, KindOf(authType), inIe[..12], SecPart(KindOf(authType), wps, kept));
      TailOfTail(before, written, outIe[..], len, ielength);
    }

    /** restruct_sec_ie; `sec` is its scratch buffer with whatever the stack held. It leaves its buffers, or it does all this. */
    method RestructSecIe(inIe: seq<Byte>, inLen: nat, outIe: array<Byte>, sec: array<Byte>, stale: Byte, bssid: Mac)
      returns (outside: bool, ielength: nat)
      requires sec.Length == SEC_IE_SIZE && sec != outIe && inLen <= |inIe| && 12 <= |inIe|
      requires |pmkids| > 0 && forall e :: e in pmkids ==> |e.pmkid| == 16
      requires outIe.Length >= 12 + 257 + 18 && outIe.Length >= 12 + |wpsIe| + 18
      modifies this`grpPrivacy, this`wpsPhase, sec, outIe
      ensures outside <==> !StaysInside(KindOf(authType), inIe, inLen, old(sec[..]))
      ensures !outside ==> !wpsPhase && ielength <= outIe.Length && outIe[ielength..] == old(outIe[ielength..])
      ensures !outside ==> outIe[..ielength] == inIe[..12] + SecOutput(
        KindOf(authType), SuiteType(encryptStatus, stale), if old(wpsPhase) then Some(wpsIe) else None,
        Found(KindOf(authType), inIe, inLen), old(sec[..]), PmkidFor(pmkids, bssid))
      ensures !outside ==>
        grpPrivacy == PrivacyAfter(KindOf(authType), Found(KindOf(authType), inIe, inLen), old(sec[..]), old(grpPrivacy))
    {
      ielength := 0;
      var match_: bool;
      outside, match_ := SelectSec(inIe, inLen, sec, stale);
      if outside {
        return;
      }
      ghost var kept := if match_ then Some(sec[..sec[1] as nat + 2]) else None;
      ielength := WriteOut(inIe, outIe, match_, sec[..], bssid, kept);
    }
  }
}
