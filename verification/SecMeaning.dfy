/** Rewriting keeps the meaning of a security element: what the parsers make of it before and after. */
module SecMeaning {
  import opened Wrappers
  import opened InformationElement
  import opened SecurityIe
  import opened SecRewrite

  /** A well-formed element with the group OUI that the rewriting insists on, small enough for sec_ie. */
  ghost predicate Proper(kind: Kind, group: seq<Byte>, n: Byte, suites: seq<Byte>, suffix: seq<Byte>) {
    && SecShape(group, n, suites)
    && group[0] == Oui(kind)[0] && group[1] == Oui(kind)[1] && group[2] == Oui(kind)[2]
    && |SecBody(kind, group, n, suites, suffix)| + 2 <= SEC_IE_SIZE
  }

  function SecElement(kind: Kind, group: seq<Byte>, n: Byte, suites: seq<Byte>, suffix: seq<Byte>): (r: Ie)
    requires |SecBody(kind, group, n, suites, suffix)| < 256
  {
    IeData(Id(kind), SecBody(kind, group, n, suites, suffix))
  }

  lemma BodySize(kind: Kind, group: seq<Byte>, n: Byte, suites: seq<Byte>, suffix: seq<Byte>)
    requires |group| == 4
    ensures |SecBody(kind, group, n, suites, suffix)| + 2 == SuitesAt(kind) + |suites| + |suffix|
  {
  }

  lemma SelectedIs(a: seq<Byte>, n: Byte, suites: seq<Byte>, t: seq<Byte>, uncst: seq<Byte>)
    requires |suites| >= 4 && |uncst| == 4
    ensures Selected(|a|, uncst, a + [n, 0] + suites + t) == (a + [1, 0] + uncst) + suites[4..] + t
  {
    var sec := a + [n, 0] + suites + t;
    assert sec[|a| := 1] == a + [1, 0] + suites + t;
    assert (a + [1, 0] + suites + t)[..|a| + 2] == a + [1, 0];
    assert (a + [1, 0] + suites + t)[|a| + 6..] == suites[4..] + t;
  }

  lemma MovedIs(p: seq<Byte>, gap: seq<Byte>, suffix: seq<Byte>, rest: seq<Byte>)
    ensures MovedDown(p + gap + (suffix + rest), |p|, |p| + |gap|, |suffix|)[..|p| + |suffix|] == p + suffix
  {
    var b := p + gap + (suffix + rest);
    assert b[..|p|] == p;
    assert b[|p| + |gap|..|p| + |gap| + |suffix|] == suffix;
  }

  /** The front of sec_ie before its length byte is corrected. */
  lemma CutIs(a: seq<Byte>, n: Byte, suites: seq<Byte>, suffix: seq<Byte>, rest: seq<Byte>, uncst: seq<Byte>, sec: seq<Byte>)
    requires n >= 1 && |suites| == 4 * n as nat && |uncst| == 4
    requires sec == a + [n, 0] + suites + (suffix + rest)
    ensures MovedDown(Selected(|a|, uncst, sec), |a| + 6, |a| + 6 + 4 * (n as nat - 1), |suffix|)[..|a| + 6 + |suffix|]
      == a + [1, 0] + uncst + suffix
  {
    SelectedIs(a, n, suites, suffix + rest, uncst);
    MovedIs(a + [1, 0] + uncst, suites[4..], suffix, rest);
  }

  lemma SecSplits(kind: Kind, group: seq<Byte>, n: Byte, suites: seq<Byte>, suffix: seq<Byte>, head: seq<Byte>, rest: seq<Byte>)
    requires |head| == 2 && |group| == 4
    ensures var a := Front(kind, head) + group;
      |a| == CountAt(kind) && a[0] == head[0] && a[1] == head[1]
      && head + SecBody(kind, group, n, suites, suffix) + rest == a + [n, 0] + suites + (suffix + rest)
  {
    BodySplits(kind, group, n, suites, suffix, head, rest);
    FrontLaid(kind, head);
  }

  /** The buffer the rewriting starts from: where the parts of the element are in it. */
  lemma LoadedLaid(kind: Kind, group: seq<Byte>, n: Byte, suites: seq<Byte>, suffix: seq<Byte>, stale: seq<Byte>)
    requires Proper(kind, group, n, suites, suffix) && |stale| == SEC_IE_SIZE
    ensures var e := SecElement(kind, group, n, suites, suffix);
      var sec := Loaded(e, stale);
      && sec[1] as nat == |e.body| && Laid(kind, sec, group, n, suites) && HeadOk(kind, sec) && CutFits(CountAt(kind), sec)
  {
    var body := SecBody(kind, group, n, suites, suffix);
    SecLayout(kind, group, n, suites, suffix, [Id(kind), |body| as Byte], stale[|body| + 2..]);
    BodySize(kind, group, n, suites, suffix);
    var sec := Loaded(IeData(Id(kind), body), stale);
    var g := GroupAt(kind);
    var found := sec[g..g + 4];
    assert found[0] == sec[g] && found[1] == sec[g + 1] && found[2] == sec[g + 2];
  }

  /** The element that remains of an accepted one. */
  function Remaining(kind: Kind, group: seq<Byte>, uncst: seq<Byte>, suffix: seq<Byte>): (r: Ie)
    requires |SecBody(kind, group, 1, uncst, suffix)| < 256
  {
    SecElement(kind, group, 1, uncst, suffix)
  }

  lemma LengthSet(kind: Kind, group: seq<Byte>, uncst: seq<Byte>, suffix: seq<Byte>, head: seq<Byte>, len: Byte)
    requires |head| == 2 && |group| == 4
    ensures var a := Front(kind, head) + group;
      (a + [1, 0] + uncst + suffix)[1 := len] == [head[0], len] + SecBody(kind, group, 1, uncst, suffix)
  {
    SecSplits(kind, group, 1, uncst, suffix, [head[0], len], []);
    SecSplits(kind, group, 1, uncst, suffix, head, []);
    var old_, new_ := head + SecBody(kind, group, 1, uncst, suffix), [head[0], len] + SecBody(kind, group, 1, uncst, suffix);
    assert old_[1 := len] == new_;
    assert old_ + [] == old_;
    assert suffix + [] == suffix;
  }

  lemma CutDownMoves(c: nat, uncst: seq<Byte>, sec: seq<Byte>)
    requires |sec| == SEC_IE_SIZE && 2 <= c <= 12 && |uncst| == 4 && sec[c] >= 1 && CutFits(c, sec)
    ensures var remove := 4 * (sec[c] as nat - 1);
      CutDown(c, uncst, sec) == MovedDown(Selected(c, uncst, sec), c + 6, c + 6 + remove,
        sec[1] as nat - (c + 4) - remove)[1 := (sec[1] as nat - remove) as Byte]
  {
    AscendingMovesDown(Selected(c, uncst, sec), c + 6, c + 6 + Removed(c, sec), Moving(c, sec));
  }

  lemma CutDownIs(a: seq<Byte>, n: Byte, suites: seq<Byte>, suffix: seq<Byte>, rest: seq<Byte>, uncst: seq<Byte>, sec: seq<Byte>)
    requires n >= 1 && |suites| == 4 * n as nat && |uncst| == 4 && 2 <= |a| <= 12 && |sec| == SEC_IE_SIZE
    requires sec == a + [n, 0] + suites + (suffix + rest) && a[1] as nat == |a| + |suites| + |suffix|
    ensures CutFits(|a|, sec)
    ensures var cut := CutDown(|a|, uncst, sec);
      && cut[1] as nat == a[1] as nat - 4 * (n as nat - 1)
      && cut[..cut[1] as nat + 2] == (a + [1, 0] + uncst + suffix)[1 := cut[1]]
  {
    var len := a[1] as nat - 4 * (n as nat - 1);
    assert sec[|a|] == n && sec[1] == a[1];
    CutDownMoves(|a|, uncst, sec);
    CutIs(a, n, suites, suffix, rest, uncst, sec);
    FrontOfUpdate(MovedDown(Selected(|a|, uncst, sec), |a| + 6, |a| + 6 + 4 * (n as nat - 1), |suffix|), len);
  }

  /**
   The element kept of a well-formed one: it is accepted unless its only suite is not the selected one,
   and what is kept is the same element with the selected suite in place of the list.
   */
  lemma CutsToSelected(kind: Kind, group: seq<Byte>, n: Byte, suites: seq<Byte>, suffix: seq<Byte>, stale: seq<Byte>, uncst: seq<Byte>)
    requires Proper(kind, group, n, suites, suffix) && |stale| == SEC_IE_SIZE && |uncst| == 4 && n != 1
    ensures |SecBody(kind, group, 1, uncst, suffix)| == |SecBody(kind, group, n, suites, suffix)| - 4 * (n as nat - 1)
    ensures var sec := Loaded(SecElement(kind, group, n, suites, suffix), stale);
      && CutFits(CountAt(kind), sec)
      && var cut := CutDown(CountAt(kind), uncst, sec);
         cut[..cut[1] as nat + 2] == PrintIe(Remaining(kind, group, uncst, suffix))
  {
    LoadedLaid(kind, group, n, suites, suffix, stale);
    BodySize(kind, group, n, suites, suffix);
    BodySize(kind, group, 1, uncst, suffix);
    var body := SecBody(kind, group, n, suites, suffix);
    var head, rest := [Id(kind), |body| as Byte], stale[|body| + 2..];
    SecSplits(kind, group, n, suites, suffix, head, rest);
    var a := Front(kind, head) + group;
    var sec := Loaded(SecElement(kind, group, n, suites, suffix), stale);
    CutDownIs(a, n, suites, suffix, rest, uncst, sec);
    LengthSet(kind, group, uncst, suffix, head, (|body| - 4 * (n as nat - 1)) as Byte);
  }

  lemma FrontOfUpdate(b: seq<Byte>, len: nat)
    requires len < 256 && len + 2 <= |b|
    ensures b[1 := len as Byte][..len + 2] == b[..len + 2][1 := len as Byte]
  {
  }

  /** A well-formed element with the parts that decide what becomes of it. */
  datatype Case = Case(group: seq<Byte>, n: Byte, suites: seq<Byte>, suffix: seq<Byte>, stale: seq<Byte>, ty: Byte, pmkid: Option<seq<Byte>>)

  /** The element is accepted: its only suite, if it has one only, is the selected one. */
  ghost predicate Accepted(kind: Kind, c: Case) {
    && Proper(kind, c.group, c.n, c.suites, c.suffix) && |c.stale| == SEC_IE_SIZE
    && (c.n == 1 ==> c.suites == Suite(kind, c.ty)) && (c.pmkid.Some? ==> |c.pmkid.value| == 16)
  }

  ghost function Element(kind: Kind, c: Case): (r: Ie)
    requires Accepted(kind, c)
  {
    SecElement(kind, c.group, c.n, c.suites, c.suffix)
  }

  /** What restruct_sec_ie puts after the fixed fields for it. */
  ghost function Out(kind: Kind, c: Case): (r: seq<Byte>)
    requires Accepted(kind, c)
  {
    KeptIs(kind, c.group, c.n, c.suites, c.suffix, c.stale, c.ty);
    SecOutput(Some(kind), c.ty, None, Some(Element(kind, c)), c.stale, c.pmkid)
  }

  function Suite(kind: Kind, ty: Byte): (s: seq<Byte>)
    ensures |s| == 4
  {
    Oui(kind) + [ty]
  }

  lemma SelectedFits(kind: Kind, group: seq<Byte>, n: Byte, suites: seq<Byte>, suffix: seq<Byte>, ty: Byte)
    requires Proper(kind, group, n, suites, suffix)
    ensures |SecBody(kind, group, 1, Suite(kind, ty), suffix)| == |SecBody(kind, group, n, suites, suffix)| - 4 * (n as nat - 1)
    ensures |SecBody(kind, group, 1, Suite(kind, ty), suffix)| < 254
  {
    BodySize(kind, group, n, suites, suffix);
    BodySize(kind, group, 1, Suite(kind, ty), suffix);
  }

  /**
   A well-formed element is accepted unless its only suite is not the selected one, and what is kept of it
   is the same element, shorter by four bytes a removed suite, with the selected suite in place of the list.
   */
  lemma KeptIs(kind: Kind, group: seq<Byte>, n: Byte, suites: seq<Byte>, suffix: seq<Byte>, stale: seq<Byte>, ty: Byte)
    requires Proper(kind, group, n, suites, suffix) && |stale| == SEC_IE_SIZE
    ensures |SecBody(kind, group, 1, Suite(kind, ty), suffix)| == |SecBody(kind, group, n, suites, suffix)| - 4 * (n as nat - 1)
    ensures var f := Some(SecElement(kind, group, n, suites, suffix));
      && RewritableIe(Some(kind), f, stale)
      && Kept(Some(kind), ty, f, stale) == if n == 1 && suites != Suite(kind, ty) then None
         else Some(PrintIe(Remaining(kind, group, Suite(kind, ty), suffix)))
  {
    LoadedLaid(kind, group, n, suites, suffix, stale);
    SelectedFits(kind, group, n, suites, suffix, ty);
    var sec := Loaded(SecElement(kind, group, n, suites, suffix), stale);
    if n != 1 {
      CutsToSelected(kind, group, n, suites, suffix, stale, Suite(kind, ty));
    } else {
      assert sec[..sec[1] as nat + 2] == PrintIe(SecElement(kind, group, n, suites, suffix));
    }
  }

  lemma OneSuite(kind: Kind, ty: Byte)
    ensures SuiteSet(kind, Suite(kind, ty)) == Singleton(CipherOf(kind, Suite(kind, ty)))
  {
    var s := Suite(kind, ty);
    assert s[..4] == s && s[4..] == [];
    assert SuiteSet(kind, s[4..]) == {};
  }

  /**
   An accepted WPA element goes out as one element that parse_wpa_ie accepts, shorter by four bytes a
   removed suite, with the group cipher it had and exactly the selected cipher.
   */
  lemma WpaKeepsMeaning(c: Case, group0: Option<Cipher>)
    requires Accepted(Wpa, c)
    ensures |SecBody(Wpa, c.group, 1, Suite(Wpa, c.ty), c.suffix)| < 256
    ensures var e, out := Element(Wpa, c), Out(Wpa, c);
      && out == PrintIe(Remaining(Wpa, c.group, Suite(Wpa, c.ty), c.suffix))
      && |out| == |PrintIe(e)| - 4 * (c.n as nat - 1) && |out| >= 6
      && ParsedSec(Wpa, PrintIe(e), |PrintIe(e)|, group0, {}).group == CipherOf(Wpa, c.group)
      && ParsedSec(Wpa, out, |out|, group0, {}) == Parsed(true, CipherOf(Wpa, c.group), Singleton(CipherOf(Wpa, Suite(Wpa, c.ty))))
  {
    KeptIs(Wpa, c.group, c.n, c.suites, c.suffix, c.stale, c.ty);
    SelectedFits(Wpa, c.group, c.n, c.suites, c.suffix, c.ty);
    SecParses(Wpa, c.group, c.n, c.suites, c.suffix, group0);
    SecParses(Wpa, c.group, 1, Suite(Wpa, c.ty), c.suffix, group0);
    OneSuite(Wpa, c.ty);
  }

  /** What zeroing the last two bytes does to the suite: nothing, if two bytes follow it. */
  function ZeroedSuite(u: seq<Byte>, suffix: seq<Byte>): (r: seq<Byte>)
    requires |u| == 4
    ensures |r| == 4
  {
    if |suffix| >= 2 then u else if |suffix| == 1 then u[..3] + [0] else u[..2] + [0, 0]
  }

  function ZeroedSuffix(suffix: seq<Byte>): (r: seq<Byte>)
    ensures |r| == |suffix|
  {
    if |suffix| >= 2 then LastTwoZeroed(suffix) else if |suffix| == 1 then [0] else []
  }

  lemma ZeroTail(w: seq<Byte>, u: seq<Byte>, suffix: seq<Byte>)
    requires |u| == 4
    ensures LastTwoZeroed(w + u + suffix) == w + ZeroedSuite(u, suffix) + ZeroedSuffix(suffix)
  {
  }

  /** The bytes of the element around its one suite. */
  lemma RemainingSplits(kind: Kind, group: seq<Byte>, u: seq<Byte>, suffix: seq<Byte>)
    requires |SecBody(kind, group, 1, u, suffix)| < 256 && |group| == 4
    ensures PrintIe(Remaining(kind, group, u, suffix))
      == (Front(kind, [Id(kind), |SecBody(kind, group, 1, u, suffix)| as Byte]) + group + [1, 0]) + u + suffix
  {
    var head := [Id(kind), |SecBody(kind, group, 1, u, suffix)| as Byte];
    SecSplits(kind, group, 1, u, suffix, head, []);
    assert suffix + [] == suffix;
    assert head + SecBody(kind, group, 1, u, suffix) + [] == PrintIe(Remaining(kind, group, u, suffix));
  }

  lemma RemainingZeroed(group: seq<Byte>, u: seq<Byte>, suffix: seq<Byte>)
    requires |SecBody(Rsn, group, 1, u, suffix)| < 256 && |group| == 4 && |u| == 4
    ensures |SecBody(Rsn, group, 1, ZeroedSuite(u, suffix), ZeroedSuffix(suffix))| == |SecBody(Rsn, group, 1, u, suffix)|
    ensures LastTwoZeroed(PrintIe(Remaining(Rsn, group, u, suffix)))
      == PrintIe(Remaining(Rsn, group, ZeroedSuite(u, suffix), ZeroedSuffix(suffix)))
  {
    BodySize(Rsn, group, 1, u, suffix);
    BodySize(Rsn, group, 1, ZeroedSuite(u, suffix), ZeroedSuffix(suffix));
    RemainingSplits(Rsn, group, u, suffix);
    RemainingSplits(Rsn, group, ZeroedSuite(u, suffix), ZeroedSuffix(suffix));
    ZeroTail(Front(Rsn, [Id(Rsn), |SecBody(Rsn, group, 1, u, suffix)| as Byte]) + group + [1, 0], u, suffix);
  }

  /** The bytes that follow the suite in the end. */
  function FinalSuffix(suffix: seq<Byte>, pmkid: Option<seq<Byte>>): (r: seq<Byte>) {
    if pmkid.Some? then ZeroedSuffix(suffix) + [1, 0] + pmkid.value else ZeroedSuffix(suffix)
  }

  lemma PmkidAppended(e: Ie, pmkid: seq<Byte>)
    requires |pmkid| == 16
    ensures WithPmkid(PrintIe(e), pmkid) == [e.id, ((|e.body| + 18) % 256) as Byte] + (e.body + [1, 0] + pmkid)
  {
  }

  lemma SuffixGrows(kind: Kind, group: seq<Byte>, u: seq<Byte>, suffix: seq<Byte>, more: seq<Byte>)
    ensures SecBody(kind, group, 1, u, suffix) + more == SecBody(kind, group, 1, u, suffix + more)
  {
  }

  lemma OutLaid(group: seq<Byte>, u: seq<Byte>, suffix: seq<Byte>, len: Byte)
    requires |group| == 4 && |u| == 4
    ensures var b := [Id(Rsn), len] + SecBody(Rsn, group, 1, u, suffix);
      b[0] == Id(Rsn) && b[1] == len && Laid(Rsn, b, group, 1, u) && b[SuitesAt(Rsn) + 4..] == suffix
  {
    SecLayout(Rsn, group, 1, u, suffix, [Id(Rsn), len], []);
    var b := [Id(Rsn), len] + SecBody(Rsn, group, 1, u, suffix);
    assert b + [] == b && suffix + [] == suffix;
  }

  /** The PMKID only lengthens what follows the suite; the length byte wraps. */
  lemma PmkidPart(group: seq<Byte>, u: seq<Byte>, t: seq<Byte>, pmkid: Option<seq<Byte>>)
    requires |group| == 4 && |u| == 4 && |SecBody(Rsn, group, 1, u, t)| < 256 && (pmkid.Some? ==> |pmkid.value| == 16)
    ensures var out := OutPart(Some(Rsn), PrintIe(Remaining(Rsn, group, u, t)), pmkid);
      && |out| == 2 + |SecBody(Rsn, group, 1, u, t)| + (if pmkid.Some? then 18 else 0)
      && out == [Id(Rsn), ((|out| - 2) % 256) as Byte]
                  + SecBody(Rsn, group, 1, u, if pmkid.Some? then t + [1, 0] + pmkid.value else t)
  {
    if pmkid.Some? {
      PmkidAppended(Remaining(Rsn, group, u, t), pmkid.value);
      SuffixGrows(Rsn, group, u, t, [1, 0]);
      SuffixGrows(Rsn, group, u, t + [1, 0], pmkid.value);
    }
  }

  /** The part before a PMKID is appended. */
  lemma RsnPart(c: Case)
    requires Accepted(Rsn, c)
    ensures var e, body := Element(Rsn, c), SecBody(Rsn, c.group, 1, ZeroedSuite(Suite(Rsn, c.ty), c.suffix), ZeroedSuffix(c.suffix));
      && |body| == |e.body| - 4 * (c.n as nat - 1) < 256
      && RewritableIe(Some(Rsn), Some(e), c.stale)
      && SecPart(Some(Rsn), None, Kept(Some(Rsn), c.ty, Some(e), c.stale)) == PrintIe(IeData(Id(Rsn), body))
  {
    KeptIs(Rsn, c.group, c.n, c.suites, c.suffix, c.stale, c.ty);
    SelectedFits(Rsn, c.group, c.n, c.suites, c.suffix, c.ty);
    RemainingZeroed(c.group, Suite(Rsn, c.ty), c.suffix);
  }

  /** What an accepted RSN element becomes. */
  lemma RsnOutput(c: Case)
    requires Accepted(Rsn, c)
    ensures var out := Out(Rsn, c);
      && |out| == |PrintIe(Element(Rsn, c))| - 4 * (c.n as nat - 1) + (if c.pmkid.Some? then 18 else 0)
      && RsnShaped(out, c.group, ZeroedSuite(Suite(Rsn, c.ty), c.suffix), FinalSuffix(c.suffix, c.pmkid))
  {
    RsnPart(c);
    PmkidPart(c.group, ZeroedSuite(Suite(Rsn, c.ty), c.suffix), ZeroedSuffix(c.suffix), c.pmkid);
  }

  /** An RSN element with one suite but for its length byte, which holds the length modulo 256. */
  ghost predicate RsnShaped(out: seq<Byte>, group: seq<Byte>, suite: seq<Byte>, suffix: seq<Byte>) {
    |out| >= 2 && out == [Id(Rsn), ((|out| - 2) % 256) as Byte] + SecBody(Rsn, group, 1, suite, suffix)
  }

  lemma ShapedParses(out: seq<Byte>, group: seq<Byte>, suite: seq<Byte>, suffix: seq<Byte>, group0: Option<Cipher>)
    requires RsnShaped(out, group, suite, suffix) && |group| == 4 && |suite| == 4
    ensures |out| >= 6 && ParsedSec(Rsn, out, |out|, group0, {}) == Parsed(true, CipherOf(Rsn, group), Singleton(CipherOf(Rsn, suite)))
    ensures OneElement(out) <==> |out| < 258
    ensures |out| >= SuitesAt(Rsn) + 4 && out[SuitesAt(Rsn) + 4..] == suffix
  {
    OutLaid(group, suite, suffix, ((|out| - 2) % 256) as Byte);
    LaidParses(Rsn, out, group, 1, suite, group0);
    OneSuiteSet(suite);
  }

  /** Bytes that are one element and nothing else. */
  predicate OneElement(b: seq<Byte>) {
    |b| >= 2 && HeadSize(b) == |b|
  }

  lemma ZeroedSuiteParses(ty: Byte, suffix: seq<Byte>)
    ensures var z := CipherOf(Rsn, ZeroedSuite(Suite(Rsn, ty), suffix));
      && (|suffix| >= 2 ==> z == CipherOf(Rsn, Suite(Rsn, ty)))
      && (|suffix| < 2 ==> z == if |suffix| == 1 then Some(NoCipher) else None)
  {
  }

  lemma OneSuiteSet(s: seq<Byte>)
    requires |s| == 4
    ensures SuiteSet(Rsn, s) == Singleton(CipherOf(Rsn, s))
  {
    assert s[..4] == s && s[4..] == [];
    assert SuiteSet(Rsn, s[4..]) == {};
  }

  /**
   An accepted RSN element goes out, with or without a PMKID, as bytes that parse_wpa2_ie accepts with the
   group cipher it had. They list exactly the selected cipher if and only if two bytes follow the
   suite list, since the last two bytes are zeroed blindly; and they are one element if and only
   if the 18 bytes of a PMKID still fit the length byte.
   */
  lemma RsnKeepsMeaning(c: Case, group0: Option<Cipher>)
    requires Accepted(Rsn, c) && c.ty in {1, 2, 4}
    ensures var e, out := Element(Rsn, c), Out(Rsn, c);
      && |out| == |PrintIe(e)| - 4 * (c.n as nat - 1) + (if c.pmkid.Some? then 18 else 0) && |out| >= 6
      && (OneElement(out) <==> |out| < 258)
      && var p := ParsedSec(Rsn, out, |out|, group0, {});
         && p.ok && p.group == CipherOf(Rsn, c.group)
         && (p.pairwise == Singleton(CipherOf(Rsn, Suite(Rsn, c.ty))) <==> |c.suffix| >= 2)
  {
    RsnOutput(c);
    ShapedParses(Out(Rsn, c), c.group, ZeroedSuite(Suite(Rsn, c.ty), c.suffix), FinalSuffix(c.suffix, c.pmkid), group0);
    ZeroedSuiteParses(c.ty, c.suffix);
  }

  /** Two bytes or more after the suites: they are kept but for the last two, and the PMKID comes after them. */
  lemma RsnKeepsSuffix(c: Case)
    requires Accepted(Rsn, c) && |c.suffix| >= 2
    ensures |Out(Rsn, c)| >= SuitesAt(Rsn) + 4
    ensures Out(Rsn, c)[SuitesAt(Rsn) + 4..]
      == c.suffix[..|c.suffix| - 2] + [0, 0] + (if c.pmkid.Some? then [1, 0] + c.pmkid.value else [])
  {
    RsnOutput(c);
    ShapedParses(Out(Rsn, c), c.group, ZeroedSuite(Suite(Rsn, c.ty), c.suffix), FinalSuffix(c.suffix, c.pmkid), None);
  }

  lemma ZeroedIsOne(w: seq<Byte>)
    requires OneElement(w)
    ensures OneElement(LastTwoZeroed(w)) <==> |w| != 3
  {
  }

  lemma PmkidIsOne(w: seq<Byte>, pmkid: seq<Byte>)
    requires OneElement(w) && |w| <= SEC_IE_SIZE && |pmkid| == 16
    ensures OneElement(WithPmkid(LastTwoZeroed(w), pmkid)) <==> |w| != 3 && |w| < 240
  {
    var z := LastTwoZeroed(w);
    var all := z + [1, 0] + pmkid;
    assert all[1] == z[1];
    assert |w| >= 4 ==> z[1] == w[1];
  }

  /** Whether the rewriting accepts the element found. */
  predicate Takes(kind: Kind, ty: Byte, f: Option<Ie>, stale: seq<Byte>)
    requires RewritableIe(Some(kind), f, stale)
  {
    f.Some? && Accepts(kind, Oui(kind) + [ty], Loaded(f.value, stale))
  }

  /** The size the element goes out with: every suite of its list but one is cut off, and a missing one is added. */
  function SizeAfter(kind: Kind, e: Ie, stale: seq<Byte>): (r: int)
    requires RewritableIe(Some(kind), Some(e), stale)
  {
    |e.body| + 2 - Removed(CountAt(kind), Loaded(e, stale))
  }

  lemma KeptSize(kind: Kind, ty: Byte, f: Option<Ie>, stale: seq<Byte>)
    requires RewritableIe(Some(kind), f, stale)
    ensures var w := Kept(Some(kind), ty, f, stale);
      && (w.Some? <==> Takes(kind, ty, f, stale))
      && (w.Some? ==> OneElement(w.value) && |w.value| == SizeAfter(kind, f.value, stale) <= SEC_IE_SIZE)
  {
  }

  /** Bytes that are one element by their length byte parse to that element. */
  lemma OneParses(b: seq<Byte>)
    requires OneElement(b)
    ensures Parse(b) == Some([IeData(b[0], b[2..])])
  {
    var e := IeData(b[0], b[2..]);
    assert PrintIe(e) == b;
    PrintSnoc([], e);
    assert [] + [e] == [e] && Print([e]) == b;
    ParsePrint([e]);
  }

  /**
   Outside a WPS phase, whatever element was found or none, and with or without a PMKID: what follows the fixed
   fields is nothing or one element if and only if this is a WPA association, or nothing was
   accepted and there is no PMKID, or the accepted element leaves room for the PMKID in its length byte. Three bytes
   are an accepted element only if the stack happened to complete them; zeroing then hits the length byte.
   */
  lemma OutputIsOneIff(kind: Kind, ty: Byte, f: Option<Ie>, stale: seq<Byte>, pmkid: Option<seq<Byte>>)
    requires RewritableIe(Some(kind), f, stale) && (pmkid.Some? ==> |pmkid.value| == 16)
    ensures var out := SecOutput(Some(kind), ty, None, f, stale, pmkid);
      && (out == [] || OneElement(out) <==>
            kind.Wpa? || (if Takes(kind, ty, f, stale)
              then SizeAfter(kind, f.value, stale) != 3 && (pmkid.Some? ==> SizeAfter(kind, f.value, stale) < 240)
              else pmkid.None?))
      && (OneElement(out) ==> Parse(out) == Some([IeData(out[0], out[2..])]))
      && (kind.Rsn? && !Takes(kind, ty, f, stale) && pmkid.Some? ==> Parse(out).None?)
  {
    KeptSize(kind, ty, f, stale);
    var w, out := Kept(Some(kind), ty, f, stale), SecOutput(Some(kind), ty, None, f, stale, pmkid);
    if OneElement(out) {
      OneParses(out);
    }
    if w.Some? {
      ZeroedIsOne(w.value);
      if pmkid.Some? {
        PmkidIsOne(w.value, pmkid.value);
      }
    }
  }
}
