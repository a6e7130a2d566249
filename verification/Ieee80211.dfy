/** The element cursor loops of ieee80211.c. */
module Ieee80211 {
  import opened InformationElement

  /** _memcpy into a buffer from bytes elsewhere */
  method CopyIn(buf: array<Byte>, dst: nat, src: seq<Byte>)
    requires dst + |src| <= buf.Length
    modifies buf
    ensures buf[..] == old(buf[..dst]) + src + old(buf[dst + |src|..])
  {
    var i := 0;
    while i < |src|
      invariant 0 <= i <= |src|
      invariant buf[..] == old(buf[..dst]) + src[..i] + old(buf[dst + i..])
    {
      buf[dst + i] := src[i];
      i := i + 1;
    }
    assert src[..|src|] == src;
  }

  /** set_ie: the length byte is truncated, the copy and the returned size are not. */
  method SetIe(buf: array<Byte>, p: nat, index: Byte, source: seq<Byte>, frlen: nat) returns (next: nat, newLen: nat)
    requires p + 2 + |source| <= buf.Length
    modifies buf
    ensures next == p + |source| + 2 && newLen == frlen + |source| + 2
    ensures buf[..] == old(buf[..p]) + WrittenIe(index, source) + old(buf[next..])
  {
    ghost var before := buf[..];
    buf[p] := index;
    buf[p + 1] := (|source| % 256) as Byte;
    assert buf[..] == before[..p] + WrittenIe(index, source)[..2] + before[p + 2..];
    if |source| > 0 {
      CopyIn(buf, p + 2, source);
    }
    return p + |source| + 2, frlen + (|source| + 2);
  }

  function WrittenIe(index: Byte, source: seq<Byte>): (r: seq<Byte>) {
    [index, (|source| % 256) as Byte] + source
  }

  /** What set_ie writes is that one element if and only if its length fits the length byte. */
  lemma SetIePrints(index: Byte, source: seq<Byte>)
    ensures |source| < 256 <==>
      Parse(WrittenIe(index, source)).Some? && |Parse(WrittenIe(index, source)).value| == 1
        && Parse(WrittenIe(index, source)).value[0].body == source
    ensures |source| < 256 ==> WrittenIe(index, source) == PrintIe(IeData(index, source))
  {
    if |source| < 256 {
      ParsePrint([IeData(index, source)]);
      assert [IeData(index, source)][1..] == [];
      assert Print([IeData(index, source)]) == PrintIe(IeData(index, source)) + [];
    } else {
      var b := WrittenIe(index, source);
      assert HeadSize(b) < |source|;
      assert |b[2..HeadSize(b)]| < |source|;
    }
  }

  lemma {:induction false} OffsetMonotone(ies: seq<Ie>, j: nat, k: nat)
    requires j <= k <= |ies|
    ensures Offset(ies, j) + 2 * (k - j) <= Offset(ies, k)
    decreases k
  {
    if j < k {
      OffsetStep(ies, k - 1);
      OffsetMonotone(ies, j, k - 1);
    }
  }

  lemma ReadElement(b: seq<Byte>, limit: nat, p: nat, n: nat, e: Ie)
    requires limit <= |b| && p <= n <= limit && b[..limit][p..n] == PrintIe(e)
    ensures p + 2 <= n == p + 2 + |e.body| && b[p] == e.id && b[p + 1] as nat == |e.body| && b[p + 2..n] == e.body
  {
    var w := b[..limit][p..n];
    assert w[0] == b[p] && w[1] == b[p + 1];
    assert w[2..] == b[p + 2..n];
  }

  /** What the cursor sees at element `k` of a tiled buffer. */
  lemma AtElement(b: seq<Byte>, limit: nat, ies: seq<Ie>, k: nat)
    requires limit <= |b| && b[..limit] == Print(ies) && k < |ies|
    ensures var p := Offset(ies, k);
      && p + 2 <= p + 2 + |ies[k].body| == Offset(ies, k + 1) <= limit
      && b[p] == ies[k].id && b[p + 1] as nat == |ies[k].body|
      && b[p + 2..p + 2 + |ies[k].body|] == ies[k].body
  {
    OffsetStep(ies, k);
    ReadElement(b, limit, Offset(ies, k), Offset(ies, k + 1), ies[k]);
  }

  lemma AtTheEnd(ies: seq<Ie>, k: nat)
    requires k <= |ies|
    ensures Offset(ies, k) <= |Print(ies)| && (k == |ies| <==> Offset(ies, k) == |Print(ies)|)
  {
    OffsetEnds(ies);
    OffsetMonotone(ies, k, |ies|);
  }

  // ---- get_ie on any bytes -------------------------------------------------------------------

  /** Where a cursor loop stops: at an element, at the end, or at a read outside its buffer. */
  datatype Stop = At(at: nat) | Missing | Stray

  /** The loop of get_ie from cursor `p`: it looks no further than `limit`, but reads the byte after the cursor. */
  function Look(b: seq<Byte>, index: Byte, limit: nat, p: nat): (r: Stop)
    requires limit <= |b|
    ensures r.At? ==> p <= r.at < limit && r.at + 1 < |b| && b[r.at] == index
    decreases if p < limit then limit - p else 0
  {
    if p >= limit then Missing
    else if p + 1 >= |b| then Stray
    else if b[p] == index then At(p)
    else Look(b, index, limit, p + 2 + b[p + 1] as nat)
  }

  /** The loop reads the byte at `limit`. */
  predicate ReadsPast(b: seq<Byte>, index: Byte, limit: nat, p: nat)
    requires limit <= |b|
    decreases if p < limit then limit - p else 0
  {
    p < limit && (p + 1 == limit || (b[p] != index && ReadsPast(b, index, limit, p + 2 + b[p + 1] as nat)))
  }

  /** The first `p` bytes are elements, none of them with the id. */
  ghost predicate Clear(b: seq<Byte>, index: Byte, p: nat) {
    p <= |b| && Parse(b[..p]).Some? && forall e :: e in Parse(b[..p]).value ==> e.id != index
  }

  lemma ClearStart(b: seq<Byte>, index: Byte)
    ensures Clear(b, index, 0)
  {
    assert b[..0] == [];
  }

  lemma ClearPrint(b: seq<Byte>, index: Byte, p: nat, ies: seq<Ie>)
    requires p <= |b| && b[..p] == Print(ies)
    ensures Clear(b, index, p) <==> forall e :: e in ies ==> e.id != index
  {
    ParsePrint(ies);
  }

  lemma ElementAfter(b: seq<Byte>, p: nat)
    requires p + 2 <= |b| && p + 2 + b[p + 1] as nat <= |b|
    ensures var n := p + 2 + b[p + 1] as nat; b[..n] == b[..p] + PrintIe(IeData(b[p], b[p + 2..n]))
  {
  }

  /** The element at a clear position extends the clear bytes, if it fits and has another id. */
  lemma ClearStep(b: seq<Byte>, index: Byte, p: nat)
    requires Clear(b, index, p) && p + 2 <= |b| && p + 2 + b[p + 1] as nat <= |b| && b[p] != index
    ensures Clear(b, index, p + 2 + b[p + 1] as nat)
  {
    var n, done := p + 2 + b[p + 1] as nat, Parse(b[..p]).value;
    var e: Ie := IeData(b[p], b[p + 2..n]);
    PrintParse(b[..p]);
    PrintSnoc(done, e);
    ElementAfter(b, p);
    ClearPrint(b, index, n, done + [e]);
    assert forall x :: x in done + [e] ==> x in done || x == e;
  }

  /** Two tilings of which one is a prefix of the other agree element by element. */
  lemma {:induction false} TilingPrefix(ies: seq<Ie>, jes: seq<Ie>)
    requires |Print(ies)| < |Print(jes)| && Print(jes)[..|Print(ies)|] == Print(ies)
    ensures |ies| < |jes| && jes[..|ies|] == ies
  {
    if ies != [] {
      HeadOfPrint(ies[0], Print(ies[1..]));
      HeadOfPrint(jes[0], Print(jes[1..]));
      SameHead(PrintIe(ies[0]), Print(ies[1..]), PrintIe(jes[0]), Print(jes[1..]));
      TilingPrefix(ies[1..], jes[1..]);
      assert jes[..|ies|] == [jes[0]] + jes[1..][..|ies| - 1];
    }
  }

  /** Two element prints at the head of the same bytes are the same. */
  lemma SameHead(h: seq<Byte>, t: seq<Byte>, g: seq<Byte>, u: seq<Byte>)
    requires |h| >= 2 && |g| >= 2 && |h| == 2 + h[1] as nat && |g| == 2 + g[1] as nat
    requires |h + t| < |g + u| && (g + u)[..|h + t|] == h + t
    ensures h == g && |t| < |u| && u[..|t|] == t
  {
    assert (h + t)[1] == h[1] && (g + u)[1] == g[1];
    assert (h + t)[1] == (g + u)[..|h + t|][1] == (g + u)[1];
    assert h == (h + t)[..|h|] == (g + u)[..|h|] == g;
    assert t == (h + t)[|h|..] == (g + u)[..|h + t|][|h|..] == u[..|t|];
  }

  /** Between a clear position and a later one lies the element at the first, with another id. */
  lemma ClearNext(b: seq<Byte>, index: Byte, p: nat, q: nat)
    requires Clear(b, index, p) && Clear(b, index, q) && p < q
    ensures p + 2 <= |b| && b[p] != index && p + 2 + b[p + 1] as nat <= q
  {
    var ies, jes := Parse(b[..p]).value, Parse(b[..q]).value;
    PrintParse(b[..p]);
    PrintParse(b[..q]);
    assert b[..q][..p] == b[..p];
    TilingPrefix(ies, jes);
    OffsetStep(jes, |ies|);
    ReadElement(b, q, Offset(jes, |ies|), Offset(jes, |ies| + 1), jes[|ies|]);
    assert jes[|ies|] in jes;
  }

  /** From a clear cursor the loop stops at the first clear position with the id, strays, or finds none. */
  lemma {:induction false} LookFrom(b: seq<Byte>, index: Byte, limit: nat, p: nat)
    requires limit <= |b| && Clear(b, index, p)
    ensures match Look(b, index, limit, p)
      case At(at) => at < limit && at + 1 < |b| && Clear(b, index, at) && b[at] == index
      case Stray => 0 < limit == |b| && Clear(b, index, limit - 1)
      case Missing => forall q :: p <= q < limit && Clear(b, index, q) ==> q + 1 < |b| && b[q] != index
    ensures ReadsPast(b, index, limit, p) ==> 0 < limit && Clear(b, index, limit - 1)
    ensures 0 < limit && p < limit && Clear(b, index, limit - 1) ==> ReadsPast(b, index, limit, p)
    decreases if p < limit then limit - p else 0
  {
    forall q | p < q && Clear(b, index, q)
      ensures p + 2 <= |b| && b[p] != index && p + 2 + b[p + 1] as nat <= q
    {
      ClearNext(b, index, p, q);
    }
    if p < limit && p + 1 < |b| && b[p] != index {
      var n := p + 2 + b[p + 1] as nat;
      if n <= |b| {
        ClearStep(b, index, p);
        LookFrom(b, index, limit, n);
      } else {
        assert Look(b, index, limit, n) == Missing && !ReadsPast(b, index, limit, n);
      }
    }
  }

  /**
   get_ie on any bytes: it returns the one position before the limit where the bytes so far are elements
   without the id and this byte is the id; it reads outside its buffer if and only if the
   elements end one byte before a limit that is the end of the buffer, and past its limit if and
   only if they end one byte before the limit.
   */
  lemma LookIff(b: seq<Byte>, index: Byte, limit: nat)
    requires limit <= |b|
    ensures forall at: nat :: Look(b, index, limit, 0) == At(at) <==>
      at < limit && at + 1 < |b| && Clear(b, index, at) && b[at] == index
    ensures Look(b, index, limit, 0) == Stray <==> 0 < limit == |b| && Clear(b, index, limit - 1)
    ensures ReadsPast(b, index, limit, 0) <==> 0 < limit && Clear(b, index, limit - 1)
  {
    ClearStart(b, index);
    LookFrom(b, index, limit, 0);
    forall p: nat, q: nat | p < q && Clear(b, index, p) && Clear(b, index, q)
      ensures p + 2 <= |b| && b[p] != index && p + 2 <= q
    {
      ClearNext(b, index, p, q);
    }
  }

  /** get_ie; the third result says whether the byte at the limit was read. */
  method GetIe(b: seq<Byte>, index: Byte, lenBefore: nat, limit: nat) returns (r: Stop, len: nat, ghost past: bool)
    requires limit <= |b|
    ensures r == Look(b, index, limit, 0) && past == ReadsPast(b, index, limit, 0)
    ensures r.At? ==> len == b[r.at + 1] as nat
    ensures r.Missing? ==> len == if limit < 1 then lenBefore else 0
  {
    past := false;
    if limit < 1 {
      return Missing, lenBefore, past;
    }
    var p := 0;
    while true
      invariant p < limit && !past
      invariant Look(b, index, limit, p) == Look(b, index, limit, 0)
      invariant ReadsPast(b, index, limit, p) == ReadsPast(b, index, limit, 0)
      decreases limit - p
    {
      past := p + 1 == limit;
      if p + 1 >= |b| {
        return Stray, 0, past;
      }
      if b[p] == index {
        return At(p), b[p + 1] as nat, past;
      }
      p := p + b[p + 1] as nat + 2;
      if p >= limit {
        return Missing, 0, past;
      }
    }
  }

  /** Over an exact tiling get_ie finds the first element with the id, or none exactly when there is none, and stays inside its limit. */
  lemma LookTiled(b: seq<Byte>, index: Byte, limit: nat, ies: seq<Ie>)
    requires limit <= |b| && b[..limit] == Print(ies)
    ensures var k := FirstWith(ies, index);
      Look(b, index, limit, 0) == if k == |ies| then Missing else At(Offset(ies, k))
    ensures !ReadsPast(b, index, limit, 0)
  {
    LookIff(b, index, limit);
    var k := FirstWith(ies, index);
    var p := Offset(ies, k);
    AtTheEnd(ies, k);
    PrefixOfPrint(ies, k);
    assert b[..limit][..p] == b[..p];
    ClearPrint(b, index, p, ies[..k]);
    if k < |ies| {
      AtElement(b, limit, ies, k);
      ClearBefore(b, index, limit, p);
    } else {
      assert ies[..k] == ies;
      ClearBefore(b, index, limit, limit);
    }
  }

  lemma PrefixOfPrint(ies: seq<Ie>, k: nat)
    requires k <= |ies|
    ensures Offset(ies, k) <= |Print(ies)| && Print(ies)[..Offset(ies, k)] == Print(ies[..k])
  {
    PrintConcat(ies[..k], ies[k..]);
    assert ies[..k] + ies[k..] == ies;
  }

  /** Nothing before a clear position has the id, and the position before it is not clear. */
  lemma ClearBefore(b: seq<Byte>, index: Byte, limit: nat, q: nat)
    requires Clear(b, index, q) && q <= limit <= |b| && (q < limit ==> b[q] == index && q + 2 <= limit)
    ensures forall p: nat :: p < limit && Clear(b, index, p) && b[p] == index ==> p == q
    ensures 0 < limit ==> !Clear(b, index, limit - 1)
  {
    forall p: nat | p < limit && Clear(b, index, p) && b[p] == index
      ensures p == q
    {
      if p < q { ClearNext(b, index, p, q); }
      if q < p { ClearNext(b, index, q, p); }
    }
    if 0 < limit && Clear(b, index, limit - 1) {
      if q == limit { ClearNext(b, index, limit - 1, q); } else { ClearNext(b, index, q, limit - 1); }
    }
  }

  lemma FirstWithIs(ies: seq<Ie>, id: Byte, k: nat)
    requires k <= |ies| && (forall j :: 0 <= j < k ==> ies[j].id != id) && (k < |ies| ==> ies[k].id == id)
    ensures FirstWith(ies, id) == k
  {
    var f := FirstWith(ies, id);
    assert f == k || f < k || k < f;
  }
}
