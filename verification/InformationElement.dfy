/** 802.11 information elements as bytes: section 7.3.2 of IEEE Std 802.11-2007. */
module InformationElement {
  import opened Wrappers

  newtype Byte = x: int | 0 <= x < 256

  /** An element whose length fits its length byte. */
  datatype IeData = IeData(id: Byte, body: seq<Byte>)
  type Ie = e: IeData | |e.body| < 256 witness IeData(0, [])

  function PrintIe(e: Ie): (b: seq<Byte>)
    ensures |b| == |e.body| + 2
  {
    [e.id, |e.body| as Byte] + e.body
  }

  function Print(ies: seq<Ie>): (r: seq<Byte>) {
    if ies == [] then [] else PrintIe(ies[0]) + Print(ies[1..])
  }

  /** The size of the element at the head of non-empty bytes, going by its length byte. */
  function HeadSize(b: seq<Byte>): (r: nat)
    requires |b| >= 2
  {
    2 + b[1] as nat
  }

  /** The exact tiling of the bytes by elements, if there is one. */
  function Parse(b: seq<Byte>): (r: Option<seq<Ie>>)
    decreases |b|
  {
    if b == [] then Some([])
    else if |b| < 2 || HeadSize(b) > |b| then None
    else
      var rest := Parse(b[HeadSize(b)..]);
      if rest.None? then None else Some([IeData(b[0], b[2..HeadSize(b)])] + rest.value)
  }

  lemma HeadOfPrint(e: Ie, rest: seq<Byte>)
    ensures var b := PrintIe(e) + rest;
      |b| >= 2 && HeadSize(b) == |e.body| + 2 <= |b| && b[0] == e.id && b[2..HeadSize(b)] == e.body && b[HeadSize(b)..] == rest
  {
  }

  lemma {:induction false} ParsePrint(ies: seq<Ie>)
    ensures Parse(Print(ies)) == Some(ies)
  {
    if ies != [] {
      HeadOfPrint(ies[0], Print(ies[1..]));
      ParsePrint(ies[1..]);
      assert ies == [ies[0]] + ies[1..];
    }
  }

  lemma SplitHead(b: seq<Byte>)
    requires |b| >= 2 && HeadSize(b) <= |b|
    ensures PrintIe(IeData(b[0], b[2..HeadSize(b)])) + b[HeadSize(b)..] == b
  {
  }

  lemma {:induction false} PrintParse(b: seq<Byte>)
    requires Parse(b).Some?
    ensures Print(Parse(b).value) == b
    decreases |b|
  {
    if b != [] {
      PrintParse(b[HeadSize(b)..]);
      SplitHead(b);
      var ies := Parse(b).value;
      assert ies[1..] == Parse(b[HeadSize(b)..]).value;
    }
  }

  lemma {:induction false} PrintConcat(a: seq<Ie>, b: seq<Ie>)
    ensures Print(a + b) == Print(a) + Print(b)
  {
    if a == [] {
      assert a + b == b;
    } else {
      assert (a + b)[1..] == a[1..] + b;
      PrintConcat(a[1..], b);
    }
  }

  lemma PrintSnoc(done: seq<Ie>, e: Ie)
    ensures Print(done + [e]) == Print(done) + PrintIe(e)
  {
    PrintConcat(done, [e]);
    assert Print([e][1..]) == [];
    assert Print([e]) == PrintIe(e) + [];
  }

  /** Where element `k` of the list starts. */
  function Offset(ies: seq<Ie>, k: nat): (r: nat)
    requires k <= |ies|
  {
    |Print(ies[..k])|
  }

  lemma OffsetTail(ies: seq<Ie>, k: nat)
    requires 0 < k <= |ies|
    ensures Offset(ies, k) == |ies[0].body| + 2 + Offset(ies[1..], k - 1)
  {
    assert ies[..k][1..] == ies[1..][..k - 1];
  }

  lemma SliceAfter(head: seq<Byte>, tail: seq<Byte>, o: nat, n: nat)
    requires o <= n <= |tail|
    ensures (head + tail)[|head| + o..|head| + n] == tail[o..n]
  {
  }

  /** The bytes at the offset of element `k` are that element, and the next one follows it. */
  lemma {:induction false} OffsetStep(ies: seq<Ie>, k: nat)
    requires k < |ies|
    ensures var o, n := Offset(ies, k), Offset(ies, k + 1);
      o + 2 + |ies[k].body| == n <= |Print(ies)| && Print(ies)[o..n] == PrintIe(ies[k])
  {
    OffsetTail(ies, k + 1);
    var head, tail := PrintIe(ies[0]), Print(ies[1..]);
    if k == 0 {
      assert Offset(ies[1..], 0) == 0;
      assert (head + tail)[0..|head|] == head;
    } else {
      OffsetTail(ies, k);
      OffsetStep(ies[1..], k - 1);
      SliceAfter(head, tail, Offset(ies[1..], k - 1), Offset(ies[1..], k));
    }
  }

  lemma OffsetEnds(ies: seq<Ie>)
    ensures Offset(ies, 0) == 0 && Offset(ies, |ies|) == |Print(ies)|
  {
    assert ies[..0] == [] && ies[..|ies|] == ies;
  }

  /** The position in the list of the first element with the id, or the length of the list. */
  function FirstWith(ies: seq<Ie>, id: Byte): (k: nat)
    ensures k <= |ies|
    ensures k < |ies| ==> ies[k].id == id
    ensures forall j :: 0 <= j < k ==> ies[j].id != id
  {
    if ies == [] || ies[0].id == id then 0 else 1 + FirstWith(ies[1..], id)
  }
}
