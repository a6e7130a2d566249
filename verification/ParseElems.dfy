/** rtw_ieee802_11_parse_elems: one pass over received bytes that files each element under its field. */
module ParseElems {
  import opened Wrappers
  import opened InformationElement
  import opened Ieee80211

  /** The pairs of pointer and length in `struct ieee802_11_elems`. */
  datatype Field =
    | Ssid | SuppRates | FhParams | DsParams | CfParams | Tim | IbssParams | Challenge | ErpInfo | ExtSuppRates
    | Rsn | PwrCapability | SupportedChannels | MobilityDomain | FastBssTransition | TimeoutInterval
    | HtCapabilities | HtOperation
    | WpaIe | Wme | WmeTspec | WpsIe | VendorHtCap

  /** rtw_ieee802_11_parse_vendor_specific: None where it returns -1. */
  function VendorField(pos: seq<Byte>): (r: Option<Field>) {
    if |pos| < 4 then None
    else if pos[0] == 0x00 && pos[1] == 0x50 && pos[2] == 0xf2 then
      if pos[3] == 1 then Some(WpaIe)
      else if pos[3] == 2 then
        if |pos| < 5 then None
        else if pos[4] == 0 || pos[4] == 1 then Some(Wme)
        else if pos[4] == 2 then Some(WmeTspec)
        else None
      else if pos[3] == 4 then Some(WpsIe)
      else None
    else if pos[0] == 0x00 && pos[1] == 0x90 && pos[2] == 0x4c then
      if pos[3] == 0x33 then Some(VendorHtCap) else None
    else None
  }

  /** The field an element is filed under; None for an unknown element. */
  function FieldOf(id: Byte, body: seq<Byte>): (r: Option<Field>) {
    if id == 0 then Some(Ssid)
    else if id == 1 then Some(SuppRates)
    else if id == 2 then Some(FhParams)
    else if id == 3 then Some(DsParams)
    else if id == 4 then Some(CfParams)
    else if id == 5 then Some(Tim)
    else if id == 6 then Some(IbssParams)
    else if id == 16 then Some(Challenge)
    else if id == 42 then Some(ErpInfo)
    else if id == 50 then Some(ExtSuppRates)
    else if id == 221 then VendorField(body)
    else if id == 48 then Some(Rsn)
    else if id == 33 then Some(PwrCapability)
    else if id == 36 then Some(SupportedChannels)
    else if id == 54 then Some(MobilityDomain)
    else if id == 55 then Some(FastBssTransition)
    else if id == 56 then Some(TimeoutInterval)
    else if id == 45 then Some(HtCapabilities)
    else if id == 61 then Some(HtOperation)
    else None
  }

  datatype ParseRes = ParseOk | ParseUnknown | ParseFailed

  /** A field of the result: where its element body starts and how long it is. */
  datatype Ref = Ref(pos: nat, len: nat)

  /** The last element of the list that is filed under the field. */
  function LastWith(ies: seq<Ie>, f: Field): (k: Option<nat>)
    ensures k.Some? ==> k.value < |ies| && FieldOf(ies[k.value].id, ies[k.value].body) == Some(f)
    ensures forall j :: 0 <= j < |ies| && (k.None? || k.value < j) ==> FieldOf(ies[j].id, ies[j].body) != Some(f)
  {
    if ies == [] then None
    else
      var n := |ies| - 1;
      if FieldOf(ies[n].id, ies[n].body) == Some(f) then Some(n) else LastWith(ies[..n], f)
  }

  /** What the result must say about each field once the elements `ies` have been filed. */
  ghost predicate Filed(elems: map<Field, Ref>, ies: seq<Ie>) {
    forall f: Field ::
      (f in elems <==> LastWith(ies, f).Some?) &&
      (f in elems ==> elems[f] == Ref(Offset(ies, LastWith(ies, f).value) + 2, |ies[LastWith(ies, f).value].body|))
  }

  ghost predicate AllKnown(ies: seq<Ie>) {
    forall e :: e in ies ==> FieldOf(e.id, e.body).Some?
  }

  lemma OffsetInPrefix(ies: seq<Ie>, n: nat, k: nat)
    requires k <= n <= |ies|
    ensures Offset(ies[..n], k) == Offset(ies, k)
  {
    assert ies[..n][..k] == ies[..k];
  }

  lemma FiledStep(elems: map<Field, Ref>, ies: seq<Ie>, e: Ie)
    requires Filed(elems, ies)
    ensures var f := FieldOf(e.id, e.body);
      Filed(if f.Some? then elems[f.value := Ref(Offset(ies, |ies|) + 2, |e.body|)] else elems, ies + [e])
  {
    var all := ies + [e];
    assert all[..|ies|] == ies;
    forall f: Field
      ensures LastWith(all, f) == if FieldOf(e.id, e.body) == Some(f) then Some(|ies|) else LastWith(ies, f)
      ensures LastWith(ies, f).Some? ==> Offset(all, LastWith(ies, f).value) == Offset(ies, LastWith(ies, f).value)
    {
      if LastWith(ies, f).Some? {
        OffsetInPrefix(all, |ies|, LastWith(ies, f).value);
      }
    }
    OffsetInPrefix(all, |ies|, |ies|);
  }

  function Prepend(done: seq<Ie>, tail: Option<seq<Ie>>): (r: Option<seq<Ie>>) {
    if tail.None? then None else Some(done + tail.value)
  }

  lemma PrependStep(done: seq<Ie>, e: Ie, tail: Option<seq<Ie>>)
    ensures Prepend(done, Prepend([e], tail)) == Prepend(done + [e], tail)
  {
    assert tail.Some? ==> done + ([e] + tail.value) == (done + [e]) + tail.value;
  }

  /** The cursor's view: `done` is what precedes `pos`, and the whole parses as the rest does. */
  ghost predicate At(start: seq<Byte>, pos: nat, done: seq<Ie>) {
    && pos <= |start| && pos == |Print(done)|
    && Parse(start) == Prepend(done, Parse(start[pos..]))
  }

  lemma AtStart(start: seq<Byte>)
    ensures At(start, 0, [])
  {
    assert start[0..] == start;
    var whole := Parse(start);
    assert whole.Some? ==> [] + whole.value == whole.value;
  }

  lemma TailSlices(start: seq<Byte>, pos: nat)
    requires pos + 2 <= |start|
    ensures var rest, n := start[pos..], pos + 2 + start[pos + 1] as nat;
      && |rest| == |start| - pos && rest[0] == start[pos] && HeadSize(rest) == n - pos
      && (n <= |start| ==> rest[2..n - pos] == start[pos + 2..n] && rest[n - pos..] == start[n..])
  {
  }

  lemma ParseHead(b: seq<Byte>, e: Ie)
    requires |b| >= 2 && HeadSize(b) <= |b| && e == IeData(b[0], b[2..HeadSize(b)])
    ensures var tail := Parse(b[HeadSize(b)..]);
      Parse(b) == Prepend([e], tail)
  {
  }

  lemma Advance(whole: seq<Byte>, done: seq<Ie>, b: seq<Byte>, e: Ie, tail: seq<Byte>)
    requires |b| >= 2 && HeadSize(b) <= |b| && e == IeData(b[0], b[2..HeadSize(b)]) && tail == b[HeadSize(b)..]
    requires Parse(whole) == Prepend(done, Parse(b))
    ensures Parse(whole) == Prepend(done + [e], Parse(tail))
  {
    ParseHead(b, e);
    PrependStep(done, e, Parse(tail));
  }

  lemma AtStep(start: seq<Byte>, pos: nat, done: seq<Ie>)
    requires At(start, pos, done) && pos + 2 <= |start|
    ensures pos + 2 + start[pos + 1] as nat > |start| ==> Parse(start).None?
    ensures var n := pos + 2 + start[pos + 1] as nat;
      n <= |start| ==> At(start, n, done + [IeData(start[pos], start[pos + 2..n])])
  {
    TailSlices(start, pos);
    var n := pos + 2 + start[pos + 1] as nat;
    if n <= |start| {
      var e: Ie := IeData(start[pos], start[pos + 2..n]);
      PrintSnoc(done, e);
      Advance(start, done, start[pos..], e, start[n..]);
    }
  }

  lemma AtFinish(start: seq<Byte>, pos: nat, done: seq<Ie>)
    requires At(start, pos, done) && |start| - pos < 2
    ensures Parse(start) == if pos < |start| then None else Some(done)
  {
    assert pos == |start| ==> done + [] == done;
  }

  /** What holds at the head of the loop: `done` is filed and precedes `pos`. */
  ghost predicate Walk(start: seq<Byte>, pos: nat, done: seq<Ie>, elems: map<Field, Ref>, unknown: nat) {
    At(start, pos, done) && Filed(elems, done) && (unknown == 0 <==> AllKnown(done))
  }

  function FiledUnder(elems: map<Field, Ref>, unknown: nat, id: Byte, body: seq<Byte>, pos: nat): (r: (map<Field, Ref>, nat)) {
    var f := FieldOf(id, body);
    if f.Some? then (elems[f.value := Ref(pos, |body|)], unknown) else (elems, unknown + 1)
  }

  method FileElement(elems: map<Field, Ref>, unknown: nat, id: Byte, body: seq<Byte>, pos: nat)
    returns (elems': map<Field, Ref>, unknown': nat)
    ensures (elems', unknown') == FiledUnder(elems, unknown, id, body, pos)
  {
    var field := FieldOf(id, body);
    if field.Some? {
      return elems[field.value := Ref(pos, |body|)], unknown;
    }
    return elems, unknown + 1;
  }

  lemma FileStep(elems: map<Field, Ref>, done: seq<Ie>, e: Ie, pos: nat)
    requires Filed(elems, done) && pos == |Print(done)| + 2
    ensures var f := FieldOf(e.id, e.body);
      Filed(if f.Some? then elems[f.value := Ref(pos, |e.body|)] else elems, done + [e])
    ensures AllKnown(done + [e]) <==> AllKnown(done) && FieldOf(e.id, e.body).Some?
  {
    OffsetEnds(done);
    FiledStep(elems, done, e);
    AllKnownStep(done, e);
  }

  lemma WalkStep(start: seq<Byte>, pos: nat, done: seq<Ie>, elems: map<Field, Ref>, unknown: nat, e: Ie)
    requires Walk(start, pos, done, elems, unknown) && pos + 2 + |e.body| <= |start|
    requires start[pos] == e.id && start[pos + 1] as nat == |e.body| && e.body == start[pos + 2..pos + 2 + |e.body|]
    ensures var (elems', unknown') := FiledUnder(elems, unknown, e.id, e.body, pos + 2);
      Walk(start, pos + 2 + |e.body|, done + [e], elems', unknown')
  {
    AtStep(start, pos, done);
    FileStep(elems, done, e, pos + 2);
  }

  lemma WalkFails(start: seq<Byte>, pos: nat, done: seq<Ie>)
    requires At(start, pos, done) && pos + 2 <= |start| && pos + 2 + start[pos + 1] as nat > |start|
    ensures Parse(start).None?
  {
    AtStep(start, pos, done);
  }

  lemma WalkStarts(start: seq<Byte>)
    ensures Walk(start, 0, [], map[], 0)
  {
    AtStart(start);
  }

  /** What the loop returns from a cursor position. */
  function Rest(start: seq<Byte>, pos: nat, elems: map<Field, Ref>, unknown: nat): (r: (ParseRes, map<Field, Ref>))
    requires pos <= |start|
    decreases |start| - pos
  {
    if |start| - pos < 2 then
      (if pos < |start| then ParseFailed else if unknown > 0 then ParseUnknown else ParseOk, elems)
    else
      var n := pos + 2 + start[pos + 1] as nat;
      if n > |start| then (ParseFailed, elems)
      else
        var (elems', unknown') := FiledUnder(elems, unknown, start[pos], start[pos + 2..n], pos + 2);
        Rest(start, n, elems', unknown')
  }

  /**
   For every byte string: parsing fails exactly when the bytes are not tiled by elements; otherwise each
   field points at the last element filed under it, and an unknown element tells ParseUnknown from ParseOk.
   */
  ghost predicate Parsed(start: seq<Byte>, res: ParseRes, elems: map<Field, Ref>) {
    && (res == ParseFailed <==> Parse(start).None?)
    && (Parse(start).Some? ==> Filed(elems, Parse(start).value) && (res == ParseOk <==> AllKnown(Parse(start).value)))
  }

  lemma StoppedParses(start: seq<Byte>, pos: nat, done: seq<Ie>, elems: map<Field, Ref>, unknown: nat)
    requires Walk(start, pos, done, elems, unknown)
    ensures |start| - pos < 2 ==>
      Parsed(start, if pos < |start| then ParseFailed else if unknown > 0 then ParseUnknown else ParseOk, elems)
    ensures pos + 2 <= |start| && pos + 2 + start[pos + 1] as nat > |start| ==> Parsed(start, ParseFailed, elems)
  {
    if |start| - pos < 2 {
      AtFinish(start, pos, done);
    } else if pos + 2 + start[pos + 1] as nat > |start| {
      WalkFails(start, pos, done);
    }
  }

  lemma {:induction false} RestParses(start: seq<Byte>, pos: nat, done: seq<Ie>, elems: map<Field, Ref>, unknown: nat,
                                      r: (ParseRes, map<Field, Ref>))
    requires Walk(start, pos, done, elems, unknown) && r == Rest(start, pos, elems, unknown)
    ensures Parsed(start, r.0, r.1)
    decreases |start| - pos
  {
    StoppedParses(start, pos, done, elems, unknown);
    if pos + 2 <= |start| {
      var n := pos + 2 + start[pos + 1] as nat;
      if n <= |start| {
        var next := FiledUnder(elems, unknown, start[pos], start[pos + 2..n], pos + 2);
        var done' := WalkOn(start, pos, done, elems, unknown);
        RestParses(start, n, done', next.0, next.1, r);
      }
    }
  }

  lemma WalkOn(start: seq<Byte>, pos: nat, done: seq<Ie>, elems: map<Field, Ref>, unknown: nat) returns (done': seq<Ie>)
    requires Walk(start, pos, done, elems, unknown) && pos + 2 <= |start| && pos + 2 + start[pos + 1] as nat <= |start|
    ensures var n := pos + 2 + start[pos + 1] as nat;
      var next := FiledUnder(elems, unknown, start[pos], start[pos + 2..n], pos + 2);
      Walk(start, n, done', next.0, next.1)
  {
    var e: Ie := IeData(start[pos], start[pos + 2..pos + 2 + start[pos + 1] as nat]);
    WalkStep(start, pos, done, elems, unknown, e);
    done' := done + [e];
  }

  method ParseElems(start: seq<Byte>) returns (res: ParseRes, elems: map<Field, Ref>)
    ensures Parsed(start, res, elems)
  {
    var left, pos, unknown := |start|, 0, 0;
    elems := map[];
    while left >= 2
      invariant 0 <= pos && 0 <= left && pos + left == |start| && 0 <= unknown
      invariant Rest(start, pos, elems, unknown) == Rest(start, 0, map[], 0)
      decreases left
    {
      var id, elen := start[pos], start[pos + 1] as nat;
      pos, left := pos + 2, left - 2;
      if elen > left {
        WholeParses(start);
        return ParseFailed, elems;
      }
      elems, unknown := FileElement(elems, unknown, id, start[pos..pos + elen], pos);
      pos, left := pos + elen, left - elen;
    }
    WholeParses(start);
    if left > 0 {
      return ParseFailed, elems;
    }
    return if unknown > 0 then ParseUnknown else ParseOk, elems;
  }

  lemma WholeParses(start: seq<Byte>)
    ensures Parsed(start, Rest(start, 0, map[], 0).0, Rest(start, 0, map[], 0).1)
  {
    WalkStarts(start);
    RestParses(start, 0, [], map[], 0, Rest(start, 0, map[], 0));
  }

  lemma AllKnownStep(ies: seq<Ie>, e: Ie)
    ensures AllKnown(ies + [e]) <==> AllKnown(ies) && FieldOf(e.id, e.body).Some?
  {
    assert (ies + [e])[|ies|] == e;
    assert forall x :: x in ies ==> x in ies + [e];
  }

  lemma BodyInside(ies: seq<Ie>, k: nat)
    requires k < |ies|
    ensures var p, b := Offset(ies, k) + 2, Print(ies);
      p + |ies[k].body| <= |b| && b[p..p + |ies[k].body|] == ies[k].body
  {
    OffsetStep(ies, k);
    var o, n := Offset(ies, k), Offset(ies, k + 1);
    assert PrintIe(ies[k])[2..] == ies[k].body;
    assert Print(ies)[o..n][2..] == Print(ies)[o + 2..n];
  }

  /** The parser points only inside the string it was given, at the body of the element it filed. */
  lemma FieldsInside(start: seq<Byte>, ies: seq<Ie>, elems: map<Field, Ref>, f: Field)
    requires start == Print(ies) && Filed(elems, ies) && f in elems
    ensures elems[f].pos + elems[f].len <= |start|
    ensures start[elems[f].pos..elems[f].pos + elems[f].len] == ies[LastWith(ies, f).value].body
  {
    BodyInside(ies, LastWith(ies, f).value);
  }

  /** On an id that occurs once, get_ie and the parser point at the same element. */
  lemma AgreesWithGetIe(ies: seq<Ie>, k: nat, f: Field)
    requires k < |ies| && FieldOf(ies[k].id, ies[k].body) == Some(f)
    requires forall j :: 0 <= j < |ies| && j != k ==> ies[j].id != ies[k].id && FieldOf(ies[j].id, ies[j].body) != Some(f)
    ensures FirstWith(ies, ies[k].id) == k && LastWith(ies, f) == Some(k)
  {
    FirstWithIs(ies, ies[k].id, k);
    LastWithIs(ies, f, k);
  }

  lemma {:induction false} LastWithIs(ies: seq<Ie>, f: Field, k: nat)
    requires k < |ies| && FieldOf(ies[k].id, ies[k].body) == Some(f)
    requires forall j :: k < j < |ies| ==> FieldOf(ies[j].id, ies[j].body) != Some(f)
    ensures LastWith(ies, f) == Some(k)
  {
    var n := |ies| - 1;
    if k < n {
      LastWithIs(ies[..n], f, k);
    }
  }
}
