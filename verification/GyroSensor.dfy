/** The gyroscope of libsensors: samples assembled from raw input events, whatever the sizes of the reads and of the caller's buffers. */
module GyroSensor {
  import opened Wrappers
  import opened InputEventReader

  const EIO: nat := 5

  /** An input_event with its time in nanoseconds; Unknown stands for every type that is not EV_ABS or EV_SYN. */
  datatype RawEvent =
    | Abs(code: Axis, value: int)
    | Syn(time: int)
    | Unknown

  datatype Axis = AbsX | AbsY | AbsZ | OtherCode

  datatype Sample = Sample(x: real, y: real, z: real, timestamp: int)

  /** Conversions of the three axes, left open. */
  datatype Conversion = Conversion(x: int -> real, y: int -> real, z: int -> real)

  /** mEnabled and mEnabledTime */
  datatype Gate = Gate(enabled: bool, since: int)

  function Assembled(conv: Conversion, p: Sample, e: RawEvent): (r: Sample) {
    match e
    case Abs(AbsX, value) => p.(x := conv.x(value))
    case Abs(AbsY, value) => p.(y := conv.y(value))
    case Abs(AbsZ, value) => p.(z := conv.z(value))
    case Abs(OtherCode, _) => p
    case Syn(time) => p.(timestamp := time)
    case Unknown => p
  }

  predicate Delivers(gate: Gate, e: RawEvent) {
    e.Syn? && gate.enabled && e.time >= gate.since
  }

  /** The pending sample after some raw events. */
  function Pending(conv: Conversion, p: Sample, es: seq<RawEvent>): (r: Sample) {
    if es == [] then p else Assembled(conv, Pending(conv, p, es[..|es| - 1]), es[|es| - 1])
  }

  /** The samples delivered for some raw events: one for each SYN that comes when the sensor has settled. */
  function Delivered(conv: Conversion, gate: Gate, p: Sample, es: seq<RawEvent>): (r: seq<Sample>) {
    if es == [] then []
    else
      var n := |es| - 1;
      Delivered(conv, gate, p, es[..n]) + (if Delivers(gate, es[n]) then [Pending(conv, p, es)] else [])
  }

  function Syns(es: seq<RawEvent>): (r: nat) {
    if es == [] then 0 else Syns(es[..|es| - 1]) + (if es[|es| - 1].Syn? then 1 else 0)
  }

  lemma Snoc(conv: Conversion, gate: Gate, p: Sample, es: seq<RawEvent>, e: RawEvent)
    ensures Pending(conv, p, es + [e]) == Assembled(conv, Pending(conv, p, es), e)
    ensures Delivered(conv, gate, p, es + [e])
      == Delivered(conv, gate, p, es) + (if Delivers(gate, e) then [Pending(conv, p, es + [e])] else [])
    ensures Syns(es + [e]) == Syns(es) + (if e.Syn? then 1 else 0)
  {
    assert (es + [e])[..|es|] == es;
  }

  /** The fold goes on where it stopped: calls one after the other deliver what one call over all their events would. */
  lemma {:induction false} DeliveredConcat(conv: Conversion, gate: Gate, p: Sample, a: seq<RawEvent>, b: seq<RawEvent>)
    ensures Pending(conv, p, a + b) == Pending(conv, Pending(conv, p, a), b)
    ensures Delivered(conv, gate, p, a + b) == Delivered(conv, gate, p, a) + Delivered(conv, gate, Pending(conv, p, a), b)
  {
    if b == [] {
      assert a + b == a;
    } else {
      var n := |b| - 1;
      DeliveredConcat(conv, gate, p, a, b[..n]);
      assert a + b == (a + b[..n]) + [b[n]];
      assert b == b[..n] + [b[n]];
      Snoc(conv, gate, p, a + b[..n], b[n]);
      Snoc(conv, gate, Pending(conv, p, a), b[..n], b[n]);
    }
  }

  function Flatten<T>(segments: seq<seq<T>>): (r: seq<T>)
    decreases |segments|
  {
    if segments == [] then [] else segments[0] + Flatten(segments[1..])
  }

  /** What calls one after the other deliver, each consuming one segment. */
  function PerCall(conv: Conversion, gate: Gate, p: Sample, segments: seq<seq<RawEvent>>): (r: seq<Sample>)
    decreases |segments|
  {
    if segments == [] then []
    else Delivered(conv, gate, p, segments[0]) + PerCall(conv, gate, Pending(conv, p, segments[0]), segments[1..])
  }

  lemma {:induction false} CallsDeliver(conv: Conversion, gate: Gate, p: Sample, segments: seq<seq<RawEvent>>)
    ensures PerCall(conv, gate, p, segments) == Delivered(conv, gate, p, Flatten(segments))
    decreases |segments|
  {
    if segments != [] {
      CallsDeliver(conv, gate, Pending(conv, p, segments[0]), segments[1..]);
      DeliveredConcat(conv, gate, p, segments[0], Flatten(segments[1..]));
    }
  }

  /** However reads and counts cut the same raw events up, the calls deliver the same samples. */
  lemma CutsDoNotMatter(conv: Conversion, gate: Gate, p: Sample, a: seq<seq<RawEvent>>, b: seq<seq<RawEvent>>)
    requires Flatten(a) == Flatten(b)
    ensures PerCall(conv, gate, p, a) == PerCall(conv, gate, p, b)
  {
    CallsDeliver(conv, gate, p, a);
    CallsDeliver(conv, gate, p, b);
  }

  lemma Uncons<T>(a: seq<T>, b: seq<T>)
    requires b != []
    ensures a + b == (a + [b[0]]) + b[1..]
  {
  }

  lemma Regroup<T>(a: seq<T>, b: seq<T>, c: seq<T>, d: seq<T>, rest: seq<T>)
    requires a + b == c + d
    ensures a + (b + rest) == c + (d + rest)
  {
    assert a + (b + rest) == (a + b) + rest;
    assert c + (d + rest) == (c + d) + rest;
  }

  /** Where a call stands: `out` delivered and `left` of its count left after the raw events `es`. */
  ghost predicate Standing(conv: Conversion, gate: Gate, p: Sample, es: seq<RawEvent>, pending: Sample, out: seq<Sample>, count: nat, left: nat) {
    && pending == Pending(conv, p, es) && out == Delivered(conv, gate, p, es)
    && left + (if gate.enabled then Syns(es) else 0) == count && |out| + left <= count
  }

  lemma Advance(conv: Conversion, gate: Gate, p: Sample, es: seq<RawEvent>, pending: Sample, out: seq<Sample>, count: nat, left: nat, e: RawEvent)
    requires Standing(conv, gate, p, es, pending, out, count, left) && left > 0
    ensures var next := Assembled(conv, pending, e);
      Standing(conv, gate, p, es + [e], next, out + (if Delivers(gate, e) then [next] else []), count,
               if e.Syn? && gate.enabled then left - 1 else left)
  {
    Snoc(conv, gate, p, es, e);
  }

  /**
   A device with finite input. Read k fails, or hands out at most a number of events of its own choosing; after
   `patience` reads none fails any more, for the retry of the sensor does not tell an error from data.
   */
  class Device {
    var queue: seq<RawEvent>
    var readCount: nat
    const plan: nat -> Option<nat>
    const patience: nat

    ghost predicate Patient()
      reads this
    {
      forall k :: patience <= k ==> plan(k).Some?
    }

    /** No successful read comes back empty-handed while there is input. */
    ghost predicate Generous()
      reads this
    {
      forall k: nat :: plan(k) != Some(0)
    }

    /** How many reads can still fail. */
    function FailuresLeft(): (n: nat)
      reads this
    {
      if readCount < patience then patience - readCount else 0
    }

    constructor (queue: seq<RawEvent>, plan: nat -> Option<nat>, patience: nat)
      requires forall k :: patience <= k ==> plan(k).Some?
      ensures Patient() && this.queue == queue && this.plan == plan
    {
      this.queue, this.plan, this.patience, readCount := queue, plan, patience, 0;
    }

    method Read(max: nat) returns (r: ReadResult<RawEvent>)
      requires Patient()
      modifies this`queue, this`readCount
      ensures Patient() && readCount == old(readCount) + 1 && FailuresLeft() <= old(FailuresLeft())
      ensures r.Got? ==> |r.events| <= max && old(queue) == r.events + queue && (Generous() && max > 0 && old(queue) != [] ==> r.events != [])
      ensures !r.Got? ==> r == Failed(EIO) && queue == old(queue) && FailuresLeft() < old(FailuresLeft())
    {
      var chosen := plan(readCount);
      readCount := readCount + 1;
      if chosen.None? {
        return Failed(EIO);
      }
      var n := chosen.value;
      if n > max {
        n := max;
      }
      if n > |queue| {
        n := |queue|;
      }
      r := Got(queue[..n]);
      queue := queue[n..];
    }
  }

  class GyroSensor {
    const conv: Conversion
    const reader: InputEventCircularReader<RawEvent>
    const device: Device
    var gate: Gate
    var hasPendingEvent: bool
    var pendingEvent: Sample

    ghost predicate Valid()
      reads this, reader, device
    {
      reader.Valid() && device.Patient()
    }

    /** Every raw event not yet consumed: unread in the ring, then unread in the device. */
    ghost function Unread(): (r: seq<RawEvent>)
      requires Valid()
      reads this, reader, reader.mBuffer, device
    {
      reader.Contents() + device.queue
    }

    constructor (conv: Conversion, device: Device, capacity: nat)
      requires device.Patient()
      ensures Valid() && this.conv == conv && this.device == device && !hasPendingEvent && !gate.enabled
      ensures fresh(reader) && fresh(reader.mBuffer) && reader.Contents() == []
    {
      this.conv, this.device := conv, device;
      reader := new InputEventCircularReader<RawEvent>(capacity);
      gate, hasPendingEvent, pendingEvent := Gate(false, 0), false, Sample(0.0, 0.0, 0.0, 0);
    }

    /** mInputReader.fill(data_fd): negative for an error, which changes nothing here. */
    method FillFromDevice() returns (n: int)
      requires Valid()
      modifies reader`mHead, reader`mFreeSpace, reader.mBuffer, device`queue, device`readCount
      ensures Valid() && Unread() == old(Unread()) && |device.queue| == |old(device.queue)| - (if n > 0 then n else 0)
      ensures device.FailuresLeft() <= old(device.FailuresLeft())
      ensures n < 0 ==> device.FailuresLeft() < old(device.FailuresLeft()) && reader.Contents() == old(reader.Contents())
      ensures n <= 0 ==> reader.Contents() == old(reader.Contents())
      ensures n >= 0 && device.Generous() && reader.mBufferEnd > 0 && old(Unread()) != [] ==> reader.Contents() != []
    {
      if reader.mFreeSpace == 0 {
        return 0;
      }
      ghost var ring := reader.Contents();
      var r := device.Read(reader.mFreeSpace);
      n := reader.Fill(r);
      if r.Got? {
        Regroup(ring, r.events, ring + r.events, [], device.queue);
        assert r.events == [] ==> ring + r.events == ring;
      } else {
        assert ring + [] == ring;
      }
    }

    /** The while loop: raw events out of the ring until the count or the ring is used up. */
    method Assemble(data: array<Sample>, received: nat, left: nat, ghost p: Sample, ghost es: seq<RawEvent>, ghost count: nat)
      returns (received': nat, left': nat, ghost es': seq<RawEvent>)
      requires Valid() && count <= data.Length && received <= count
      requires Standing(conv, gate, p, es, pendingEvent, data[..received], count, left)
      modifies this`pendingEvent, reader`mCurr, reader`mFreeSpace, data
      ensures Valid() && received' <= count && Standing(conv, gate, p, es', pendingEvent, data[..received'], count, left')
      ensures data[count..] == old(data[count..])
      ensures es + old(reader.Contents()) == es' + reader.Contents()
      ensures left' == 0 || reader.Contents() == []
      ensures left > 0 && old(reader.Contents()) != [] ==> |es'| > |es|
    {
      received', left', es' := received, left, es;
      while true
        invariant Valid() && received' <= count
        invariant Standing(conv, gate, p, es', pendingEvent, data[..received'], count, left')
        invariant data[count..] == old(data[count..])
        invariant es + old(reader.Contents()) == es' + reader.Contents()
        invariant |es'| > |es| || (left' == left && reader.Contents() == old(reader.Contents()))
        decreases |reader.Contents()|
      {
        var available, at := reader.ReadEvent();
        if left' == 0 || !available {
          return;
        }
        var event := reader.mBuffer[at];
        Advance(conv, gate, p, es', pendingEvent, data[..received'], count, left', event);
        received', left' := AssembleOne(data, received', left', event);
        Uncons(es', reader.Contents());
        es' := es' + [event];
        reader.Next();
      }
    }

    method AssembleOne(data: array<Sample>, received: nat, left: nat, event: RawEvent) returns (received': nat, left': nat)
      requires left > 0 && received < data.Length
      modifies this`pendingEvent, data
      ensures pendingEvent == Assembled(conv, old(pendingEvent), event)
      ensures received' == received + (if Delivers(gate, event) then 1 else 0)
      ensures left' == if event.Syn? && gate.enabled then left - 1 else left
      ensures data[..received'] == old(data[..received]) + (if Delivers(gate, event) then [pendingEvent] else [])
      ensures data[received'..] == old(data[received'..])
    {
      received', left' := received, left;
      match event
      case Abs(AbsX, value) => pendingEvent := pendingEvent.(x := conv.x(value));
      case Abs(AbsY, value) => pendingEvent := pendingEvent.(y := conv.y(value));
      case Abs(AbsZ, value) => pendingEvent := pendingEvent.(z := conv.z(value));
      case Abs(OtherCode, _) =>
      case Syn(time) =>
        pendingEvent := pendingEvent.(timestamp := time);
        if gate.enabled {
          if pendingEvent.timestamp >= gate.since {
            data[received'] := pendingEvent;
            received' := received' + 1;
          }
          left' := left' - 1;
        }
      case Unknown =>
    }

    /** readEvents: an initial sample that is pending goes out alone, stamped with the current time. */
    method ReadEvents(data: array<Sample>, count: int, now: int) returns (r: int, ghost es: seq<RawEvent>)
      requires Valid() && count <= data.Length
      modifies this`pendingEvent, this`hasPendingEvent, reader`mHead, reader`mCurr, reader`mFreeSpace, reader.mBuffer
      modifies device`queue, device`readCount, data
      ensures Valid() && old(Unread()) == es + Unread()
      ensures count < 1 ==> r == -EINVAL && es == [] && pendingEvent == old(pendingEvent) && hasPendingEvent == old(hasPendingEvent)
      ensures count >= 1 ==> !hasPendingEvent && r <= count && data[count..] == old(data[count..])
      ensures count >= 1 && old(hasPendingEvent) ==> es == [] && r == (if gate.enabled then 1 else 0)
      ensures count >= 1 && old(hasPendingEvent) ==> pendingEvent == old(pendingEvent).(timestamp := now) && data[0] == pendingEvent
      ensures count >= 1 && !old(hasPendingEvent) ==> Folded(old(pendingEvent), es, data[..], r) && NotInVain(r, es, old(Unread()))
      ensures count >= 1 && !old(hasPendingEvent) && r < 0 ==> device.FailuresLeft() < old(device.FailuresLeft())
      ensures device.FailuresLeft() <= old(device.FailuresLeft())
    {
      es := [];
      if count < 1 {
        return -EINVAL, es;
      }
      if hasPendingEvent {
        hasPendingEvent := false;
        pendingEvent := pendingEvent.(timestamp := now);
        data[0] := pendingEvent;
        return if gate.enabled then 1 else 0, es;
      }
      r, es := ReadRaw(data, count);
    }

    /** The samples returned and the sample left pending are the fold of the raw events consumed; an error consumes none. */
    ghost predicate Folded(p: Sample, es: seq<RawEvent>, data: seq<Sample>, r: int)
      reads this
    {
      && pendingEvent == Pending(conv, p, es)
      && if r < 0 then es == [] else r <= |data| && data[..r] == Delivered(conv, gate, p, es)
    }

    /** A call that does not fail consumes something, if there is anything. */
    ghost predicate NotInVain(r: int, es: seq<RawEvent>, unread: seq<RawEvent>)
      reads this, device
    {
      r >= 0 && device.Generous() && reader.mBufferEnd > 0 && unread != [] ==> es != []
    }

    /**
     readEvents with nothing pending. It stops with its count used up or the ring drained, unless the
     first read fails; a read that fails in the retry is made again.
     */
    method ReadRaw(data: array<Sample>, count: nat) returns (r: int, ghost es: seq<RawEvent>)
      requires Valid() && !hasPendingEvent && 1 <= count <= data.Length
      modifies this`pendingEvent, reader`mHead, reader`mCurr, reader`mFreeSpace, reader.mBuffer
      modifies device`queue, device`readCount, data
      ensures Valid() && !hasPendingEvent && r <= count && old(Unread()) == es + Unread()
      ensures Folded(old(pendingEvent), es, data[..], r) && NotInVain(r, es, old(Unread()))
      ensures data[count..] == old(data[count..])
      ensures r < 0 ==> device.FailuresLeft() < old(device.FailuresLeft())
      ensures device.FailuresLeft() <= old(device.FailuresLeft())
      ensures r >= 0 ==>
        (gate.enabled ==> Syns(es) <= count) && ((gate.enabled && Syns(es) == count) || reader.Contents() == [])
    {
      ghost var p, all, failures := pendingEvent, Unread(), device.FailuresLeft();
      var n := FillFromDevice();
      r, es := 0, [];
      if n < 0 {
        return n, es;
      }
      var left := count;
      ghost var first := reader.Contents() != [];
      while true
        invariant Valid() && !hasPendingEvent && 0 <= r <= count && all == es + Unread()
        invariant Standing(conv, gate, p, es, pendingEvent, data[..r], count, left)
        invariant data[count..] == old(data[count..]) && device.FailuresLeft() <= failures
        invariant es == [] ==> left == count && (first ==> reader.Contents() != [])
        decreases |device.queue|, device.FailuresLeft()
      {
        ghost var fed, ring := es, reader.Contents();
        r, left, es := Assemble(data, r, left, p, es, count);
        Regroup(fed, ring, es, reader.Contents(), device.queue);
        if r != 0 || !gate.enabled {
          return;
        }
        n := FillFromDevice();
        if n == 0 {
          return;
        }
      }
    }

    /**
     Calls with any counts until device and ring are drained: put together, what they deliver is the fold
     of the whole input.
     */
    method DrainAll(counts: nat -> nat) returns (out: seq<Sample>)
      requires Valid() && !hasPendingEvent && device.Generous() && reader.mBufferEnd > 0 && forall k: nat :: counts(k) >= 1
      modifies this`pendingEvent, this`hasPendingEvent, reader`mHead, reader`mCurr, reader`mFreeSpace, reader.mBuffer
      modifies device`queue, device`readCount
      ensures Valid() && Unread() == [] && out == Delivered(conv, gate, old(pendingEvent), old(Unread()))
      ensures pendingEvent == Pending(conv, old(pendingEvent), old(Unread()))
    {
      ghost var p, all := pendingEvent, Unread();
      ghost var eaten: seq<RawEvent> := [];
      var k := 0;
      out := [];
      while |device.queue| > 0 || reader.mFreeSpace < reader.mBufferEnd
        invariant Valid() && !hasPendingEvent && all == eaten + Unread() && device.Generous()
        invariant pendingEvent == Pending(conv, p, eaten) && out == Delivered(conv, gate, p, eaten)
        decreases |Unread()|, device.FailuresLeft()
      {
        var data := new Sample[counts(k)];
        ghost var before, unread := pendingEvent, Unread();
        assert unread != [];
        var r, es := ReadEvents(data, counts(k), 0);
        Onward(conv, gate, p, eaten, es, unread, Unread());
        if r > 0 {
          out := out + data[..r];
        }
        assert out == Delivered(conv, gate, p, eaten) + Delivered(conv, gate, before, es);
        eaten := eaten + es;
        k := k + 1;
      }
      assert eaten + [] == eaten;
    }
  }

  lemma Onward(conv: Conversion, gate: Gate, p: Sample, eaten: seq<RawEvent>, es: seq<RawEvent>, before: seq<RawEvent>, after: seq<RawEvent>)
    requires before == es + after
    ensures eaten + before == (eaten + es) + after
    ensures Pending(conv, p, eaten + es) == Pending(conv, Pending(conv, p, eaten), es)
    ensures Delivered(conv, gate, p, eaten + es)
      == Delivered(conv, gate, p, eaten) + Delivered(conv, gate, Pending(conv, p, eaten), es)
  {
    DeliveredConcat(conv, gate, p, eaten, es);
    assert eaten + (es + after) == (eaten + es) + after;
  }
}
