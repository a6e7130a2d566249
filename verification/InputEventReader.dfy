/** The circular reader of libsensors: a doubled buffer that lets every read be one contiguous write. */
module InputEventReader {
  const EINVAL: int := 22

  /** What read() does: whole events, a number of bytes that is not a whole number of events, or an error. */
  datatype ReadResult<T> = Got(events: seq<T>) | Torn(events: seq<T>) | Failed(errno: nat)

  /** The slot of the event `i` places after the current one, in a ring of `n`. */
  function Slot(n: nat, curr: nat, i: nat): (r: nat)
    requires curr <= n && i <= n
  {
    if curr + i < n then curr + i else curr + i - n
  }

  function Queue<T>(b: seq<T>, n: nat, curr: nat, used: nat): (q: seq<T>)
    requires n <= |b| && used <= n && (curr < n || n == 0 == curr)
    ensures |q| == used && forall i :: 0 <= i < used ==> q[i] == b[Slot(n, curr, i)]
  {
    seq(used, i requires 0 <= i < used => b[Slot(n, curr, i)])
  }

  class InputEventCircularReader<T(0)> {
    const mBuffer: array<T>
    const mBufferEnd: nat
    var mHead: nat
    var mCurr: nat
    var mFreeSpace: nat

    /** From the current position to the head, round the ring, are the events in use; a head at the end of the first half has not wrapped. */
    ghost predicate Valid()
      reads this
    {
      && mBuffer.Length == 2 * mBufferEnd
      && mFreeSpace <= mBufferEnd && mHead <= mBufferEnd && (mCurr < mBufferEnd || mCurr == mBufferEnd == 0)
      && (mHead == mCurr + Used() || mHead + mBufferEnd == mCurr + Used() || (mHead == mBufferEnd && mCurr + Used() == 0))
    }

    ghost function Used(): (r: int)
      reads this
    {
      mBufferEnd - mFreeSpace
    }

    /** The unread events, oldest first. */
    ghost function Contents(): (s: seq<T>)
      requires Valid()
      reads this, mBuffer
      ensures |s| == Used()
    {
      Queue(mBuffer[..], mBufferEnd, mCurr, Used())
    }

    constructor (numEvents: nat)
      ensures Valid() && mBufferEnd == numEvents && Contents() == [] && fresh(mBuffer)
    {
      mBuffer := new T[numEvents * 2];
      mBufferEnd := numEvents;
      mHead := 0;
      mCurr := 0;
      mFreeSpace := numEvents;
    }

    /** read() into the buffer at the head */
    method WriteAtHead(events: seq<T>)
      requires Valid() && |events| <= mFreeSpace
      modifies mBuffer
      ensures forall k :: mHead <= k < mHead + |events| ==> mBuffer[k] == events[k - mHead]
      ensures forall k :: 0 <= k < mBuffer.Length && !(mHead <= k < mHead + |events|) ==> mBuffer[k] == old(mBuffer[k])
    {
      var i := 0;
      while i < |events|
        invariant 0 <= i <= |events|
        invariant forall k :: mHead <= k < mHead + i ==> mBuffer[k] == events[k - mHead]
        invariant forall k :: 0 <= k < mBuffer.Length && !(mHead <= k < mHead + i) ==> mBuffer[k] == old(mBuffer[k])
      {
        mBuffer[mHead + i] := events[i];
        i := i + 1;
      }
    }

    /** memcpy(mBuffer, mBufferEnd, s) */
    method CopyToFront(s: nat)
      requires mBuffer.Length == 2 * mBufferEnd && s <= mBufferEnd
      modifies mBuffer
      ensures forall k :: 0 <= k < s ==> mBuffer[k] == old(mBuffer[mBufferEnd + k])
      ensures forall k :: s <= k < mBuffer.Length ==> mBuffer[k] == old(mBuffer[k])
    {
      var i := 0;
      while i < s
        invariant 0 <= i <= s
        invariant forall k :: 0 <= k < i ==> mBuffer[k] == old(mBuffer[mBufferEnd + k])
        invariant forall k :: i <= k < mBuffer.Length ==> mBuffer[k] == old(mBuffer[k])
      {
        mBuffer[i] := mBuffer[mBufferEnd + i];
        i := i + 1;
      }
    }

    /** A fill appends exactly what was read; an error or a torn read changes no unread event. */
    method Fill(r: ReadResult<T>) returns (n: int)
      requires Valid() && (!r.Failed? ==> |r.events| <= mFreeSpace)
      modifies this`mHead, this`mFreeSpace, mBuffer
      ensures Valid() && mCurr == old(mCurr)
      ensures r.Got? || old(mFreeSpace) == 0 ==> n == if r.Got? then |r.events| else 0
      ensures !r.Got? && old(mFreeSpace) > 0 ==> n == if r.Failed? then -(r.errno as int) else -EINVAL
      ensures Contents() == old(Contents()) + if r.Got? then r.events else []
    {
      ghost var before := Contents();
      n := 0;
      if mFreeSpace > 0 {
        match r {
          case Failed(errno) => return -(errno as int);
          case Torn(events) =>
            WriteAtHead(events);
            assert Contents() == before;
            return -EINVAL;
          case Got(events) =>
            n := |events|;
            if n > 0 {
              Append(events);
            }
        }
      }
      assert n == 0 ==> before + [] == before;
    }

    method Append(events: seq<T>)
      requires Valid() && 0 < |events| <= mFreeSpace
      modifies this`mHead, this`mFreeSpace, mBuffer
      ensures Valid() && mCurr == old(mCurr) && Contents() == old(Contents()) + events
    {
      ghost var before := Contents();
      WriteAtHead(events);
      mHead := mHead + |events|;
      mFreeSpace := mFreeSpace - |events|;
      if mHead > mBufferEnd {
        var s := mHead - mBufferEnd;
        CopyToFront(s);
        mHead := s;
      }
      assert Contents() == before + events;
    }

    method ReadEvent() returns (available: bool, at: nat)
      requires Valid()
      ensures available == (Contents() != []) && at == mCurr
      ensures available ==> at < mBuffer.Length && mBuffer[at] == Contents()[0]
    {
      available, at := mBufferEnd - mFreeSpace != 0, mCurr;
    }

    method Next()
      requires Valid() && Contents() != []
      modifies this`mCurr, this`mFreeSpace
      ensures Valid() && Contents() == old(Contents())[1..]
    {
      ghost var before := Contents();
      mCurr := mCurr + 1;
      mFreeSpace := mFreeSpace + 1;
      if mCurr >= mBufferEnd {
        mCurr := 0;
      }
      assert Contents() == before[1..];
    }
  }
}
