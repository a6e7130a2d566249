/** Across every run of the scan cache: conservation, eviction of an oldest entry, one entry a network, and what an expiry pass keeps. */
module ScanCacheRun {
  import opened Wrappers
  import opened Lists
  import opened ScanCache

  /** createbss_cmd_callback outside AP mode: it adds without looking for a match. */
  function Created(c: Cache, network: Network, now: Ticks): (r: Cache)
    requires (forall i :: 0 <= i < |c.scanned| ==> c.scanned[i] < |c.entries|) && (c.free != [] ==> c.free[0] < |c.entries|)
  {
    if c.free != [] then Added(c, network, now)
    else
      var o := Oldest(c.entries, c.scanned, None, true);
      if o.None? then c else Replaced(c, o.value, Entry(network, c.entries[o.value].fixed, now))
  }

  datatype Event =
    | Survey(target: Network, now: Ticks, ant: Antenna)
    | Expire(all: bool, now: Ticks, adhoc: bool)
    | FreeOne(x: nat)
    | FreeScanqueue
    | SetFixed(x: nat, fixed: bool) // set when a network is joined, cleared when it is left
    | CreateBss(network: Network, now: Ticks)

  function Step(c: Cache, e: Event): (r: Cache)
    requires (forall i :: 0 <= i < |c.scanned| ==> c.scanned[i] < |c.entries|) && (c.free != [] ==> c.free[0] < |c.entries|)
  {
    match e
    case Survey(target, now, ant) => Updated(c, target, now, ant)
    case Expire(all, now, adhoc) => FreedEach(c, c.scanned, all, now, adhoc)
    case FreeOne(x) => if x in c.scanned && !c.entries[x].fixed then Released(c, x) else c
    case FreeScanqueue => Cache(c.free + c.scanned, [], c.count - |c.scanned|, c.entries)
    case SetFixed(x, fixed) => if x in c.scanned then Replaced(c, x, c.entries[x].(fixed := fixed)) else c
    case CreateBss(network, now) => Created(c, network, now)
  }

  // Conservation.

  lemma ReleasedKeepsInv(c: Cache, x: nat)
    requires Inv(c) && x in c.scanned
    ensures Inv(Released(c, x))
  {
    var i :| 0 <= i < |c.scanned| && c.scanned[i] == x;
    PartsOk(c);
    SplitReleased(c, c.scanned[..i], x, c.scanned[i + 1..]);
  }

  lemma SplitReleased(c: Cache, kept: seq<nat>, x: nat, rest: seq<nat>)
    requires Inv(c) && c.scanned == kept + [x] + rest && NoDup(c.scanned)
    ensures Inv(Released(c, x))
  {
    WithoutSplit(kept, x, rest);
    Moved(c.free, kept, x, rest);
    WithinMoved(c.free, kept, x, rest);
  }

  lemma WithinMoved(free: seq<nat>, kept: seq<nat>, x: nat, rest: seq<nat>)
    requires Within(free) && Within(kept + [x] + rest)
    ensures Within(free + [x]) && Within(kept + rest)
  {
    var q := kept + [x] + rest;
    assert q[|kept|] == x;
    assert forall i :: 0 <= i < |kept + rest| ==> (kept + rest)[i] == q[if i < |kept| then i else i + 1];
  }

  lemma Moved(free: seq<nat>, kept: seq<nat>, x: nat, rest: seq<nat>)
    requires NoDup(free + (kept + [x] + rest))
    ensures NoDup((free + [x]) + (kept + rest))
  {
    var q, r := free + (kept + [x] + rest), (free + [x]) + (kept + rest);
    var n, k := |free|, |kept|;
    assert forall i :: 0 <= i < |r| ==> r[i] == q[if i < n then i else if i == n then n + k else if i <= n + k then i - 1 else i];
  }

  lemma AddedKeepsInv(c: Cache, network: Network, now: Ticks)
    requires Inv(c) && c.free != []
    ensures Inv(Added(c, network, now))
  {
    var q, r := c.free + c.scanned, c.free[1..] + (c.scanned + [c.free[0]]);
    assert forall i :: 0 <= i < |r| ==> r[i] == if i < |r| - 1 then q[i + 1] else q[0];
  }

  lemma {:induction false} FreedEachKeepsInv(c: Cache, q: seq<nat>, all: bool, now: Ticks, adhoc: bool)
    requires Inv(c) && NoDup(q) && forall i :: 0 <= i < |q| ==> q[i] in c.scanned
    ensures Inv(FreedEach(c, q, all, now, adhoc))
    decreases |q|
  {
    if q != [] {
      if !Stays(c.entries[q[0]], all, now, adhoc) {
        ReleasedKeepsInv(c, q[0]);
      }
      FreedEachKeepsInv(Freed(c, q[0], all, now, adhoc), q[1..], all, now, adhoc);
    }
  }

  lemma StepKeepsInv(c: Cache, e: Event)
    requires Inv(c)
    ensures Inv(Step(c, e))
  {
    PartsOk(c);
    match e
    case Survey(target, _, ant) =>
      if c.free != [] {
        AddedKeepsInv(c, target.(antenna := ant.current), e.now);
      }
    case Expire(all, now, adhoc) => FreedEachKeepsInv(c, c.scanned, all, now, adhoc);
    case FreeOne(x) =>
      if x in c.scanned {
        ReleasedKeepsInv(c, x);
      }
    case FreeScanqueue => assert c.free + c.scanned + [] == c.free + c.scanned;
    case SetFixed(_, _) =>
    case CreateBss(network, now) =>
      if c.free != [] {
        AddedKeepsInv(c, network, now);
      }
  }

  // Eviction.

  /** Ticks since a base, across the wrap of the counter. */
  function Since(base: Ticks, t: Ticks): (r: nat) {
    (t - base) % 0x1_0000_0000
  }

  lemma TimeAfterIs(base: Ticks, a: Ticks, b: Ticks)
    requires Since(base, a) < 0x8000_0000 && Since(base, b) < 0x8000_0000
    ensures TimeAfter(a, b) <==> Since(base, a) > Since(base, b)
  {
    var d := Since(base, b) - Since(base, a);
    assert (b - a) % 0x1_0000_0000 == d % 0x1_0000_0000;
  }

  ghost predicate InWindow(entries: seq<Entry>, x: nat, base: Ticks) {
    x < |entries| && Since(base, entries[x].lastScanned) < 0x8000_0000
  }

  /** The loop considers the entry: update_scanned_network all of them, get_oldest_wlan_network those not fixed. */
  ghost predicate Considered(entries: seq<Entry>, x: nat, skipFixed: bool) {
    x < |entries| && !(skipFixed && entries[x].fixed)
  }

  /**
   If the stamps lie within half the range of the counter, wherever it wraps, the choice is one of the
   entries considered with the smallest stamp; there is none if and only if none is considered.
   */
  lemma {:induction false} OldestIsMinimal(entries: seq<Entry>, q: seq<nat>, oldest: Option<nat>, skipFixed: bool, base: Ticks)
    requires forall i :: 0 <= i < |q| ==> q[i] < |entries|
    requires forall i :: 0 <= i < |q| && Considered(entries, q[i], skipFixed) ==> InWindow(entries, q[i], base)
    requires oldest.Some? ==> oldest.value < |entries| && InWindow(entries, oldest.value, base)
    ensures var r := Oldest(entries, q, oldest, skipFixed);
      && (r.Some? <==> oldest.Some? || exists i :: 0 <= i < |q| && Considered(entries, q[i], skipFixed))
      && (r.Some? ==> r == oldest || (r.value in q && Considered(entries, r.value, skipFixed)))
      && (r.Some? ==> InWindow(entries, r.value, base) && AtMost(entries, r.value, q, skipFixed, base))
      && (r.Some? && oldest.Some? ==> Since(base, entries[r.value].lastScanned) <= Since(base, entries[oldest.value].lastScanned))
    decreases |q|
  {
    if q != [] {
      assert q == [q[0]] + q[1..];
      var considered := Considered(entries, q[0], skipFixed);
      if considered && oldest.Some? {
        TimeAfterIs(base, entries[oldest.value].lastScanned, entries[q[0]].lastScanned);
      }
      var first := considered && (oldest.None? || TimeAfter(entries[oldest.value].lastScanned, entries[q[0]].lastScanned));
      OldestIsMinimal(entries, q[1..], if first then Some(q[0]) else oldest, skipFixed, base);
    }
  }

  ghost predicate AtMost(entries: seq<Entry>, x: nat, q: seq<nat>, skipFixed: bool, base: Ticks)
    requires x < |entries|
  {
    forall i :: 0 <= i < |q| && Considered(entries, q[i], skipFixed) ==>
      Since(base, entries[x].lastScanned) <= Since(base, entries[q[i]].lastScanned)
  }

  /** A full cache gives up one of its entries with the smallest stamp, and only that one, for a network it does not hold. */
  lemma EvictsAnOldest(c: Cache, target: Network, now: Ticks, ant: Antenna, base: Ticks) returns (x: nat)
    requires Inv(c) && c.free == [] && FirstMatch(c.entries, c.scanned, target.key).None?
    requires forall i :: 0 <= i < |c.scanned| ==> InWindow(c.entries, c.scanned[i], base)
    ensures x in c.scanned && x < |c.entries| && AtMost(c.entries, x, c.scanned, false, base)
    ensures Updated(c, target, now, ant) == Replaced(c, x, Entry(target.(antenna := ant.current), false, now))
  {
    PartsOk(c);
    assert Considered(c.entries, c.scanned[0], false);
    OldestIsMinimal(c.entries, c.scanned, None, false, base);
    x := Oldest(c.entries, c.scanned, None, false).value;
  }

  // What an expiry pass keeps.

  /** The entries of a list that _free_network leaves alone, and those it takes, in order. */
  function Staying(entries: seq<Entry>, q: seq<nat>, all: bool, now: Ticks, adhoc: bool): (r: seq<nat>)
    requires forall i :: 0 <= i < |q| ==> q[i] < |entries|
  {
    if q == [] then []
    else (if Stays(entries[q[0]], all, now, adhoc) then [q[0]] else []) + Staying(entries, q[1..], all, now, adhoc)
  }

  function Leaving(entries: seq<Entry>, q: seq<nat>, all: bool, now: Ticks, adhoc: bool): (r: seq<nat>)
    requires forall i :: 0 <= i < |q| ==> q[i] < |entries|
  {
    if q == [] then []
    else (if Stays(entries[q[0]], all, now, adhoc) then [] else [q[0]]) + Leaving(entries, q[1..], all, now, adhoc)
  }

  function PassResult(c: Cache, kept: seq<nat>, rest: seq<nat>, all: bool, now: Ticks, adhoc: bool): (r: Cache)
    requires forall i :: 0 <= i < |rest| ==> rest[i] < |c.entries|
  {
    var gone := Leaving(c.entries, rest, all, now, adhoc);
    Cache(c.free + gone, kept + Staying(c.entries, rest, all, now, adhoc), c.count - |gone|, c.entries)
  }

  lemma ResultStep(c: Cache, kept: seq<nat>, rest: seq<nat>, all: bool, now: Ticks, adhoc: bool)
    requires rest != [] && forall i :: 0 <= i < |rest| ==> rest[i] < |c.entries|
    ensures PassResult(c, kept, rest, all, now, adhoc) ==
      if Stays(c.entries[rest[0]], all, now, adhoc) then PassResult(c, kept + [rest[0]], rest[1..], all, now, adhoc)
      else PassResult(Cache(c.free + [rest[0]], kept + rest[1..], c.count - 1, c.entries), kept, rest[1..], all, now, adhoc)
  {
    var gone, stay := Leaving(c.entries, rest[1..], all, now, adhoc), Staying(c.entries, rest[1..], all, now, adhoc);
    assert kept + [rest[0]] + stay == kept + ([rest[0]] + stay);
    assert c.free + [rest[0]] + gone == c.free + ([rest[0]] + gone);
    assert [] + gone == gone && [] + stay == stay;
  }

  /** The pass over a list of which `kept` has been passed: deletion during the walk skips and repeats nothing. */
  lemma {:induction false} PassIs(c: Cache, kept: seq<nat>, rest: seq<nat>, all: bool, now: Ticks, adhoc: bool)
    requires c.scanned == kept + rest && NoDup(c.scanned) && forall i :: 0 <= i < |rest| ==> rest[i] < |c.entries|
    ensures FreedEach(c, rest, all, now, adhoc) == PassResult(c, kept, rest, all, now, adhoc)
    decreases |rest|
  {
    if rest == [] {
      assert c.free + [] == c.free && kept + [] == c.scanned;
    } else {
      WalkStep(kept, rest);
      ResultStep(c, kept, rest, all, now, adhoc);
      var stays := Stays(c.entries[rest[0]], all, now, adhoc);
      PassIs(Freed(c, rest[0], all, now, adhoc), if stays then kept + [rest[0]] else kept, rest[1..], all, now, adhoc);
    }
  }

  /** An expiry pass keeps exactly the fixed or fresh entries, in order; the others join the pool, in order. */
  lemma ExpiryKeeps(c: Cache, all: bool, now: Ticks, adhoc: bool)
    requires Inv(c)
    ensures var d := Step(c, Expire(all, now, adhoc));
      && d.scanned == Staying(c.entries, c.scanned, all, now, adhoc)
      && d.free == c.free + Leaving(c.entries, c.scanned, all, now, adhoc)
      && d.entries == c.entries && d.count == |d.scanned|
  {
    PartsOk(c);
    PassIs(c, [], c.scanned, all, now, adhoc);
    assert [] + Staying(c.entries, c.scanned, all, now, adhoc) == Staying(c.entries, c.scanned, all, now, adhoc);
    StepKeepsInv(c, Expire(all, now, adhoc));
  }

  // One entry a network.

  ghost predicate KeysApart(entries: seq<Entry>, q: seq<nat>)
    requires forall i :: 0 <= i < |q| ==> q[i] < |entries|
  {
    forall i, j :: 0 <= i < j < |q| ==> entries[q[i]].network.key != entries[q[j]].network.key
  }

  ghost predicate Unique(c: Cache)
    requires forall i :: 0 <= i < |c.scanned| ==> c.scanned[i] < |c.entries|
  {
    KeysApart(c.entries, c.scanned)
  }

  lemma ApartWithout(entries: seq<Entry>, kept: seq<nat>, x: nat, rest: seq<nat>)
    requires (forall i :: 0 <= i < |kept + [x] + rest| ==> (kept + [x] + rest)[i] < |entries|)
    requires KeysApart(entries, kept + [x] + rest)
    ensures (forall i :: 0 <= i < |kept + rest| ==> (kept + rest)[i] < |entries|) && KeysApart(entries, kept + rest)
  {
    var q, r, k := kept + [x] + rest, kept + rest, |kept|;
    assert forall i :: 0 <= i < |r| ==> r[i] == q[if i < k then i else i + 1];
  }

  lemma AddedKeepsUnique(c: Cache, network: Network, now: Ticks)
    requires Inv(c) && Unique(c) && c.free != [] && FirstMatch(c.entries, c.scanned, network.key).None?
    ensures Inv(Added(c, network, now)) && Unique(Added(c, network, now))
  {
    AddedKeepsInv(c, network, now);
    var all, n := c.free + c.scanned, |c.free|;
    forall i | 0 <= i < |c.scanned|
      ensures c.scanned[i] != c.free[0]
    {
      assert all[n + i] == c.scanned[i] && all[0] == c.free[0];
    }
  }

  /** Overwriting an entry keeps the keys apart if no other entry has the new key. */
  lemma ReplacedKeepsUnique(c: Cache, x: nat, e: Entry)
    requires Inv(c) && Unique(c) && x in c.scanned
    requires forall i :: 0 <= i < |c.scanned| && c.scanned[i] != x ==> c.entries[c.scanned[i]].network.key != e.network.key
    ensures Inv(Replaced(c, x, e)) && Unique(Replaced(c, x, e))
  {
    PartsOk(c);
  }

  lemma MatchIsAlone(c: Cache, x: nat)
    requires Inv(c) && Unique(c) && x in c.scanned
    ensures forall i :: 0 <= i < |c.scanned| && c.scanned[i] != x ==> c.entries[c.scanned[i]].network.key != c.entries[x].network.key
  {
    var k :| 0 <= k < |c.scanned| && c.scanned[k] == x;
    assert forall i :: 0 <= i < |c.scanned| && i != k ==>
      c.entries[c.scanned[i]].network.key != c.entries[c.scanned[k]].network.key by {
      forall i | 0 <= i < |c.scanned| && i != k
        ensures c.entries[c.scanned[i]].network.key != c.entries[c.scanned[k]].network.key
      {
        assert if i < k then 0 <= i < k < |c.scanned| else 0 <= k < i < |c.scanned|;
      }
    }
  }

  lemma SurveyKeepsUnique(c: Cache, target: Network, now: Ticks, ant: Antenna)
    requires Inv(c) && Unique(c)
    ensures Inv(Updated(c, target, now, ant)) && Unique(Updated(c, target, now, ant))
  {
    StepKeepsInv(c, Survey(target, now, ant));
    var m := FirstMatch(c.entries, c.scanned, target.key);
    if m.Some? {
      MatchIsAlone(c, m.value);
      ReplacedKeepsUnique(c, m.value, c.entries[m.value].(network := Merged(c.entries[m.value].network, target, ant), lastScanned := now));
    } else if c.free != [] {
      AddedKeepsUnique(c, target.(antenna := ant.current), now);
    } else {
      var x := EvictedIsScanned(c);
      ReplacedKeepsUnique(c, x, Entry(target.(antenna := ant.current), false, now));
    }
  }

  lemma {:induction false} OldestScanned(entries: seq<Entry>, q: seq<nat>, oldest: Option<nat>)
    requires (forall i :: 0 <= i < |q| ==> q[i] < |entries|) && (oldest.Some? ==> oldest.value < |entries|)
    ensures var r := Oldest(entries, q, oldest, false);
      r.Some? ==> r.value in q || r == oldest
    decreases |q|
  {
    if q != [] {
      OldestScanned(entries, q[1..], oldest);
      OldestScanned(entries, q[1..], Some(q[0]));
      assert q == [q[0]] + q[1..];
    }
  }

  lemma EvictedIsScanned(c: Cache) returns (x: nat)
    requires Inv(c) && c.free == []
    ensures x in c.scanned && Oldest(c.entries, c.scanned, None, false) == Some(x)
  {
    OldestExists(c);
    OldestScanned(c.entries, c.scanned, None);
    x := Oldest(c.entries, c.scanned, None, false).value;
  }

  lemma ReleasedKeepsUnique(c: Cache, x: nat)
    requires Inv(c) && Unique(c) && x in c.scanned
    ensures Inv(Released(c, x)) && Unique(Released(c, x))
  {
    ReleasedKeepsInv(c, x);
    PartsOk(c);
    var k :| 0 <= k < |c.scanned| && c.scanned[k] == x;
    var kept, rest := c.scanned[..k], c.scanned[k + 1..];
    assert c.scanned == kept + [x] + rest;
    WithoutSplit(kept, x, rest);
    ApartWithout(c.entries, kept, x, rest);
  }

  lemma {:induction false} FreedEachKeepsUnique(c: Cache, q: seq<nat>, all: bool, now: Ticks, adhoc: bool)
    requires Inv(c) && Unique(c) && NoDup(q) && forall i :: 0 <= i < |q| ==> q[i] in c.scanned
    ensures Inv(FreedEach(c, q, all, now, adhoc)) && Unique(FreedEach(c, q, all, now, adhoc))
    decreases |q|
  {
    if q != [] {
      if !Stays(c.entries[q[0]], all, now, adhoc) {
        ReleasedKeepsUnique(c, q[0]);
      }
      FreedEachKeepsUnique(Freed(c, q[0], all, now, adhoc), q[1..], all, now, adhoc);
    }
  }

  lemma StepKeepsUnique(c: Cache, e: Event)
    requires Inv(c) && Unique(c) && !e.CreateBss?
    ensures Inv(Step(c, e)) && Unique(Step(c, e))
  {
    StepKeepsInv(c, e);
    PartsOk(c);
    match e
    case Survey(target, now, ant) => SurveyKeepsUnique(c, target, now, ant);
    case Expire(all, now, adhoc) => FreedEachKeepsUnique(c, c.scanned, all, now, adhoc);
    case FreeOne(x) =>
      if x in c.scanned {
        ReleasedKeepsUnique(c, x);
      }
    case FreeScanqueue =>
    case SetFixed(x, fixed) =>
      if x in c.scanned {
        MatchIsAlone(c, x);
        ReplacedKeepsUnique(c, x, c.entries[x].(fixed := fixed));
      }
  }

  /** A beacon never replaces a longer record of its network. */
  ghost predicate WasSkipped(c: Cache, target: Network)
    requires Inv(c)
  {
    var m := FirstMatch(c.entries, c.scanned, target.key);
    m.Some? && Skipped(c.entries[m.value], target)
  }

  /**
   After an update exactly one entry is the network of the target. Unless the update was skipped it bears the time
   of the update and the length of the target.
   */
  lemma UpdateLeavesOne(c: Cache, target: Network, now: Ticks, ant: Antenna) returns (x: nat)
    requires Inv(c) && Unique(c)
    ensures var d := Updated(c, target, now, ant);
      && x in d.scanned && x < |d.entries| && d.entries[x].network.key == target.key
      && (forall i :: 0 <= i < |d.scanned| && d.scanned[i] != x ==> d.entries[d.scanned[i]].network.key != target.key)
      && (if WasSkipped(c, target) then d == c else d.entries[x].lastScanned == now && d.entries[x].network.ieLength == target.ieLength)
  {
    SurveyKeepsUnique(c, target, now, ant);
    var m, d := FirstMatch(c.entries, c.scanned, target.key), Updated(c, target, now, ant);
    if m.Some? {
      x := m.value;
    } else if c.free != [] {
      x := c.free[0];
      assert d.scanned[|c.scanned|] == x;
    } else {
      x := EvictedIsScanned(c);
    }
    MatchIsAlone(d, x);
  }

  function Run(c: Cache, es: seq<Event>): (d: Cache)
    requires Inv(c)
    ensures Inv(d)
  {
    if es == [] then c
    else
      var before := Run(c, es[..|es| - 1]);
      StepKeepsInv(before, es[|es| - 1]);
      Step(before, es[|es| - 1])
  }

  lemma {:induction false} RunKeepsUnique(c: Cache, es: seq<Event>)
    requires Inv(c) && Unique(c) && forall k :: 0 <= k < |es| ==> !es[k].CreateBss?
    ensures Unique(Run(c, es))
  {
    if es != [] {
      RunKeepsUnique(c, es[..|es| - 1]);
      StepKeepsUnique(Run(c, es[..|es| - 1]), es[|es| - 1]);
    }
  }
}
