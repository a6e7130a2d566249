/** The scan-result cache: a free pool and a scanned queue over MAX_BSS_CNT entries. */
module ScanCache {
  import opened Wrappers
  import opened Lists
  import opened MacAddress

  const MAX_BSS_CNT: nat := 64
  const SCANQUEUE_LIFETIME: nat := 20

  /** get_current_time: a 32-bit tick counter that wraps, HZ ticks to the second. */
  type Ticks = t: int | 0 <= t < 0x1_0000_0000
  type TickRate = r: nat | 0 < r witness 100
  const HZ: TickRate

  /** What is_same_network compares. */
  datatype Key = Key(ssid: seq<char>, channel: nat, mac: Mac, ibss: bool, ess: bool)

  /** The parts of WLAN_BSSID_EX that decide an update; `beacon` is Reserved[0] == 1. */
  datatype Network = Network(key: Key, ieLength: nat, beacon: bool, rssi: int, antenna: nat)

  datatype Entry = Entry(network: Network, fixed: bool, lastScanned: Ticks)

  datatype Cache = Cache(free: seq<nat>, scanned: seq<nat>, count: int, entries: seq<Entry>)

  /** The fields the driver may have changed for the antenna: whether it compares, and the current antenna. */
  datatype Antenna = Antenna(compares: bool, current: nat)

  ghost predicate Within(q: seq<nat>) {
    forall i :: 0 <= i < |q| ==> q[i] < MAX_BSS_CNT
  }

  /** free_bss_pool and scanned_queue partition the entries, and num_of_scanned is the scanned length. */
  ghost predicate Inv(c: Cache) {
    && |c.entries| == MAX_BSS_CNT && Within(c.free) && Within(c.scanned)
    && NoDup(c.free + c.scanned) && |c.free| + |c.scanned| == MAX_BSS_CNT
    && c.count == |c.scanned|
  }

  /** time_after on 32-bit ticks */
  predicate TimeAfter(a: Ticks, b: Ticks) {
    (b - a) % 0x1_0000_0000 >= 0x8000_0000
  }

  function Lifetime(adhoc: bool): (r: nat) {
    if adhoc then 1 else SCANQUEUE_LIFETIME
  }

  predicate Fresh(e: Entry, now: Ticks, adhoc: bool) {
    (now - e.lastScanned) % 0x1_0000_0000 / HZ < Lifetime(adhoc)
  }

  /** Does _free_network leave the entry alone? */
  predicate Stays(e: Entry, all: bool, now: Ticks, adhoc: bool) {
    e.fixed || (!all && Fresh(e, now, adhoc))
  }

  /** list_delete, list_insert_tail and the counter. */
  function Released(c: Cache, x: nat): (r: Cache) {
    c.(free := c.free + [x], scanned := Without(c.scanned, x), count := c.count - 1)
  }

  function Freed(c: Cache, x: nat, all: bool, now: Ticks, adhoc: bool): (r: Cache)
    requires x < |c.entries|
  {
    if Stays(c.entries[x], all, now, adhoc) then c else Released(c, x)
  }

  /** _free_network on each entry of a list in turn. */
  function FreedEach(c: Cache, q: seq<nat>, all: bool, now: Ticks, adhoc: bool): (r: Cache)
    requires forall i :: 0 <= i < |q| ==> q[i] < |c.entries|
    decreases |q|
  {
    if q == [] then c else FreedEach(Freed(c, q[0], all, now, adhoc), q[1..], all, now, adhoc)
  }

  /** The first scanned entry that is the same network as the target. */
  function FirstMatch(entries: seq<Entry>, q: seq<nat>, key: Key): (r: Option<nat>)
    requires forall i :: 0 <= i < |q| ==> q[i] < |entries|
    ensures r.Some? ==> r.value in q && r.value < |entries| && entries[r.value].network.key == key
    ensures r.None? ==> forall i :: 0 <= i < |q| ==> entries[q[i]].network.key != key
  {
    if q == [] then None
    else if entries[q[0]].network.key == key then Some(q[0])
    else FirstMatch(entries, q[1..], key)
  }

  /** The loops' choice of the oldest entry, going on from `oldest`; `skipFixed` tells the two loops apart. */
  function Oldest(entries: seq<Entry>, q: seq<nat>, oldest: Option<nat>, skipFixed: bool): (r: Option<nat>)
    requires forall i :: 0 <= i < |q| ==> q[i] < |entries|
    requires oldest.Some? ==> oldest.value < |entries|
    ensures r.Some? ==> r.value < |entries|
  {
    if q == [] then oldest
    else if skipFixed && entries[q[0]].fixed then Oldest(entries, q[1..], oldest, skipFixed)
    else if oldest.None? || TimeAfter(entries[oldest.value].lastScanned, entries[q[0]].lastScanned) then
      Oldest(entries, q[1..], Some(q[0]), skipFixed)
    else Oldest(entries, q[1..], oldest, skipFixed)
  }

  /** update_network, with SwAntDivCompare8192C before the copy. */
  function Merged(dst: Network, src: Network, ant: Antenna): (r: Network) {
    if ant.compares && dst.rssi >= src.rssi then src.(rssi := dst.rssi, antenna := dst.antenna) else src
  }

  function Replaced(c: Cache, x: nat, e: Entry): (r: Cache)
    requires x < |c.entries|
  {
    c.(entries := c.entries[x := e])
  }

  /** _alloc_network at the head of the pool, then list_insert_tail into the scanned queue. */
  function Added(c: Cache, network: Network, now: Ticks): (r: Cache)
    requires c.free != [] && c.free[0] < |c.entries|
  {
    Cache(c.free[1..], c.scanned + [c.free[0]], c.count + 1, c.entries[c.free[0] := Entry(network, false, now)])
  }

  predicate Skipped(e: Entry, target: Network) {
    e.network.ieLength > target.ieLength && target.beacon
  }

  /** update_scanned_network */
  function Updated(c: Cache, target: Network, now: Ticks, ant: Antenna): (r: Cache)
    requires forall i :: 0 <= i < |c.scanned| ==> c.scanned[i] < |c.entries|
    requires c.free != [] ==> c.free[0] < |c.entries|
  {
    var m := FirstMatch(c.entries, c.scanned, target.key);
    if m.Some? then
      var e := c.entries[m.value];
      if Skipped(e, target) then c
      else Replaced(c, m.value, e.(network := Merged(e.network, target, ant), lastScanned := now))
    else if c.free == [] then
      var o := Oldest(c.entries, c.scanned, None, false);
      if o.None? then c else Replaced(c, o.value, Entry(target.(antenna := ant.current), false, now))
    else Added(c, target.(antenna := ant.current), now)
  }

  class MlmePriv {
    var free: seq<nat>
    var scanned: seq<nat>
    var numOfScanned: int
    const entries: array<Entry>

    ghost function View(): (r: Cache)
      reads this, entries
    {
      Cache(free, scanned, numOfScanned, entries[..])
    }

    constructor (blank: Entry)
      ensures fresh(entries) && Inv(View()) && scanned == []
    {
      entries := new Entry[MAX_BSS_CNT](_ => blank);
      free := seq(MAX_BSS_CNT, i requires 0 <= i => i);
      scanned := [];
      numOfScanned := 0;
      new;
      assert free + scanned == free;
    }

    method AllocNetwork(now: Ticks) returns (r: Option<nat>)
      requires Within(free) && entries.Length == MAX_BSS_CNT
      modifies this`free, this`numOfScanned, entries
      ensures r == First(old(free)) && scanned == old(scanned)
      ensures r.None? ==> View() == old(View())
      ensures r.Some? ==> free == old(free)[1..] && numOfScanned == old(numOfScanned) + 1
      ensures r.Some? ==> entries[..] == old(entries[..])[r.value := Entry(old(entries[r.value].network), false, now)]
    {
      if free == [] {
        return None;
      }
      var x := free[0];
      free := free[1..];
      entries[x] := Entry(entries[x].network, false, now);
      numOfScanned := numOfScanned + 1;
      return Some(x);
    }

    method FreeNetwork(x: nat, all: bool, now: Ticks, adhoc: bool)
      requires x < entries.Length
      modifies this`free, this`scanned, this`numOfScanned
      ensures View() == Freed(old(View()), x, all, now, adhoc)
    {
      if entries[x].fixed {
        return;
      }
      var lifetime := SCANQUEUE_LIFETIME;
      if adhoc {
        lifetime := 1;
      }
      if !all {
        var delta := (now - entries[x].lastScanned) % 0x1_0000_0000 / HZ;
        if delta < lifetime {
          return;
        }
      }
      scanned := Without(scanned, x);
      free := free + [x];
      numOfScanned := numOfScanned - 1;
    }

    method FreeNetworkNolock(x: nat)
      requires x < entries.Length
      modifies this`free, this`scanned, this`numOfScanned
      ensures View() == if entries[x].fixed then old(View()) else Released(old(View()), x)
    {
      if entries[x].fixed {
        return;
      }
      scanned := Without(scanned, x);
      free := free + [x];
      numOfScanned := numOfScanned - 1;
    }

    /** _free_network_queue: the next node is read before the entry may leave the list. */
    method FreeNetworkQueue(all: bool, now: Ticks, adhoc: bool)
      requires entries.Length == MAX_BSS_CNT && Within(scanned) && NoDup(scanned)
      modifies this`free, this`scanned, this`numOfScanned
      ensures View() == FreedEach(old(View()), old(scanned), all, now, adhoc)
    {
      ghost var kept: seq<nat>, rest := [], scanned;
      var plist := First(scanned);
      while plist.Some?
        invariant scanned == kept + rest && NoDup(scanned) && plist == First(rest)
        invariant Within(rest)
        invariant FreedEach(View(), rest, all, now, adhoc) == FreedEach(old(View()), old(scanned), all, now, adhoc)
        decreases |rest|
      {
        var x := plist.value;
        WalkStep(kept, rest);
        plist := Next(scanned, x);
        if !Stays(entries[x], all, now, adhoc) {
          kept, rest := kept, rest[1..];
        } else {
          kept, rest := kept + [x], rest[1..];
        }
        FreeNetwork(x, all, now, adhoc);
      }
    }

    /** free_scanqueue: every entry goes back, fixed or not. */
    method FreeScanqueue()
      requires NoDup(scanned)
      modifies this`free, this`scanned, this`numOfScanned
      ensures View() == Cache(old(free) + old(scanned), [], old(numOfScanned) - |old(scanned)|, old(entries[..]))
    {
      ghost var done: seq<nat> := [];
      var plist := First(scanned);
      while plist.Some?
        invariant done + scanned == old(scanned) && NoDup(scanned) && plist == First(scanned)
        invariant free == old(free) + done && numOfScanned == old(numOfScanned) - |done|
        decreases |scanned|
      {
        var x := plist.value;
        WalkStep([], scanned);
        plist := Next(scanned, x);
        done := done + [x];
        scanned := Without(scanned, x);
        free := free + [x];
        numOfScanned := numOfScanned - 1;
      }
    }

    method GetOldestWlanNetwork() returns (oldest: Option<nat>)
      requires entries.Length == MAX_BSS_CNT && Within(scanned) && NoDup(scanned)
      ensures oldest == Oldest(entries[..], scanned, None, true)
    {
      oldest := None;
      ghost var kept: seq<nat>, rest := [], scanned;
      var plist := First(scanned);
      while plist.Some?
        invariant scanned == kept + rest && plist == First(rest) && Within(rest)
        invariant oldest.Some? ==> oldest.value < entries.Length
        invariant Oldest(entries[..], rest, oldest, true) == Oldest(entries[..], scanned, None, true)
        decreases |rest|
      {
        var x := plist.value;
        WalkStep(kept, rest);
        if !entries[x].fixed && (oldest.None? || TimeAfter(entries[oldest.value].lastScanned, entries[x].lastScanned)) {
          oldest := Some(x);
        }
        plist := Next(scanned, x);
        kept, rest := kept + [x], rest[1..];
      }
    }

    /** The search of update_scanned_network: the entry it stops at, and the oldest of those before it. */
    method Search(key: Key) returns (found: Option<nat>, oldest: Option<nat>)
      requires entries.Length == MAX_BSS_CNT && Within(scanned) && NoDup(scanned)
      ensures found == FirstMatch(entries[..], scanned, key)
      ensures found.None? ==> oldest == Oldest(entries[..], scanned, None, false)
    {
      oldest := None;
      ghost var kept: seq<nat>, rest := [], scanned;
      var plist := First(scanned);
      while plist.Some?
        invariant scanned == kept + rest && plist == First(rest) && Within(rest)
        invariant oldest.Some? ==> oldest.value < entries.Length
        invariant Oldest(entries[..], rest, oldest, false) == Oldest(entries[..], scanned, None, false)
        invariant FirstMatch(entries[..], rest, key) == FirstMatch(entries[..], scanned, key)
        decreases |rest|
      {
        var x := plist.value;
        if entries[x].network.key == key {
          return Some(x), oldest;
        }
        WalkStep(kept, rest);
        if oldest.None? || TimeAfter(entries[oldest.value].lastScanned, entries[x].lastScanned) {
          oldest := Some(x);
        }
        plist := Next(scanned, x);
        kept, rest := kept + [x], rest[1..];
      }
      return None, oldest;
    }

    method UpdateScannedNetwork(target: Network, now: Ticks, ant: Antenna)
      requires Inv(View())
      modifies this, entries
      ensures View() == Updated(old(View()), target, now, ant)
    {
      PartsOk(View());
      var found, oldest := Search(target.key);
      if found.Some? {
        var x := found.value;
        if entries[x].network.ieLength > target.ieLength && target.beacon {
          return;
        }
        entries[x] := Entry(Merged(entries[x].network, target, ant), entries[x].fixed, now);
      } else if free == [] {
        OldestExists(View());
        entries[oldest.value] := Entry(target.(antenna := ant.current), false, now);
      } else {
        var r := AllocNetwork(now);
        entries[r.value] := entries[r.value].(network := target.(antenna := ant.current));
        scanned := scanned + [r.value];
      }
    }
  }

  lemma PartsOk(c: Cache)
    requires Inv(c)
    ensures NoDup(c.free) && NoDup(c.scanned)
  {
    var all := c.free + c.scanned;
    assert all[..|c.free|] == c.free && all[|c.free|..] == c.scanned;
  }

  /** One node of a walk that has seen `kept` and not yet `rest`. */
  lemma WalkStep(kept: seq<nat>, rest: seq<nat>)
    requires NoDup(kept + rest) && rest != []
    ensures var q, x := kept + rest, rest[0];
      && Next(q, x) == First(rest[1..]) && Without(q, x) == kept + rest[1..]
      && NoDup(kept + rest[1..]) && q == (kept + [x]) + rest[1..]
  {
    var q, x := kept + rest, rest[0];
    assert q == kept + [x] + rest[1..];
    NextSplit(kept, x, rest[1..]);
    WithoutSplit(kept, x, rest[1..]);
  }

  /** Eviction always has an entry to overwrite: with no free entry the scanned queue holds all of them. */
  lemma OldestExists(c: Cache)
    requires Inv(c) && c.free == []
    ensures Oldest(c.entries, c.scanned, None, false).Some?
  {
    OldestFound(c.entries, c.scanned, None);
  }

  lemma {:induction false} OldestFound(entries: seq<Entry>, q: seq<nat>, oldest: Option<nat>)
    requires (forall i :: 0 <= i < |q| ==> q[i] < |entries|) && (oldest.Some? ==> oldest.value < |entries|)
    ensures Oldest(entries, q, oldest, false).Some? <==> oldest.Some? || q != []
    decreases |q|
  {
    if q != [] {
      OldestFound(entries, q[1..], oldest);
      OldestFound(entries, q[1..], Some(q[0]));
    }
  }
}
