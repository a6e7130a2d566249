/** Facts about duplicate-free lists: the kernel's intrusive lists, seen as sequences. */
module Lists {
  import opened Wrappers

  ghost predicate NoDup<T>(q: seq<T>) {
    forall i, j :: 0 <= i < j < |q| ==> q[i] != q[j]
  }

  lemma NoDupPrepend<T>(x: T, q: seq<T>)
    requires NoDup(q) && x !in q
    ensures NoDup([x] + q)
  {
  }

  /** The list after the node of `x` has been unlinked. */
  function Without<T(==,!new)>(q: seq<T>, x: T): (r: seq<T>)
    ensures forall y :: y in r <==> y in q && y != x
    ensures NoDup(q) ==> NoDup(r)
    ensures x !in q ==> r == q
    ensures NoDup(q) && x in q ==> |r| == |q| - 1
  {
    if q == [] then []
    else
      assert q == [q[0]] + q[1..];
      if q[0] == x then
        Without(q[1..], x)
      else
        var w := Without(q[1..], x);
        assert NoDup(q) ==> q[0] !in q[1..];
        assert NoDup(q) ==> NoDup([q[0]] + w) by {
          if NoDup(q) {
            assert q[0] !in w;
            NoDupPrepend(q[0], w);
          }
        }
        [q[0]] + w
  }

  lemma {:induction false} WithoutSplit<T(!new)>(done: seq<T>, x: T, rest: seq<T>)
    requires NoDup(done + [x] + rest)
    ensures Without(done + [x] + rest, x) == done + rest
  {
    var q := done + [x] + rest;
    if done == [] {
      assert q == [x] + rest;
      assert q[1..] == rest;
      assert forall k :: 0 <= k < |rest| ==> rest[k] == q[k + 1] && q[0] != q[k + 1];
      assert done + rest == rest;
    } else {
      assert q[0] == done[0] && q[|done|] == x;
      assert q[1..] == done[1..] + [x] + rest;
      WithoutSplit(done[1..], x, rest);
      assert done + rest == [done[0]] + (done[1..] + rest);
    }
  }

  lemma NoDupAppend<T>(q: seq<T>, x: T)
    requires NoDup(q) && x !in q
    ensures NoDup(q + [x])
  {
  }

  /** The node after `x`, or None at the end of the list: `plist = get_next(plist)`. */
  function First<T>(q: seq<T>): (r: Option<T>) {
    if q == [] then None else Some(q[0])
  }

  function Next<T(==)>(q: seq<T>, x: T): (r: Option<T>) {
    if q == [] then None
    else if q[0] == x then First(q[1..])
    else Next(q[1..], x)
  }

  lemma {:induction false} NextSplit<T>(done: seq<T>, x: T, rest: seq<T>)
    requires NoDup(done + [x] + rest)
    ensures Next(done + [x] + rest, x) == First(rest)
  {
    var q := done + [x] + rest;
    if done == [] {
      assert q[1..] == rest;
    } else {
      assert q[0] == done[0] && q[|done|] == x;
      assert q[1..] == done[1..] + [x] + rest;
      NextSplit(done[1..], x, rest);
    }
  }

  function TotalLength<T>(chains: seq<seq<T>>): (r: nat) {
    if chains == [] then 0 else |chains[0]| + TotalLength(chains[1..])
  }

  lemma {:induction false} TotalLengthUpdate<T>(chains: seq<seq<T>>, h: nat, chain: seq<T>)
    requires h < |chains|
    ensures TotalLength(chains[h := chain]) == TotalLength(chains) - |chains[h]| + |chain|
  {
    if h == 0 {
      assert chains[h := chain] == [chain] + chains[1..];
    } else {
      assert chains[h := chain] == [chains[0]] + chains[1..][h - 1 := chain];
      TotalLengthUpdate(chains[1..], h - 1, chain);
    }
  }
}
