/** 48-bit MAC addresses and the hash that spreads stations over the chains. */
module MacAddress {

  const NUM_STA: nat := 32

  type Mac = m: seq<bv8> | |m| == 6 witness [0, 0, 0, 0, 0, 0]

  const BROADCAST: Mac := [0xff, 0xff, 0xff, 0xff, 0xff, 0xff]

  predicate IsMulticast(m: Mac) {
    m[0] & 1 == 1
  }

  /** The address a lookup really searches for. */
  function Canonical(m: Mac): (c: Mac)
    ensures c == BROADCAST <==> IsMulticast(m)
    ensures IsMulticast(c) ==> c == BROADCAST
  {
    if IsMulticast(m) then BROADCAST else m
  }

  /** The chain of an address; the range makes the guard `index >= NUM_STA` of the allocation dead. */
  function WifiMacHash(m: Mac): (h: nat)
    ensures h < NUM_STA
  {
    var x: bv32 := m[0] as bv32;
    var x := (x << 2) ^ m[1] as bv32;
    var x := (x << 2) ^ m[2] as bv32;
    var x := (x << 2) ^ m[3] as bv32;
    var x := (x << 2) ^ m[4] as bv32;
    var x := (x << 2) ^ m[5] as bv32;
    var x := x ^ (x >> 8);
    Low5(x)
  }

  function Low5(x: bv32): (h: nat)
    ensures h < NUM_STA
  {
    var y := x & 31;
    assert y <= 31;
    y as nat
  }
}
