/** The bit tricks of libaudio: rounding a size down to a power of two, and counting the bits of a word. */
module BitArithmetic {
  function Pow2(k: nat): (p: nat)
    ensures p > 0
  {
    if k == 0 then 1 else 2 * Pow2(k - 1)
  }

  /** `word & ~(1 << k)` */
  function ClearBit(word: nat, k: nat): (r: nat) {
    if k == 0 then word - word % 2 else 2 * ClearBit(word / 2, k - 1) + word % 2
  }

  /** The word with its `k` lowest bits cleared. */
  function High(x: nat, k: nat): (r: nat) {
    if k == 0 then x else 2 * High(x / 2, k - 1)
  }

  lemma {:induction false} ClearNext(x: nat, k: nat)
    ensures ClearBit(High(x, k), k) == High(x, k + 1)
  {
    if k > 0 {
      ClearNext(x / 2, k - 1);
    }
  }

  lemma {:induction false} HigherLeft(x: nat, k: nat)
    ensures High(x, k) != 0 ==> Pow2(k) <= x
    ensures High(x, k) == 0 ==> x < Pow2(k)
  {
    if k > 0 {
      HigherLeft(x / 2, k - 1);
    }
  }

  lemma {:induction false} LastLeft(x: nat, k: nat)
    requires Pow2(k) <= x < Pow2(k + 1)
    ensures High(x, k) == Pow2(k)
  {
    if k > 0 {
      LastLeft(x / 2, k - 1);
    }
  }

  lemma {:induction false} Pow2Grows(j: nat, k: nat)
    requires j <= k
    ensures Pow2(j) <= Pow2(k)
  {
    if j < k {
      Pow2Grows(j, k - 1);
    }
  }

  /** No power of two lies between such a power and the input. */
  lemma NoneBetween(k: nat, j: nat, x: nat)
    requires Pow2(k) <= x < Pow2(k + 1) && Pow2(j) <= x
    ensures Pow2(j) <= Pow2(k)
  {
    if j > k {
      Pow2Grows(k + 1, j);
    } else {
      Pow2Grows(j, k);
    }
  }

  /** r is the largest power of two not above x, or 0 for 0. */
  ghost predicate RoundedDown(x: nat, r: nat) {
    if x == 0 then r == 0 else (exists k :: r == Pow2(k)) && r <= x && forall j :: Pow2(j) <= x ==> Pow2(j) <= r
  }

  lemma Rounded(x: nat, k: nat)
    requires Pow2(k) <= x < Pow2(k + 1)
    ensures RoundedDown(x, Pow2(k))
  {
    forall j | Pow2(j) <= x
      ensures Pow2(j) <= Pow2(k)
    {
      NoneBetween(k, j, x);
    }
  }

  /** The loop of bufferSize() and, twice, of s_init, for words of any width; `k` is the bit that i holds. */
  method RoundDown(x: nat) returns (bytes: nat)
    ensures RoundedDown(x, bytes)
  {
    bytes := x;
    var k := 0;
    ClearNext(x, 0);
    HigherLeft(x, 1);
    while ClearBit(bytes, k) != 0
      invariant bytes == High(x, k) && ClearBit(bytes, k) == High(x, k + 1) && (x != 0 ==> bytes != 0)
      decreases x - k
    {
      HigherLeft(x, k + 1);
      Pow2Above(k + 1);
      bytes := ClearBit(bytes, k);
      k := k + 1;
      ClearNext(x, k);
    }
    HigherLeft(x, k);
    HigherLeft(x, k + 1);
    if x != 0 {
      LastLeft(x, k);
      Rounded(x, k);
    } else {
      HighOfZero(k);
    }
  }

  lemma {:induction false} Pow2Above(k: nat)
    ensures k < Pow2(k)
  {
    if k > 0 {
      Pow2Above(k - 1);
    }
  }

  lemma {:induction false} HighOfZero(k: nat)
    ensures High(0, k) == 0
  {
    if k > 0 {
      HighOfZero(k - 1);
    }
  }

  // Counting bits.

  type Word = x: int | 0 <= x < 0x1_0000_0000

  /** Bitwise and */
  function And(x: nat, y: nat): (r: nat)
    decreases x + y
  {
    if y == 0 then 0 else (if x % 2 == 1 && y % 2 == 1 then 1 else 0) + 2 * And(x / 2, y / 2)
  }

  /** The number of set bits among the `n` lowest. */
  function Ones(x: nat, n: nat): (r: nat)
    decreases n, x
  {
    if n == 0 then 0 else x % 2 + Ones(x / 2, n - 1)
  }

  lemma AndBit(x: nat, m: nat)
    ensures And(x, 1 + 2 * m) == x % 2 + 2 * And(x / 2, m) && And(x, 2 * m) == 2 * And(x / 2, m)
  {
  }

  lemma Split4(x: nat)
    ensures x % 4 == x % 2 + 2 * (x / 2 % 2) && x / 4 == x / 2 / 2
  {
  }

  lemma Split16(x: nat)
    ensures x % 16 == x % 4 + 4 * (x / 4 % 4) && x / 16 == x / 4 / 4
  {
  }

  lemma Split256(x: nat)
    ensures x % 256 == x % 16 + 16 * (x / 16 % 16) && x / 256 == x / 16 / 16
  {
  }

  lemma Split65536(x: nat)
    ensures x % 65536 == x % 256 + 256 * (x / 256 % 256) && x / 65536 == x / 256 / 256
  {
  }

  lemma AndPair(x: nat, m: nat)
    ensures And(x, 3 + 4 * m) == x % 4 + 4 * And(x / 4, m) && And(x, 4 * m) == 4 * And(x / 4, m)
  {
    AndBit(x, 1 + 2 * m);
    AndBit(x, 2 * m);
    AndBit(x / 2, m);
    Split4(x);
    assert 1 + 2 * (1 + 2 * m) == 3 + 4 * m && 2 * (2 * m) == 4 * m;
  }

  lemma AndNibble(x: nat, m: nat)
    ensures And(x, 15 + 16 * m) == x % 16 + 16 * And(x / 16, m) && And(x, 16 * m) == 16 * And(x / 16, m)
  {
    AndPair(x, 3 + 4 * m);
    AndPair(x, 4 * m);
    AndPair(x / 4, m);
    Split16(x);
    assert 3 + 4 * (3 + 4 * m) == 15 + 16 * m && 4 * (4 * m) == 16 * m;
  }

  lemma AndByte(x: nat, m: nat)
    ensures And(x, 255 + 256 * m) == x % 256 + 256 * And(x / 256, m) && And(x, 256 * m) == 256 * And(x / 256, m)
  {
    AndNibble(x, 15 + 16 * m);
    AndNibble(x, 16 * m);
    AndNibble(x / 16, m);
    Split256(x);
    assert 15 + 16 * (15 + 16 * m) == 255 + 256 * m && 16 * (16 * m) == 256 * m;
  }

  lemma AndHalf(x: nat)
    ensures And(x, 65535) == x % 65536
  {
    AndByte(x, 255);
    AndByte(x / 256, 0);
    Split65536(x);
    assert And(x / 256 / 256, 0) == 0;
  }

  /** `n` fields of 1 set bit, 2 bits apart: the mask of the stage that adds neighbouring fields of 1. */
  function Mask1(n: nat): (r: nat) {
    if n == 0 then 0 else 1 + 4 * Mask1(n - 1)
  }

  function Stage1(x: nat, n: nat): (r: nat) {
    And(x, Mask1(n)) + And(x / 2, Mask1(n))
  }

  lemma Masked1(x: nat, n: nat)
    requires n > 0
    ensures And(x, Mask1(n)) == x % 2 + 4 * And(x / 4, Mask1(n - 1))
  {
    AndBit(x, 2 * Mask1(n - 1));
    AndBit(x / 2, Mask1(n - 1));
    assert 1 + 2 * (2 * Mask1(n - 1)) == Mask1(n);
    Fields1(x);
  }

  lemma Fields1(x: nat)
    ensures x / 2 / 2 == x / 4
  {
  }

  /** The stage adds two neighbouring fields into one that holds their sum. */
  lemma Added1(x: nat, n: nat)
    requires n > 0
    ensures Stage1(x, n) % 4 == x % 2 + x / 2 % 2 && Stage1(x, n) / 4 == Stage1(x / 4, n - 1)
  {
    Masked1(x, n);
    Masked1(x / 2, n);
    Digits1(x, x % 2 + x / 2 % 2, And(x / 4, Mask1(n - 1)) + And(x / 4 / 2, Mask1(n - 1)));
  }

  lemma Digits1(x: nat, s: nat, q: nat)
    ensures x / 2 / 4 == x / 4 / 2
    ensures s < 4 ==> (s + 4 * q) % 4 == s && (s + 4 * q) / 4 == q
  {
  }

  /** `n` fields of 2 set bits, 4 bits apart: the mask of the stage that adds neighbouring fields of 2. */
  function Mask2(n: nat): (r: nat) {
    if n == 0 then 0 else 3 + 16 * Mask2(n - 1)
  }

  function Stage2(x: nat, n: nat): (r: nat) {
    And(x, Mask2(n)) + And(x / 4, Mask2(n))
  }

  lemma Masked2(x: nat, n: nat)
    requires n > 0
    ensures And(x, Mask2(n)) == x % 4 + 16 * And(x / 16, Mask2(n - 1))
  {
    AndPair(x, 4 * Mask2(n - 1));
    AndPair(x / 4, Mask2(n - 1));
    assert 3 + 4 * (4 * Mask2(n - 1)) == Mask2(n);
    Fields2(x);
  }

  lemma Fields2(x: nat)
    ensures x / 4 / 4 == x / 16
  {
  }

  /** The stage adds two neighbouring fields into one that holds their sum. */
  lemma Added2(x: nat, n: nat)
    requires n > 0
    ensures Stage2(x, n) % 16 == x % 4 + x / 4 % 4 && Stage2(x, n) / 16 == Stage2(x / 16, n - 1)
  {
    Masked2(x, n);
    Masked2(x / 4, n);
    Digits2(x, x % 4 + x / 4 % 4, And(x / 16, Mask2(n - 1)) + And(x / 16 / 4, Mask2(n - 1)));
  }

  lemma Digits2(x: nat, s: nat, q: nat)
    ensures x / 4 / 16 == x / 16 / 4
    ensures s < 16 ==> (s + 16 * q) % 16 == s && (s + 16 * q) / 16 == q
  {
  }

  /** The sum of the `n` lowest fields of 2 bits. */
  function Sum2(x: nat, n: nat): (r: nat)
    decreases n, x
  {
    if n == 0 then 0 else x % 4 + Sum2(x / 4, n - 1)
  }

  /** `n` fields of 4 set bits, 8 bits apart: the mask of the stage that adds neighbouring fields of 4. */
  function Mask4(n: nat): (r: nat) {
    if n == 0 then 0 else 15 + 256 * Mask4(n - 1)
  }

  function Stage4(x: nat, n: nat): (r: nat) {
    And(x, Mask4(n)) + And(x / 16, Mask4(n))
  }

  lemma Masked4(x: nat, n: nat)
    requires n > 0
    ensures And(x, Mask4(n)) == x % 16 + 256 * And(x / 256, Mask4(n - 1))
  {
    AndNibble(x, 16 * Mask4(n - 1));
    AndNibble(x / 16, Mask4(n - 1));
    assert 15 + 16 * (16 * Mask4(n - 1)) == Mask4(n);
    Fields4(x);
  }

  lemma Fields4(x: nat)
    ensures x / 16 / 16 == x / 256
  {
  }

  /** The stage adds two neighbouring fields into one that holds their sum. */
  lemma Added4(x: nat, n: nat)
    requires n > 0
    ensures Stage4(x, n) % 256 == x % 16 + x / 16 % 16 && Stage4(x, n) / 256 == Stage4(x / 256, n - 1)
  {
    Masked4(x, n);
    Masked4(x / 16, n);
    Digits4(x, x % 16 + x / 16 % 16, And(x / 256, Mask4(n - 1)) + And(x / 256 / 16, Mask4(n - 1)));
  }

  lemma Digits4(x: nat, s: nat, q: nat)
    ensures x / 16 / 256 == x / 256 / 16
    ensures s < 256 ==> (s + 256 * q) % 256 == s && (s + 256 * q) / 256 == q
  {
  }

  /** The sum of the `n` lowest fields of 4 bits. */
  function Sum4(x: nat, n: nat): (r: nat)
    decreases n, x
  {
    if n == 0 then 0 else x % 16 + Sum4(x / 16, n - 1)
  }

  /** `n` fields of 8 set bits, 16 bits apart: the mask of the stage that adds neighbouring fields of 8. */
  function Mask8(n: nat): (r: nat) {
    if n == 0 then 0 else 255 + 65536 * Mask8(n - 1)
  }

  function Stage8(x: nat, n: nat): (r: nat) {
    And(x, Mask8(n)) + And(x / 256, Mask8(n))
  }

  lemma Masked8(x: nat, n: nat)
    requires n > 0
    ensures And(x, Mask8(n)) == x % 256 + 65536 * And(x / 65536, Mask8(n - 1))
  {
    AndByte(x, 256 * Mask8(n - 1));
    AndByte(x / 256, Mask8(n - 1));
    assert 255 + 256 * (256 * Mask8(n - 1)) == Mask8(n);
    Fields8(x);
  }

  lemma Fields8(x: nat)
    ensures x / 256 / 256 == x / 65536
  {
  }

  /** The stage adds two neighbouring fields into one that holds their sum. */
  lemma Added8(x: nat, n: nat)
    requires n > 0
    ensures Stage8(x, n) % 65536 == x % 256 + x / 256 % 256 && Stage8(x, n) / 65536 == Stage8(x / 65536, n - 1)
  {
    Masked8(x, n);
    Masked8(x / 256, n);
    Digits8(x, x % 256 + x / 256 % 256, And(x / 65536, Mask8(n - 1)) + And(x / 65536 / 256, Mask8(n - 1)));
  }

  lemma Digits8(x: nat, s: nat, q: nat)
    ensures x / 256 / 65536 == x / 65536 / 256
    ensures s < 65536 ==> (s + 65536 * q) % 65536 == s && (s + 65536 * q) / 65536 == q
  {
  }

  /** The sum of the `n` lowest fields of 8 bits. */
  function Sum8(x: nat, n: nat): (r: nat)
    decreases n, x
  {
    if n == 0 then 0 else x % 256 + Sum8(x / 256, n - 1)
  }

  function Sum16(x: nat, n: nat): (r: nat)
    decreases n, x
  {
    if n == 0 then 0 else x % 65536 + Sum16(x / 65536, n - 1)
  }

  lemma {:induction false} Sums1(x: nat, n: nat)
    ensures Sum2(Stage1(x, n), n) == Ones(x, 2 * n)
  {
    if n > 0 {
      Added1(x, n);
      Sums1(x / 4, n - 1);
      assert Ones(x, 2 * n) == x % 2 + (x / 2 % 2 + Ones(x / 2 / 2, 2 * n - 2));
    }
  }

  lemma {:induction false} Sums2(x: nat, n: nat)
    ensures Sum4(Stage2(x, n), n) == Sum2(x, 2 * n)
  {
    if n > 0 {
      Added2(x, n);
      Sums2(x / 16, n - 1);
      assert Sum2(x, 2 * n) == x % 4 + (x / 4 % 4 + Sum2(x / 4 / 4, 2 * n - 2));
    }
  }

  lemma {:induction false} Sums4(x: nat, n: nat)
    ensures Sum8(Stage4(x, n), n) == Sum4(x, 2 * n)
  {
    if n > 0 {
      Added4(x, n);
      Sums4(x / 256, n - 1);
      assert Sum4(x, 2 * n) == x % 16 + (x / 16 % 16 + Sum4(x / 16 / 16, 2 * n - 2));
    }
  }

  lemma {:induction false} Sums8(x: nat, n: nat)
    ensures Sum16(Stage8(x, n), n) == Sum8(x, 2 * n)
  {
    if n > 0 {
      Added8(x, n);
      Sums8(x / 65536, n - 1);
      assert Sum8(x, 2 * n) == x % 256 + (x / 256 % 256 + Sum8(x / 256 / 256, 2 * n - 2));
    }
  }

  /** The five statements of popCount, each sum in 32 bits. */
  function Half1(u: Word): (r: Word) { Wrap(And(u, 0x55555555) + And(u / 2, 0x55555555)) }
  function Half2(u: Word): (r: Word) { Wrap(And(u, 0x33333333) + And(u / 4, 0x33333333)) }
  function Half4(u: Word): (r: Word) { Wrap(And(u, 0x0f0f0f0f) + And(u / 16, 0x0f0f0f0f)) }
  function Half8(u: Word): (r: Word) { Wrap(And(u, 0x00ff00ff) + And(u / 256, 0x00ff00ff)) }
  function Half16(u: Word): (r: Word) { Wrap(And(u, 0x0000ffff) + u / 65536) }

  function PopCount(u: Word): (r: Word) {
    Half16(Half8(Half4(Half2(Half1(u)))))
  }

  function Wrap(x: nat): (r: Word) {
    x % 0x1_0000_0000
  }

  lemma {:induction false} AndAtMost(x: nat, y: nat)
    ensures And(x, y) <= y
  {
    if y != 0 {
      AndAtMost(x / 2, y / 2);
    }
  }

  /** No stage overflows: a sum of two masked words is at most twice the mask. */
  lemma StageFits(x: nat, y: nat, mask: nat)
    requires 2 * mask < 0x1_0000_0000
    ensures Wrap(And(x, mask) + And(y, mask)) == And(x, mask) + And(y, mask)
  {
    AndAtMost(x, mask);
    AndAtMost(y, mask);
  }

  lemma Masks()
    ensures Mask1(16) == 0x55555555
    ensures Mask2(8) == 0x33333333
    ensures Mask4(4) == 0x0f0f0f0f
    ensures Mask8(2) == 0x00ff00ff
  {
    assert Mask1(8) == 0x5555;
    assert Mask1(12) == 0x555555;
  }

  lemma HalfIsStage1(u: Word)
    ensures Half1(u) == Stage1(u, 16)
  {
    Masks();
    StageFits(u, u / 2, 0x55555555);
  }

  lemma HalfIsStage2(u: Word)
    ensures Half2(u) == Stage2(u, 8)
  {
    Masks();
    StageFits(u, u / 4, 0x33333333);
  }

  lemma HalfIsStage4(u: Word)
    ensures Half4(u) == Stage4(u, 4)
  {
    Masks();
    StageFits(u, u / 16, 0x0f0f0f0f);
  }

  lemma HalfIsStage8(u: Word)
    ensures Half8(u) == Stage8(u, 2)
  {
    Masks();
    StageFits(u, u / 256, 0x00ff00ff);
  }

  lemma HalfSum16(u: Word)
    ensures Sum16(u, 2) < 0x1_0000_0000 ==> Half16(u) == Sum16(u, 2)
  {
    AndHalf(u);
    assert Sum16(u, 2) == u % 65536 + (u / 65536 % 65536 + Sum16(u / 65536 / 65536, 0));
  }

  /** popCount is the number of set bits of the word. */
  lemma PopCountIsOnes(u: Word)
    ensures PopCount(u) == Ones(u, 32)
  {
    var a: Word := Half1(u);
    var b: Word := Half2(a);
    var c: Word := Half4(b);
    HalfIsStage1(u);
    Sums1(u, 16);
    HalfIsStage2(a);
    Sums2(a, 8);
    HalfIsStage4(b);
    Sums4(b, 4);
    HalfIsStage8(c);
    Sums8(c, 2);
    HalfSum16(Half8(c));
    OnesAtMost(u, 32);
  }

  lemma {:induction false} OnesAtMost(x: nat, n: nat)
    ensures Ones(x, n) <= n
  {
    if n > 0 {
      OnesAtMost(x / 2, n - 1);
    }
  }
}
