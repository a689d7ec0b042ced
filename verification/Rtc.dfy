/** rtc_write: which frequencies the clock accepts and what it writes to register A. */
module Rtc {
  import opened Numbers

  const DEFAULT_FREQ := 32768
  const MAX_FREQ := 1024
  const RATE_LOW := 6
  const RATE_HIGH := 15

  ghost predicate IsPowerOfTwo(n: int) {
    exists k: nat :: n == Pow(2, k)
  }

  lemma {:induction false} PowGrows(a: nat, b: nat)
    requires a < b
    ensures Pow(2, a) < Pow(2, b)
    decreases b
  {
    PowPositive(b - 1);
    if a < b - 1 {
      PowGrows(a, b - 1);
    }
  }

  lemma {:induction false} PowPositive(k: nat)
    ensures Pow(2, k) >= 1
  {
    if k > 0 {
      PowPositive(k - 1);
    }
  }

  /** Halving keeps the question open, and only 1 is an odd power. */
  lemma HalvePower(n: int)
    requires n > 1 && n % 2 == 0
    ensures IsPowerOfTwo(n) <==> IsPowerOfTwo(n / 2)
  {
    if IsPowerOfTwo(n) {
      var k: nat :| n == Pow(2, k);
      assert k > 0 && n / 2 == Pow(2, k - 1);
    }
    if IsPowerOfTwo(n / 2) {
      var k: nat :| n / 2 == Pow(2, k);
      assert n == Pow(2, k + 1);
    }
  }

  lemma OddPower(n: int)
    requires n <= 1 || n % 2 == 1
    ensures IsPowerOfTwo(n) <==> n == 1
  {
    assert Pow(2, 0) == 1;
    if IsPowerOfTwo(n) {
      var k: nat :| n == Pow(2, k);
      PowPositive(k);
      if k > 0 {
        assert n == 2 * Pow(2, k - 1);
      }
    }
  }

  /** The halving loop in front of rtc_write. */
  method PowerOfTwoTest(freq: int) returns (power: bool)
    ensures power <==> IsPowerOfTwo(freq)
  {
    var tmp := freq;
    while tmp > 1 && tmp % 2 == 0
      invariant IsPowerOfTwo(freq) <==> IsPowerOfTwo(tmp)
      decreases tmp
    {
      HalvePower(tmp);
      tmp := tmp / 2;
    }
    OddPower(tmp);
    return tmp == 1;
  }

  /** `32768 >> j`, one bit at a time. */
  function Shifted(j: nat): int {
    if j == 0 then DEFAULT_FREQ else Shifted(j - 1) / 2
  }

  lemma {:induction false} ShiftedIsPower(j: nat)
    requires j <= 15
    ensures Shifted(j) == Pow(2, 15 - j)
  {
    if j == 0 {
      assert Pow(2, 5) == 32;
      PowAdd(2, 5, 5);
      PowAdd(2, 10, 5);
    } else {
      ShiftedIsPower(j - 1);
    }
  }

  /** The rate search. It ends because the frequency is a power of two no larger than the clock's own. */
  method FindRate(freq: int, ghost k: nat) returns (rate: nat)
    requires k <= 15 && freq == Pow(2, k)
    ensures rate == 16 - k && Shifted(rate - 1) == freq
  {
    rate := 1;
    while Shifted(rate - 1) != freq
      invariant 1 <= rate <= 16 - k
      decreases 16 - rate
    {
      ShiftedIsPower(rate - 1);
      rate := rate + 1;
    }
    ShiftedIsPower(rate - 1);
    if rate < 16 - k {
      PowGrows(k, 16 - rate);
    }
  }

  lemma TenBits(k: nat)
    ensures Pow(2, k) <= MAX_FREQ <==> k <= 10
  {
  }

  lemma NibbleMerge(reg: bv8, rate: nat)
    requires rate < 16
    ensures ((reg & 0xF0) | (rate as bv8)) & 0xF0 == reg & 0xF0
    ensures ((reg & 0xF0) | (rate as bv8)) & 0x0F == rate as bv8
  {
  }

  class Clock {
    var freq: int
    var regA: bv8

    constructor (regA: bv8)
      ensures this.regA == regA
    {
      this.regA := regA;
      freq := 0;
    }

    /** rtc_write accepts exactly the frequencies 2^k with 1 <= k <= 10; it then keeps the upper half
        of register A and puts the rate 16 - k in the lower. */
    method Write(freq: int) returns (r: int)
      modifies this
      ensures r == 0 || r == -1
      ensures r == 0 <==> exists k: nat :: 1 <= k <= 10 && freq == Pow(2, k)
      ensures r == 0 ==> this.freq == freq && regA & 0xF0 == old(regA) & 0xF0
      ensures r == 0 ==> exists k: nat :: 1 <= k <= 10 && freq == Pow(2, k) && regA & 0x0F == (16 - k) as bv8
      ensures r == -1 ==> this.freq == old(this.freq) && regA == old(regA)
    {
      var power := PowerOfTwoTest(freq);
      if !power { return -1; }
      ghost var k: nat :| freq == Pow(2, k);
      TenBits(k);
      UniqueExponent(freq, k);
      if freq > MAX_FREQ || freq <= 0 { return -1; }
      var rate := FindRate(freq, k);
      if rate < RATE_LOW || rate > RATE_HIGH { return -1; }
      this.freq := freq;
      NibbleMerge(regA, rate);
      regA := (regA & 0xF0) | (rate as bv8);
      return 0;
    }
  }

  lemma UniqueExponent(n: int, k: nat)
    requires n == Pow(2, k)
    ensures forall j: nat :: n == Pow(2, j) ==> j == k
  {
    forall j: nat | n == Pow(2, j)
      ensures j == k
    {
      if j < k { PowGrows(j, k); }
      if k < j { PowGrows(k, j); }
    }
  }
}
