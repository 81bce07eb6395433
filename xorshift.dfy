/** The 32-bit xorshift generator (shifts 13, 17, 5) that the grain, on-beat
    clear and water effects each run on a private state word. */
module Xorshift {

  function Step13(x: bv32): bv32 { x ^ (x << 13) }
  function Step17(x: bv32): bv32 { x ^ (x >> 17) }
  function Step5(x: bv32): bv32 { x ^ (x << 5) }

  /** One step: x ^= x << 13; x ^= x >> 17; x ^= x << 5, all on 32 bits. */
  function Next(x: bv32): bv32
  {
    Step5(Step17(Step13(x)))
  }

  /** Each shift-xor sends only zero to zero. */
  lemma Kernel13(x: bv32) ensures Step13(x) == 0 <==> x == 0 {}
  lemma Kernel17(x: bv32) ensures Step17(x) == 0 <==> x == 0 {}
  lemma Kernel5(x: bv32) ensures Step5(x) == 0 <==> x == 0 {}

  /** Zero is a fixed point, and the only state that steps to zero. */
  lemma NextZero(x: bv32)
    ensures Next(x) == 0 <==> x == 0
  {
    Kernel13(x);
    Kernel17(Step13(x));
    Kernel5(Step17(Step13(x)));
  }

  /** n steps from x. */
  function NextN(x: bv32, n: nat): bv32
  {
    if n == 0 then x else Next(NextN(x, n - 1))
  }

  /** A non-zero seed never degenerates to the all-zero state. */
  lemma {:induction false} NonZeroForever(x: bv32, n: nat)
    requires x != 0
    ensures NextN(x, n) != 0
  {
    if n > 0 {
      NonZeroForever(x, n - 1);
      NextZero(NextN(x, n - 1));
    }
  }

  lemma {:induction false} NextNAdd(x: bv32, m: nat, n: nat)
    ensures NextN(NextN(x, m), n) == NextN(x, m + n)
  {
    if n > 0 {
      NextNAdd(x, m, n - 1);
    }
  }
}
