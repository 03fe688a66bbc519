/** The capacity policy of `vector_t`: a buffer is either absent (capacity 0)
    or holds a power-of-two number of slots, and when an operation needs more
    room than the buffer has, the new capacity is the smallest power of two
    that fits the needed length, reached in one step. */
module Growth {

  /** 1, 2, 4, 8, ... */
  predicate IsPow2(n: nat)
    decreases n
  {
    if n == 1 then true
    else if n == 0 || n % 2 == 1 then false
    else IsPow2(n / 2)
  }

  /** A legal capacity: no buffer at all, or a power of two. */
  predicate IsCapacity(c: nat) {
    c == 0 || IsPow2(c)
  }

  /** Two distinct powers of two are at least a factor of two apart. */
  lemma {:induction false} Pow2Gap(p: nat, q: nat)
    requires IsPow2(p) && IsPow2(q) && p < q
    ensures 2 * p <= q
  {
    if p != 1 {
      Pow2Gap(p / 2, q / 2);
    }
  }

  /** The smallest power of two that is at least `n` (1 for `n == 0`, which is
      what the doubling loop computes when started at 1). Minimality is
      NextPow2Least. */
  function NextPow2(n: nat): (r: nat)
    ensures IsPow2(r) && n <= r
    decreases n
  {
    if n <= 1 then 1 else 2 * NextPow2((n + 1) / 2)
  }

  /** No power of two at least `n` is smaller than NextPow2(n). */
  lemma {:induction false} NextPow2Least(n: nat, p: nat)
    requires IsPow2(p) && n <= p
    ensures NextPow2(n) <= p
    decreases n
  {
    if n > 1 {
      NextPow2Least((n + 1) / 2, p / 2);
    }
  }

  /** NextPow2 never overshoots by a factor of two or more: it is the first
      power of two reached, not a later one. */
  lemma {:induction false} NextPow2Below(n: nat)
    requires n >= 1
    ensures NextPow2(n) < 2 * n
    decreases n
  {
    if n > 1 {
      NextPow2Below((n + 1) / 2);
    }
  }

  /** NextPow2(n) is the one power of two in [n, 2n): any power of two in
      that range is it. */
  lemma NextPow2Exact(n: nat, p: nat)
    requires IsPow2(p) && n <= p < 2 * n
    ensures NextPow2(n) == p
  {
    NextPow2Least(n, p);
    if NextPow2(n) < p {
      Pow2Gap(NextPow2(n), p);
    }
  }

  /** The capacity a buffer gets when it is allocated for exactly `len`
      elements: none for zero elements, otherwise the smallest power of two
      that holds them. */
  function TightCapacity(len: nat): (r: nat)
    ensures IsCapacity(r) && len <= r
    ensures r == 0 <==> len == 0
  {
    if len == 0 then 0 else NextPow2(len)
  }

  /** The capacity after an operation that needs room for `needed` elements in
      a buffer of capacity `cap`: unchanged when it already fits, otherwise
      the smallest power of two that fits `needed`. */
  function GrownCapacity(cap: nat, needed: nat): (r: nat)
    ensures cap <= r && needed <= r
    ensures IsCapacity(cap) ==> IsCapacity(r)
    ensures needed <= cap ==> r == cap
    ensures cap < needed ==> r == NextPow2(needed)
  {
    if needed <= cap then cap else NextPow2(needed)
  }

  /** The doubling loop of the sized constructor (vector.h:8-17), together
      with its zero case: the capacity allocated for `elemNum` elements. */
  method ComputeCapacity(elemNum: nat) returns (cap: nat)
    ensures cap == TightCapacity(elemNum)
  {
    if elemNum == 0 {
      cap := 0;
    } else {
      var power := 1;
      while power < elemNum
        invariant IsPow2(power) && power <= NextPow2(elemNum)
        decreases elemNum - power
      {
        Pow2Gap(power, NextPow2(elemNum));
        power := power * 2;
      }
      NextPow2Least(elemNum, power);
      cap := power;
    }
  }

  /** A tight capacity never exceeds a legal capacity that already holds the
      same elements: shrinking to fit never grows the buffer. */
  lemma TightWithin(len: nat, cap: nat)
    requires IsCapacity(cap) && len <= cap
    ensures TightCapacity(len) <= cap
  {
    if len > 0 {
      NextPow2Least(len, cap);
    }
  }

  /** The growth law: starting from a buffer allocated tight for `m` elements
      and growing to fit `needed`, the capacity is the tight capacity of the
      larger of the two lengths. Repeated growth therefore always lands on the
      smallest power of two that holds the longest length reached. */
  lemma GrowthLaw(m: nat, needed: nat)
    ensures GrownCapacity(TightCapacity(m), needed)
         == TightCapacity(if m < needed then needed else m)
  {
    if m < needed && needed <= TightCapacity(m) {
      NextPow2Least(needed, TightCapacity(m));
      NextPow2Least(m, NextPow2(needed));
    }
  }
}
