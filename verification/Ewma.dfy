/** `update_ewma` of crates/gateway-core/src/upstream.rs: an integer moving average with weight 0.2. */
module Ewma {

  const U64: nat := 0x1_0000_0000_0000_0000

  function Update(old_: nat, sample: nat): nat
  {
    if old_ == 0 then sample else (2 * sample + 8 * old_) / 10
  }

  /** The stored latency of one endpoint. */
  class Latency {
    var ewma: nat

    constructor ()
      ensures ewma == 0
    {
      ewma := 0;
    }

    /**
     Absent 64-bit overflow the new value lies between the old one and the sample; past it the sum
     wraps.
     */
    method Record(sample: nat)
      modifies this
      ensures 2 * sample + 8 * old(ewma) < U64 ==> ewma == Update(old(ewma), sample)
      ensures 2 * sample + 8 * old(ewma) < U64 && old(ewma) != 0 ==>
                (if old(ewma) <= sample then old(ewma) <= ewma <= sample else sample <= ewma < old(ewma))
      ensures old(ewma) == 0 ==> ewma == sample
      ensures old(ewma) != 0 ==> ewma == (2 * sample + 8 * old(ewma)) % U64 / 10
    {
      ewma := if ewma == 0 then sample else (2 * sample + (10 - 2) * ewma) % U64 / 10;
    }
  }

  /** `k` updates with the same sample. */
  function Repeat(old_: nat, sample: nat, k: nat): nat
  {
    if k == 0 then old_ else Update(Repeat(old_, sample, k - 1), sample)
  }

  function Gap(x: nat, sample: nat): nat
  {
    if x <= sample then sample - x else x - sample
  }

  predicate Settled(x: nat, sample: nat)
  {
    Update(x, sample) == x
  }

  /** The settled values are the sample and, from below, the four values under it. */
  lemma SettledExactly(x: nat, sample: nat)
    ensures Settled(x, sample) <==> x <= sample <= x + 4 && (x == 0 ==> sample == 0)
  {}

  /** Every update that changes the value shrinks the gap to the sample and never overshoots it. */
  lemma UpdateApproaches(x: nat, sample: nat)
    requires !Settled(x, sample)
    ensures Gap(Update(x, sample), sample) < Gap(x, sample)
    ensures x <= sample ==> Update(x, sample) <= sample
    ensures x >= sample ==> Update(x, sample) >= sample
  {}

  lemma {:induction false} RepeatFront(x: nat, sample: nat, k: nat)
    ensures Repeat(x, sample, k + 1) == Repeat(Update(x, sample), sample, k)
  {
    if k > 0 { RepeatFront(x, sample, k - 1); }
  }

  lemma {:induction false} SettledStays(x: nat, sample: nat, k: nat)
    requires Settled(x, sample)
    ensures Repeat(x, sample, k) == x
  {
    if k > 0 { SettledStays(x, sample, k - 1); }
  }

  /**
   Convergence: under a constant sample the average settles within as many updates as the initial
   gap, at most four below the sample, and stays there however long the sample repeats.
   */
  lemma {:induction false} Converges(x: nat, sample: nat, k: nat)
    requires k >= Gap(x, sample)
    ensures Settled(Repeat(x, sample, k), sample)
    ensures sample - 4 <= Repeat(x, sample, k) <= sample
    ensures x >= sample ==> Repeat(x, sample, k) == sample
    decreases Gap(x, sample)
  {
    if Settled(x, sample) {
      SettledStays(x, sample, k);
      SettledExactly(x, sample);
    } else {
      UpdateApproaches(x, sample);
      assert k > 0;
      RepeatFront(x, sample, k - 1);
      Converges(Update(x, sample), sample, k - 1);
    }
  }
}
