/** Helpers shared by the rate-limit modules: real numbers, the usual Option, and histories. */
module Numbers {

  datatype Option<+T> = None | Some(value: T)

  /** What has happened so far, the latest last. */
  datatype History<+T> = Nothing | Then(past: History<T>, last: T)

  function Length<T>(h: History<T>): nat
  {
    if h.Nothing? then 0 else Length(h.past) + 1
  }

  function Min(x: real, y: real): (m: real)
  {
    if x <= y then x else y
  }

  function Max(x: real, y: real): (m: real)
  {
    if x <= y then y else x
  }

  /** Lua's `math.ceil`: the least integer that is not below `x`. */
  function Ceil(x: real): (c: int)
    ensures c as real - 1.0 < x <= c as real
  {
    -((-x).Floor)
  }

  predicate NonDecreasing(times: seq<real>)
  {
    forall i, j | 0 <= i <= j < |times| :: times[i] <= times[j]
  }

  /** What every element satisfies, read from the last element backwards. */
  lemma NonDecreasingPrefix(times: seq<real>, t: real)
    requires NonDecreasing(times + [t])
    ensures NonDecreasing(times)
    ensures forall i | 0 <= i < |times| :: times[i] <= t
  {
    var all := times + [t];
    forall i, j | 0 <= i <= j < |times| ensures times[i] <= times[j] {
      assert all[i] <= all[j];
    }
    forall i | 0 <= i < |times| ensures times[i] <= t {
      assert all[i] <= all[|times|];
    }
  }

  lemma {:induction false} SubsetSize<T>(a: set<T>, b: set<T>)
    requires a <= b
    ensures |a| <= |b|
  {
    if a != {} {
      var x :| x in a;
      SubsetSize(a - {x}, b - {x});
    }
  }

  /** The numbers below `n`. */
  function Upto(n: nat): (numbers: set<nat>)
    ensures |numbers| == n && forall k: nat :: k in numbers <==> k < n
  {
    if n == 0 then {} else Upto(n - 1) + {n - 1}
  }
}
