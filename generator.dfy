/** The `countdown` and `fibonacci` generators of src/basic/generator.py.
    Each generator is a method that collects, in order, the values the
    generator yields until it is exhausted. */
module Generators {
  /** What `countdown(n)` yields: `n, -n, n - 1, -(n - 1), ..., 1, -1`. */
  function CountdownValues(n: int): seq<int>
    decreases n
  {
    if n <= 0 then [] else [n, -n] + CountdownValues(n - 1)
  }

  /** `countdown(n)`: while `n > 0`, yields `n` and then `-n`, and steps
      `n` down by one. */
  method Countdown(n: int) returns (ys: seq<int>)
    ensures ys == CountdownValues(n)
  {
    ys := [];
    var m := n;
    while m > 0
      invariant ys + CountdownValues(m) == CountdownValues(n)
      decreases m
    {
      ys := ys + [m, -m];
      m := m - 1;
    }
  }

  /** Two values per step while `n > 0`, none otherwise. */
  lemma {:induction false} CountdownLength(n: int)
    ensures |CountdownValues(n)| == if n > 0 then 2 * n else 0
    decreases n
  {
    if n > 0 {
      CountdownLength(n - 1);
    }
  }

  /** The values come in pairs `n - k, -(n - k)` for `k = 0, 1, ...`. */
  lemma {:induction false} CountdownPairs(n: int, k: nat)
    requires k < n
    ensures |CountdownValues(n)| == 2 * n
    ensures CountdownValues(n)[2 * k] == n - k && CountdownValues(n)[2 * k + 1] == -(n - k)
    decreases n
  {
    CountdownLength(n);
    if k > 0 {
      CountdownPairs(n - 1, k - 1);
    }
  }

  /** The ten values of `countdown(5)`. */
  lemma CountdownFive()
    ensures CountdownValues(5) == [5, -5, 4, -4, 3, -3, 2, -2, 1, -1]
  {
  }

  /** The Fibonacci numbers: 0, 1, and then each the sum of the two
      before it. */
  function Fib(k: nat): nat
  {
    if k < 2 then k else Fib(k - 1) + Fib(k - 2)
  }

  /** `fibonacci(n)`: yields `a` for each counter value `0..n`, stepping
      `a, b` to `b, a + b`; nothing when `n < 0`. */
  method Fibonacci(n: int) returns (ys: seq<nat>)
    ensures |ys| == if n < 0 then 0 else n + 1
    ensures forall k | 0 <= k < |ys| :: ys[k] == Fib(k)
  {
    ys := [];
    var a: nat, b: nat := 0, 1;
    var counter := 0;
    while true
      invariant 0 <= counter && (counter == 0 || counter <= n + 1)
      invariant |ys| == counter && a == Fib(counter) && b == Fib(counter + 1)
      invariant forall k | 0 <= k < counter :: ys[k] == Fib(k)
      decreases n + 1 - counter
    {
      if counter > n {
        return;
      }
      ys := ys + [a];
      assert Fib(counter + 2) == a + b;
      a, b := b, a + b;
      counter := counter + 1;
    }
    assert false;
  }

  /** Whatever satisfies `Fibonacci(10)`'s contract is the eleven values
      0 to 55. */
  lemma FibonacciTen(ys: seq<nat>)
    requires |ys| == 11 && forall k | 0 <= k < |ys| :: ys[k] == Fib(k)
    ensures ys == [0, 1, 1, 2, 3, 5, 8, 13, 21, 34, 55]
  {
    assert Fib(2) == 1 && Fib(3) == 2 && Fib(4) == 3 && Fib(5) == 5 && Fib(6) == 8;
    assert Fib(7) == 13 && Fib(8) == 21 && Fib(9) == 34 && Fib(10) == 55;
  }
}
