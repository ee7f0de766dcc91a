/**
 * task_1/main.py: `caching_fibonacci()` returns a closure `fibonacci` over a
 * fresh dictionary `cache`; `fibonacci(n)` answers 0 below 1, 1 at 1, and
 * otherwise looks `n` up in the cache or computes and stores it. The closure
 * and its dictionary are the class `CachingFibonacci` with a map field.
 */
module Fibonacci {

  /** The Fibonacci numbers, taken to be 0 at every `n <= 0`. */
  function Fib(n: int): nat
    decreases n
  {
    if n <= 0 then 0 else if n == 1 then 1 else Fib(n - 1) + Fib(n - 2)
  }

  /** The numbers never decrease along the naturals. */
  lemma {:induction false} FibMonotone(m: int, n: int)
    requires 0 <= m <= n
    ensures Fib(m) <= Fib(n)
    decreases n - m
  {
    if m < n {
      FibMonotone(m + 1, n);
      assert Fib(m) <= Fib(m + 1) by {
        if m >= 1 {
          assert Fib(m + 1) == Fib(m) + Fib(m - 1);
        }
      }
    }
  }

  /** Beyond 0 every number is positive. */
  lemma FibPositive(n: int)
    requires n >= 1
    ensures Fib(n) >= 1
  {
    FibMonotone(1, n);
  }

  /** The two answers `main` prints. */
  lemma FibValues()
    ensures Fib(10) == 55 && Fib(15) == 610
  {
    assert Fib(2) == 1 && Fib(3) == 2 && Fib(4) == 3 && Fib(5) == 5;
    assert Fib(6) == 8 && Fib(7) == 13 && Fib(8) == 21 && Fib(9) == 34;
    assert Fib(10) == 55 && Fib(11) == 89 && Fib(12) == 144;
    assert Fib(13) == 233 && Fib(14) == 377;
  }

  class CachingFibonacci {
    /** `cache`: answers already computed, by argument. */
    var cache: map<int, int>
    /** The largest argument stored so far (below 2 while nothing is). */
    ghost var largest: int

    /**
     * Only arguments from 2 up are stored, each with its Fibonacci number, and
     * the stored arguments are 2 through the largest of them.
     */
    ghost predicate Valid()
      reads this
    {
      1 <= largest &&
      (forall k :: k in cache <==> 2 <= k <= largest) &&
      (forall k | k in cache :: cache[k] == Fib(k))
    }

    /** `caching_fibonacci()`: a closure over an empty cache of its own. */
    constructor ()
      ensures Valid() && cache == map[]
    {
      cache := map[];
      largest := 1;
    }

    /**
     * `fibonacci(n)`: the Fibonacci number of `n`. Arguments below 2 and cached
     * arguments leave the cache as it was; any other call stores every argument
     * from 2 to `n` and keeps what was stored.
     */
    method Fibonacci(n: int) returns (r: int)
      requires Valid()
      modifies this
      decreases n
      ensures Valid()
      ensures r == Fib(n)
      ensures n <= 1 || n in old(cache) ==> cache == old(cache)
      ensures largest == if n > old(largest) then n else old(largest)
      ensures forall k | k in old(cache) :: k in cache && cache[k] == old(cache)[k]
    {
      if n <= 0 {
        return 0;
      }
      if n == 1 {
        return 1;
      }
      if n in cache {
        return cache[n];
      }
      var a := Fibonacci(n - 1);
      // fibonacci(n - 1) has stored n - 2, so this call is a hit
      assert n - 2 <= 1 || n - 2 in cache;
      var b := Fibonacci(n - 2);
      Store(n, a + b);
      r := a + b;
    }

    /** `cache[n] = ...`: stores the number of the argument just above the cached ones. */
    method Store(n: int, value: int)
      requires Valid() && n == largest + 1 && n >= 2 && value == Fib(n)
      modifies this
      ensures Valid() && largest == n
      ensures cache == old(cache)[n := value]
    {
      cache := cache[n := value];
      largest := n;
    }
  }

  /** `main`: one closure, asked for the 10th and then the 15th number. */
  method Example() returns (first: int, second: int)
    ensures first == 55 && second == 610
  {
    var fib := new CachingFibonacci();
    first := fib.Fibonacci(10);
    second := fib.Fibonacci(15);
    FibValues();
  }
}
