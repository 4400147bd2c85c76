/** The two Fibonacci functions of implement_fibonacci_with_memoi_attempt_1.py.
    The memoised one keeps its cache in a mutable default argument shared by
    every call; here the cache is an explicit map passed in and handed back. */
module Fibonacci {

  /** The reference definition. */
  function Fib(n: nat): nat {
    if n <= 1 then n else Fib(n - 1) + Fib(n - 2)
  }

  /** What both source functions compute for any integer: `n` itself when
      `n <= 1`, negative values included, and the Fibonacci number otherwise. */
  function PyFib(n: int): int {
    if n <= 1 then n else Fib(n)
  }

  /** `fibonacci_iterative`. */
  method FibIterative(n: int) returns (r: int)
    ensures r == PyFib(n)
    ensures n >= 0 ==> r == Fib(n)
  {
    if n <= 1 {
      return n;
    }
    var a, b := 0, 1;
    var i := 1;
    while i < n
      invariant 1 <= i <= n
      invariant a == Fib(i - 1) && b == Fib(i)
    {
      a, b := b, a + b;
      i := i + 1;
    }
    return b;
  }

  /** Every cached entry is the value the function returns for its key. */
  predicate MemoValid(memo: map<int, int>) {
    forall k :: k in memo ==> memo[k] == PyFib(k)
  }

  /** `fibonacci_memo` with its cache threaded through: a cached key is
      answered from the cache, `n <= 1` is answered directly and not cached,
      and otherwise the two recursive calls run in order, the second seeing
      what the first cached, and the sum is cached under `n`. */
  function FibMemo(n: int, memo: map<int, int>): (r: (int, map<int, int>))
    ensures memo.Keys <= r.1.Keys
    ensures forall k :: k in memo ==> r.1[k] == memo[k]
    ensures n >= 2 ==> n in r.1
    ensures forall k :: k in r.1 && k !in memo ==> 2 <= k <= n
    ensures MemoValid(memo) ==> r.0 == PyFib(n) && MemoValid(r.1)
  {
    if n in memo then (memo[n], memo)
    else if n <= 1 then (n, memo)
    else
      var (a, m1) := FibMemo(n - 1, memo);
      var (b, m2) := FibMemo(n - 2, m1);
      (a + b, m2[n := a + b])
  }

  /** A run of calls sharing one cache that starts empty, as repeated calls
      with the default argument do; the results in call order. */
  function Session(ns: seq<int>, memo: map<int, int>): (rs: seq<int>)
    ensures |rs| == |ns|
    decreases |ns|
  {
    if ns == [] then []
    else
      var (v, m) := FibMemo(ns[0], memo);
      [v] + Session(ns[1..], m)
  }

  /** Whatever came before, every call of a session answers correctly. */
  lemma {:induction false} SessionCorrect(ns: seq<int>, memo: map<int, int>)
    requires MemoValid(memo)
    ensures forall i :: 0 <= i < |ns| ==> Session(ns, memo)[i] == PyFib(ns[i])
    decreases |ns|
  {
    if ns != [] {
      var (v, m) := FibMemo(ns[0], memo);
      SessionCorrect(ns[1..], m);
      assert forall i :: 1 <= i < |ns| ==> Session(ns, memo)[i] == Session(ns[1..], m)[i - 1];
    }
  }

  /** The memoised and the iterative function agree, from the empty cache the
      default argument starts with. */
  lemma MemoAgreesWithIterative(n: int)
    ensures FibMemo(n, map[]).0 == PyFib(n)
  {
    assert MemoValid(map[]);
  }

  lemma {:induction false} FibTen()
    ensures Fib(10) == 55
  {
    assert Fib(2) == 1;
    assert Fib(3) == 2;
    assert Fib(4) == 3;
    assert Fib(5) == 5;
    assert Fib(6) == 8;
    assert Fib(7) == 13;
    assert Fib(8) == 21;
    assert Fib(9) == 34;
  }

  /** The embedded tests: 0, 1 and 10 give 0, 1 and 55, for the memoised
      calls made one after another on the shared cache and for the iterative
      function. */
  lemma TestedValues(ns: seq<int>)
    requires ns == [0, 1, 10]
    ensures Session(ns, map[]) == [0, 1, 55]
    ensures PyFib(0) == 0 && PyFib(1) == 1 && PyFib(10) == 55
  {
    assert MemoValid(map[]);
    SessionCorrect(ns, map[]);
    FibTen();
  }
}
