/** Runs of a deterministic machine, and the log of the changes of one of its outputs. */
module Machine {

  lemma Assoc<T>(a: seq<T>, b: seq<T>, c: seq<T>)
    ensures (a + b) + c == a + (b + c)
  {
  }

  function Repeat<T>(x: T, n: nat): (r: seq<T>)
    ensures |r| == n && forall i | 0 <= i < n :: r[i] == x
  {
    seq(n, _ => x)
  }

  function Fold<S, E>(step: (S, E) -> S, s: S, es: seq<E>): S
    decreases |es|
  {
    if es == [] then s else step(Fold(step, s, es[..|es| - 1]), es[|es| - 1])
  }

  function Changed(log: seq<bool>, before: bool, after: bool): seq<bool> {
    if before != after then log + [after] else log
  }

  /** The successive new values of the output `out`. */
  function Changes<S, E>(step: (S, E) -> S, out: S -> bool, s: S, es: seq<E>): seq<bool>
    decreases |es|
  {
    if es == [] then []
    else
      var es' := es[..|es| - 1];
      Changed(Changes(step, out, s, es'), out(Fold(step, s, es')), out(Fold(step, s, es)))
  }

  lemma {:induction false} FoldConcat<S, E>(step: (S, E) -> S, s: S, a: seq<E>, b: seq<E>)
    ensures Fold(step, s, a + b) == Fold(step, Fold(step, s, a), b)
    decreases |b|
  {
    if b == [] {
      assert a + b == a;
    } else {
      FoldConcat(step, s, a, b[..|b| - 1]);
      assert (a + b)[..|a + b| - 1] == a + b[..|b| - 1];
    }
  }

  lemma {:induction false} ChangesConcat<S, E>(step: (S, E) -> S, out: S -> bool, s: S, a: seq<E>, b: seq<E>)
    ensures Changes(step, out, s, a + b) == Changes(step, out, s, a) + Changes(step, out, Fold(step, s, a), b)
    decreases |b|
  {
    if b == [] {
      assert a + b == a;
    } else {
      ChangesConcat(step, out, s, a, b[..|b| - 1]);
      FoldConcat(step, s, a, b[..|b| - 1]);
      FoldConcat(step, s, a, b);
      assert (a + b)[..|a + b| - 1] == a + b[..|b| - 1];
    }
  }

  /** The log alternates, beginning with the opposite of the first output, and its length tells the last output. */
  lemma {:induction false} ChangesAlternate<S, E>(step: (S, E) -> S, out: S -> bool, s: S, es: seq<E>)
    ensures var log := Changes(step, out, s, es);
            && (forall k: nat | k < |log| :: log[k] == (out(s) == (k % 2 == 1)))
            && out(Fold(step, s, es)) == (out(s) == (|log| % 2 == 0))
    decreases |es|
  {
    if es != [] {
      ChangesAlternate(step, out, s, es[..|es| - 1]);
    }
  }

  // --- Counting ----------------------------------------------------------------------------------

  function Count(log: seq<bool>, on: bool): nat
    decreases |log|
  {
    if log == [] then 0 else Count(log[..|log| - 1], on) + if log[|log| - 1] == on then 1 else 0
  }

  lemma CountOneMore(log: seq<bool>, x: bool, on: bool)
    ensures Count(log + [x], on) == Count(log, on) + if x == on then 1 else 0
  {
    assert (log + [x])[..|log|] == log;
  }

  lemma {:induction false} CountConcat(a: seq<bool>, b: seq<bool>, on: bool)
    ensures Count(a + b, on) == Count(a, on) + Count(b, on)
    decreases |b|
  {
    if b == [] {
      assert a + b == a;
    } else {
      var b', x := b[..|b| - 1], b[|b| - 1];
      CountConcat(a, b', on);
      CountOneMore(a + b', x, on);
      assert a + b == (a + b') + [x];
    }
  }

  // --- Work left ---------------------------------------------------------------------------------

  function Sum<T>(f: T -> nat, s: seq<T>): nat
    decreases |s|
  {
    if s == [] then 0 else Sum(f, s[..|s| - 1]) + f(s[|s| - 1])
  }

  lemma {:induction false} SumUpdate<T>(f: T -> nat, s: seq<T>, i: nat, x: T)
    requires i < |s|
    ensures Sum(f, s[i := x]) == Sum(f, s) - f(s[i]) + f(x)
    decreases |s|
  {
    var n := |s| - 1;
    if i < n {
      SumUpdate(f, s[..n], i, x);
      assert s[i := x][..n] == s[..n][i := x];
    } else {
      assert s[i := x][..n] == s[..n];
    }
  }

  lemma {:induction false} SumSame<T>(f: T -> nat, s: seq<T>, s': seq<T>)
    requires |s| == |s'| && forall i | 0 <= i < |s| :: f(s[i]) == f(s'[i])
    ensures Sum(f, s) == Sum(f, s')
    decreases |s|
  {
    if s != [] {
      SumSame(f, s[..|s| - 1], s'[..|s'| - 1]);
    }
  }

  lemma {:induction false} SumAtLeast<T>(f: T -> nat, s: seq<T>, i: nat)
    requires i < |s|
    ensures f(s[i]) <= Sum(f, s)
    decreases |s|
  {
    if i < |s| - 1 {
      SumAtLeast(f, s[..|s| - 1], i);
    }
  }

  lemma {:induction false} SumFound<T>(f: T -> nat, s: seq<T>) returns (i: nat)
    requires Sum(f, s) > 0
    ensures i < |s| && f(s[i]) > 0
    decreases |s|
  {
    if f(s[|s| - 1]) > 0 {
      i := |s| - 1;
    } else {
      i := SumFound(f, s[..|s| - 1]);
    }
  }

  lemma SumOneMore<T>(f: T -> nat, s: seq<T>, x: T)
    ensures Sum(f, s + [x]) == Sum(f, s) + f(x)
  {
    assert (s + [x])[..|s|] == s;
  }
}
