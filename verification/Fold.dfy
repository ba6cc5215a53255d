/** Left folds and iterated maps, over a carrier about which nothing is known.

    The checksum's inductions are stated here once, for any carrier with the algebraic law the
    step needs, and instantiated in `Checksum` with 32-bit registers. */
module Fold {

  function Iterate<T>(f: T -> T, v: T, n: nat): T
    decreases n
  {
    if n == 0 then v else Iterate(f, f(v), n - 1)
  }

  function Run<T, A>(step: (T, A) -> T, v: T, xs: seq<A>): T
    decreases xs
  {
    if xs == [] then v else Run(step, step(v, xs[0]), xs[1..])
  }

  ghost predicate Injective<T(!new)>(f: T -> T) {
    forall x, y :: f(x) == f(y) ==> x == y
  }

  ghost predicate InjectiveInState<T(!new), A(!new)>(step: (T, A) -> T) {
    forall x, y, a :: step(x, a) == step(y, a) ==> x == y
  }

  ghost predicate Additive<T(!new)>(f: T -> T, plus: (T, T) -> T) {
    forall x, y :: f(plus(x, y)) == plus(f(x), f(y))
  }

  /** Two runs superpose: the step distributes over `plus` on states and over xor on bits. */
  ghost predicate Superposes<T(!new)>(step: (T, bool) -> T, plus: (T, T) -> T) {
    forall x, y, a, b :: step(plus(x, y), a != b) == plus(step(x, a), step(y, b))
  }

  ghost predicate Simulates<T(!new), A(!new)>(fast: (T, A) -> T, slow: (T, A) -> T, h: T -> T) {
    forall x, a :: fast(h(x), a) == h(slow(x, a))
  }

  ghost predicate Associative<T(!new)>(plus: (T, T) -> T) {
    forall x, y, z :: plus(plus(x, y), z) == plus(x, plus(y, z))
  }

  ghost predicate RightUnit<T(!new)>(plus: (T, T) -> T, unit: T) {
    forall x :: plus(x, unit) == x
  }

  ghost predicate AddsThenShifts<T(!new)>(step: (T, bool) -> T, shift: T -> T, plus: (T, T) -> T, bit: bool -> T) {
    forall x, b {:trigger step(x, b)} :: step(x, b) == shift(plus(x, bit(b)))
  }

  ghost predicate PacksBits<T(!new)>(pack: seq<bool> -> T, plus: (T, T) -> T, bit: bool -> T, dbl: T -> T) {
    forall w: seq<bool> :: w != [] ==> pack(w) == plus(bit(w[0]), dbl(pack(w[1..])))
  }

  ghost predicate HalvesPacked<T(!new)>(pack: seq<bool> -> T, shift: T -> T, dbl: T -> T, width: nat) {
    forall w: seq<bool> :: |w| < width ==> shift(dbl(pack(w))) == pack(w)
  }

  function Xored(xs: seq<bool>, ys: seq<bool>): (zs: seq<bool>)
    requires |xs| == |ys|
    ensures |zs| == |xs|
  {
    seq(|xs|, i requires 0 <= i < |xs| => xs[i] != ys[i])
  }

  function Zeros(n: nat): (zs: seq<bool>)
    ensures |zs| == n
  {
    seq(n, _ => false)
  }

  function Ones(n: nat): (zs: seq<bool>)
    ensures |zs| == n
  {
    seq(n, _ => true)
  }

  lemma {:induction false} RunAppends<T, A>(step: (T, A) -> T, v: T, xs: seq<A>, ys: seq<A>)
    ensures Run(step, v, xs + ys) == Run(step, Run(step, v, xs), ys)
    decreases xs
  {
    if xs == [] {
      assert xs + ys == ys;
    } else {
      assert (xs + ys)[1..] == xs[1..] + ys;
      RunAppends(step, step(v, xs[0]), xs[1..], ys);
    }
  }

  lemma {:induction false} IterateAppends<T>(f: T -> T, v: T, m: nat, n: nat)
    ensures Iterate(f, v, m + n) == Iterate(f, Iterate(f, v, m), n)
    decreases m
  {
    if m > 0 {
      IterateAppends(f, f(v), m - 1, n);
    }
  }

  lemma {:induction false} IterateInjective<T(!new)>(f: T -> T, x: T, y: T, n: nat)
    requires Injective(f)
    requires Iterate(f, x, n) == Iterate(f, y, n)
    ensures x == y
    decreases n
  {
    if n > 0 {
      IterateInjective(f, f(x), f(y), n - 1);
    }
  }

  lemma {:induction false} IterateAdditive<T(!new)>(f: T -> T, plus: (T, T) -> T, x: T, y: T, n: nat)
    requires Additive(f, plus)
    ensures Iterate(f, plus(x, y), n) == plus(Iterate(f, x, n), Iterate(f, y, n))
    decreases n
  {
    if n > 0 {
      IterateAdditive(f, plus, f(x), f(y), n - 1);
    }
  }

  lemma {:induction false} RunInjectiveInState<T(!new), A(!new)>(step: (T, A) -> T, x: T, y: T, xs: seq<A>)
    requires InjectiveInState(step)
    requires Run(step, x, xs) == Run(step, y, xs)
    ensures x == y
    decreases xs
  {
    if xs != [] {
      RunInjectiveInState(step, step(x, xs[0]), step(y, xs[0]), xs[1..]);
    }
  }

  lemma {:induction false} RunSimulates<T(!new), A(!new)>(
      fast: (T, A) -> T, slow: (T, A) -> T, h: T -> T, v: T, xs: seq<A>)
    requires Simulates(fast, slow, h)
    ensures Run(fast, h(v), xs) == h(Run(slow, v, xs))
    decreases xs
  {
    if xs != [] {
      RunSimulates(fast, slow, h, slow(v, xs[0]), xs[1..]);
    }
  }

  lemma {:induction false} RunSuperposes<T(!new)>(
      step: (T, bool) -> T, plus: (T, T) -> T, x: T, y: T, xs: seq<bool>, ys: seq<bool>)
    requires Superposes(step, plus)
    requires |xs| == |ys|
    ensures Run(step, plus(x, y), Xored(xs, ys)) == plus(Run(step, x, xs), Run(step, y, ys))
    decreases xs
  {
    if xs != [] {
      assert Xored(xs, ys)[1..] == Xored(xs[1..], ys[1..]);
      RunSuperposes(step, plus, step(x, xs[0]), step(y, ys[0]), xs[1..], ys[1..]);
    }
  }

  /** A step that ignores a zero bit runs over zeros as its own iterate. */
  lemma {:induction false} RunZeros<T(!new)>(step: (T, bool) -> T, f: T -> T, v: T, n: nat)
    requires forall x :: step(x, false) == f(x)
    ensures Run(step, v, Zeros(n)) == Iterate(f, v, n)
    decreases n
  {
    if n > 0 {
      assert Zeros(n)[1..] == Zeros(n - 1);
      RunZeros(step, f, f(v), n - 1);
    }
  }

  /** Bits added one at a time, each followed by a shift, against the same bits packed into one
      value, added at once and shifted once for each: equal as long as nothing packed is lost. */
  lemma {:induction false} RunPacked<T(!new)>(
      step: (T, bool) -> T, shift: T -> T, plus: (T, T) -> T, bit: bool -> T, dbl: T -> T,
      pack: seq<bool> -> T, width: nat, v: T, bits: seq<bool>)
    requires |bits| <= width
    requires Additive(shift, plus)
    requires Associative(plus)
    requires RightUnit(plus, pack([]))
    requires AddsThenShifts(step, shift, plus, bit)
    requires PacksBits(pack, plus, bit, dbl)
    requires HalvesPacked(pack, shift, dbl, width)
    ensures Run(step, v, bits) == Iterate(shift, plus(v, pack(bits)), |bits|)
    decreases bits
  {
    if bits != [] {
      var rest := pack(bits[1..]);
      RunPacked(step, shift, plus, bit, dbl, pack, width, step(v, bits[0]), bits[1..]);
      assert plus(v, pack(bits)) == plus(plus(v, bit(bits[0])), dbl(rest));
      var b := bits[0];
      assert step(v, b) == shift(plus(v, bit(b)));
      assert shift(plus(plus(v, bit(b)), dbl(rest))) == plus(shift(plus(v, bit(b))), shift(dbl(rest)));
    } else {
      assert bits == [];
    }
  }
}
