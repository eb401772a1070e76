/** Splitting a pointer motion into steps with C's truncating division. */
module Motion {
  import opened CTypes

  const MAX_STEPS: int := 64

  /** Where the pointer stands after i of n steps towards distance d. */
  function Position(d: int, i: nat, n: nat): int
    requires n > 0
  {
    TruncDiv(d * i, n)
  }

  function StepOf(d: int, i: nat, n: nat): int
    requires 0 < i && n > 0
  {
    Position(d, i, n) - Position(d, i - 1, n)
  }

  datatype Move = Move(dx: int, dy: int)

  /** The moves of all n steps. */
  function Path(dx: int, dy: int, n: nat): (ms: seq<Move>)
    requires n > 0
    ensures |ms| == n
  {
    seq(n, i requires 0 <= i < n => Move(StepOf(dx, i + 1, n), StepOf(dy, i + 1, n)))
  }

  /** Zero moves left out, unless kept. */
  function Kept(ms: seq<Move>, keepZero: bool): (r: seq<Move>)
    ensures |r| <= |ms|
  {
    if ms == [] then []
    else
      var m := ms[|ms|-1];
      Kept(ms[..|ms|-1], keepZero) + (if m == Move(0, 0) && !keepZero then [] else [m])
  }

  /** The moves that are sent. */
  function Moves(dx: int, dy: int, n: nat, keepZero: bool): seq<Move>
    requires n > 0
  {
    Kept(Path(dx, dy, n), keepZero)
  }

  function SumX(ms: seq<Move>): int {
    if ms == [] then 0 else SumX(ms[..|ms|-1]) + ms[|ms|-1].dx
  }

  function SumY(ms: seq<Move>): int {
    if ms == [] then 0 else SumY(ms[..|ms|-1]) + ms[|ms|-1].dy
  }

  lemma KeepOne(all: seq<Move>, front: seq<Move>, m: Move, keepZero: bool)
    requires all == front + [m]
    ensures SumX(Kept(all, keepZero)) == SumX(Kept(front, keepZero)) + m.dx
    ensures SumY(Kept(all, keepZero)) == SumY(Kept(front, keepZero)) + m.dy
  {
    assert all[..|all|-1] == front;
    SumAppend(Kept(front, keepZero), m);
  }

  lemma SumAppend(ms: seq<Move>, m: Move)
    ensures SumX(ms + [m]) == SumX(ms) + m.dx && SumY(ms + [m]) == SumY(ms) + m.dy
    ensures ms + [] == ms
  {
    assert (ms + [m])[..|ms|] == ms;
  }

  /** The move from the i-th position to the next. */
  predicate Difference(m: Move, x: nat -> int, y: nat -> int, i: nat) {
    m.dx == x(i + 1) - x(i) && m.dy == y(i + 1) - y(i)
  }

  /** Differences of positions add up to the last position, whatever the
      positions are and whether or not zero differences are dropped. */
  lemma {:induction false} DifferencesAddUp(ms: seq<Move>, x: nat -> int, y: nat -> int, keepZero: bool)
    requires x(0) == y(0) == 0
    requires forall i :: 0 <= i < |ms| ==> Difference(ms[i], x, y, i)
    ensures SumX(Kept(ms, keepZero)) == x(|ms|) && SumY(Kept(ms, keepZero)) == y(|ms|)
  {
    if ms != [] {
      var n := |ms| - 1;
      DifferencesAddUp(ms[..n], x, y, keepZero);
      assert Difference(ms[n], x, y, n);
      KeepOne(ms, ms[..n], ms[n], keepZero);
    }
  }

  /** After any number of steps the emitted moves add up to the position of
      that step, skipped zero moves notwithstanding. */
  lemma MovesReachPosition(dx: int, dy: int, k: nat, n: nat, keepZero: bool)
    requires k <= n && n > 0
    ensures var ms := Kept(Path(dx, dy, n)[..k], keepZero);
            SumX(ms) == Position(dx, k, n) && SumY(ms) == Position(dy, k, n)
  {
    assert dx * 0 == 0 && dy * 0 == 0;
    DifferencesAddUp(Path(dx, dy, n)[..k], (i: nat) => Position(dx, i, n), (i: nat) => Position(dy, i, n), keepZero);
  }

  /** Truncation stays less than a divisor away, on the side of zero. */
  lemma TruncBounds(a: int, b: int)
    requires b > 0
    ensures a >= 0 ==> a - b < TruncDiv(a, b) * b <= a && 0 <= TruncDiv(a, b)
    ensures a <= 0 ==> a <= TruncDiv(a, b) * b < a + b && TruncDiv(a, b) <= 0
  {
  }

  /** Each position is the ideal one truncated: less than a pixel off, on the
      near side of it. */
  lemma PositionIsTruncatedIdeal(d: int, i: nat, n: nat)
    requires i <= n && n > 0
    ensures d >= 0 ==> d * i - n < Position(d, i, n) * n <= d * i
    ensures d <= 0 ==> d * i <= Position(d, i, n) * n < d * i + n
  {
    TruncBounds(d * i, n);
    Scale(if d >= 0 then d else -d, 0, i);
    Negate(d, i);
  }

  lemma MultipleAtLeast(n: int, k: int)
    requires n > 0
    ensures k >= 1 ==> n * k >= n
    ensures k <= -1 ==> n * k <= -n
  {
  }

  lemma DivMonotone(a: int, b: int, n: int)
    requires 0 <= a <= b && n > 0
    ensures 0 <= a / n <= b / n
  {
    assert a == n * (a / n) + a % n && b == n * (b / n) + b % n;
    assert n * (a / n - b / n) == a - b - a % n + b % n;
    MultipleAtLeast(n, a / n - b / n);
    MultipleAtLeast(n, a / n);
  }

  lemma DivOfProduct(d: int, n: int)
    requires n > 0
    ensures (d * n) / n == d
  {
    var a := d * n;
    assert a == n * (a / n) + a % n;
    assert n * (d - a / n) == a % n;
    MultipleAtLeast(n, d - a / n);
  }

  lemma Scale(m: int, i: int, j: int)
    requires m >= 0 && i <= j
    ensures m * i <= m * j
  {
  }

  lemma Negate(d: int, i: int)
    ensures (-d) * i == -(d * i)
  {
  }

  lemma {:induction false} ForwardIsMonotone(d: int, i: nat, j: nat, n: nat)
    requires i <= j <= n && n > 0 && d >= 0
    ensures 0 <= Position(d, i, n) <= Position(d, j, n) <= d
    ensures Position(d, n, n) == d
  {
    Scale(d, 0, i);
    Scale(d, i, j);
    Scale(d, j, n);
    DivMonotone(d * i, d * j, n);
    DivMonotone(d * j, d * n, n);
    DivOfProduct(d, n);
  }

  lemma Mirror(d: int, i: nat, n: nat)
    requires n > 0
    ensures Position(-d, i, n) == -Position(d, i, n)
  {
    Negate(d, i);
    TruncOfNegated(d * i, n);
  }

  lemma TruncOfNegated(a: int, n: nat)
    requires n > 0
    ensures TruncDiv(-a, n) == -TruncDiv(a, n)
  {
  }

  /** Motion never turns back and never overshoots; the last step lands
      exactly on the distance. */
  lemma MotionIsMonotone(d: int, i: nat, j: nat, n: nat)
    requires i <= j <= n && n > 0
    ensures Position(d, 0, n) == 0 && Position(d, n, n) == d
    ensures d >= 0 ==> 0 <= Position(d, i, n) <= Position(d, j, n) <= d
    ensures d <= 0 ==> d <= Position(d, j, n) <= Position(d, i, n) <= 0
  {
    assert d * 0 == 0;
    if d >= 0 {
      ForwardIsMonotone(d, i, j, n);
    } else {
      ForwardIsMonotone(-d, i, j, n);
      Mirror(d, i, n);
      Mirror(d, j, n);
      Mirror(d, n, n);
    }
  }

  /** The whole motion sums exactly to the distance asked for. */
  lemma WholeMotionIsExact(dx: int, dy: int, n: nat, keepZero: bool)
    requires n > 0
    ensures var ms := Moves(dx, dy, n, keepZero);
            SumX(ms) == dx && SumY(ms) == dy && |ms| <= n
  {
    MovesReachPosition(dx, dy, n, n, keepZero);
    MotionIsMonotone(dx, 0, 0, n);
    MotionIsMonotone(dy, 0, 0, n);
    assert Path(dx, dy, n)[..n] == Path(dx, dy, n);
  }

  // ---- where the remainder goes ----

  /** Every step before the last is the truncated quotient, so that the last
      takes the whole remainder. */
  ghost predicate LastTakesRemainder(d: int, n: nat)
    requires n > 0
  {
    forall i: nat :: 1 <= i < n ==> TakesQuotient(d, i, n)
  }

  predicate TakesQuotient(d: int, i: nat, n: nat)
    requires 1 <= i && n > 0
  {
    StepOf(d, i, n) == TruncDiv(d, n)
  }

  lemma QuotientIs(a: int, n: int, k: int)
    requires n > 0 && n * k <= a < n * k + n
    ensures a / n == k
  {
    assert a == n * (a / n) + a % n;
    assert n * (a / n - k) == a - n * k - a % n;
    MultipleAtLeast(n, a / n - k);
  }

  lemma Regroup(q: int, n: int, r: int, i: int)
    ensures (n * q + r) * i == n * (q * i) + r * i
  {
  }

  lemma EarlyPosition(d: nat, i: nat, n: nat)
    requires i < n && d % n <= 1
    ensures Position(d, i, n) == d / n * i
  {
    var q, r := d / n, d % n;
    Regroup(q, n, r, i);
    assert d == n * q + r;
    assert r * i == if r == 0 then 0 else i;
    Scale(d, 0, i);
    QuotientIs(d * i, n, q * i);
  }

  lemma {:induction false} EvenStepsAdd(d: nat, i: nat, n: nat)
    requires i < n && LastTakesRemainder(d, n)
    ensures Position(d, i, n) == d / n * i
  {
    if i > 0 {
      EvenStepsAdd(d, i - 1, n);
      assert TakesQuotient(d, i, n);
      Regroup(1, i - 1, 1, d / n);
    }
  }

  lemma EvenStepsLeave(d: nat, n: nat)
    requires n > 0 && LastTakesRemainder(d, n)
    ensures d % n * (n - 1) < n
  {
    var q, r, i := d / n, d % n, n - 1;
    EvenStepsAdd(d, i, n);
    PositionIsTruncatedIdeal(d, i, n);
    Regroup(q, n, r, i);
    assert d == n * q + r;
    assert Position(d, i, n) * n == n * (q * i);
  }

  lemma LargeRemainder(r: nat, n: nat)
    requires 2 <= r < n
    ensures r * (n - 1) >= n
  {
    Scale(n - 1, 2, r);
  }

  lemma QuotientTaken(d: nat, i: nat, n: nat)
    requires 1 <= i < n && d % n <= 1
    ensures TakesQuotient(d, i, n)
  {
    EarlyPosition(d, i, n);
    EarlyPosition(d, i - 1, n);
    Regroup(1, i - 1, 1, d / n);
  }

  lemma ForwardTakesRemainderIff(d: nat, n: nat)
    requires n > 0
    ensures LastTakesRemainder(d, n) <==> d % n <= 1
  {
    if d % n <= 1 {
      forall i: nat | 1 <= i < n ensures TakesQuotient(d, i, n) { QuotientTaken(d, i, n); }
    } else {
      LargeRemainder(d % n, n);
      if LastTakesRemainder(d, n) { EvenStepsLeave(d, n); }
    }
  }

  lemma StepMirrored(d: int, i: nat, n: nat)
    requires 1 <= i && n > 0
    ensures TakesQuotient(-d, i, n) <==> TakesQuotient(d, i, n)
  {
    Mirror(d, i, n);
    Mirror(d, i - 1, n);
    TruncOfNegated(d, n);
  }

  lemma MirrorTakesRemainder(d: int, n: nat)
    requires n > 0
    ensures LastTakesRemainder(-d, n) <==> LastTakesRemainder(d, n)
  {
    forall i: nat | 1 <= i < n ensures TakesQuotient(-d, i, n) <==> TakesQuotient(d, i, n) { StepMirrored(d, i, n); }
    SameSteps(-d, d, n);
  }

  lemma SameSteps(d: int, e: int, n: nat)
    requires n > 0 && forall i: nat :: 1 <= i < n ==> (TakesQuotient(d, i, n) <==> TakesQuotient(e, i, n))
    ensures LastTakesRemainder(d, n) <==> LastTakesRemainder(e, n)
  {
  }

  function Magnitude(d: int): nat {
    if d >= 0 then d else -d
  }

  /** The last step takes the whole remainder if and only if that is at most
      one pixel. */
  lemma LastTakesRemainderIff(d: int, n: nat)
    requires n > 0
    ensures LastTakesRemainder(d, n) <==> Magnitude(d) % n <= 1
  {
    ForwardTakesRemainderIff(Magnitude(d), n);
    if d < 0 { MirrorTakesRemainder(d, n); }
  }

  /** Ten pixels in four steps go 2, 3, 2, 3. */
  lemma RemainderIsSpread()
    ensures StepOf(10, 1, 4) == 2 && StepOf(10, 2, 4) == 3 && StepOf(10, 3, 4) == 2 && StepOf(10, 4, 4) == 3
    ensures !LastTakesRemainder(10, 4)
  {
    LastTakesRemainderIff(10, 4);
  }
}
