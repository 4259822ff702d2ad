/** The mixed-radix arithmetic of a cascade of wheels.

    Level `i` of a cascade has `s[i]` slots, each of which stands for `Unit(s, i)`
    consecutive ticks. The two functions everything else is written in are `Block`, the number
    of the level-`i` slot a tick belongs to, counted from tick 0, and `Hand`, the number of
    the level-`i` slot that is taken next once level 0 has been ticked `h` times. Both are
    counted without wrapping round; the position on the wheel is the remainder modulo `s[i]`. */
module WheelArithmetic {

  /** What the constructor of a cascade needs of its sizes: upper wheels start at
      position 1, so one of size 1 would start outside itself. */
  ghost predicate ValidSizes(s: seq<nat>) {
    && |s| >= 1
    && s[0] >= 1
    && forall i :: 1 <= i < |s| ==> s[i] >= 2
  }

  ghost predicate Positive(s: seq<nat>) {
    forall i :: 0 <= i < |s| ==> s[i] >= 1
  }

  function Unit(s: seq<nat>, i: nat): nat
    requires i <= |s|
  {
    if i == 0 then 1 else Unit(s, i - 1) * s[i - 1]
  }

  ghost function Block(s: seq<nat>, i: nat, t: nat): nat
    requires i <= |s| && Positive(s)
  {
    if i == 0 then t else Block(s, i - 1, t) / s[i - 1]
  }

  /** Where the hand of the next level stands when that of a level of `d` slots is at slot `g`. */
  function NextHand(g: nat, d: nat): nat
    requires d > 0
  {
    1 + g / d
  }

  ghost function Hand(s: seq<nat>, i: nat, h: nat): nat
    requires i <= |s| && Positive(s)
  {
    if i == 0 then h else NextHand(Hand(s, i - 1, h), s[i - 1])
  }

  /** The ticks by which the start positions run ahead: `Unit(1) + ... + Unit(i - 1)`. */
  ghost function HeadStart(s: seq<nat>, i: nat): nat
    requires i <= |s|
  {
    if i <= 1 then 0 else HeadStart(s, i - 1) + Unit(s, i - 1)
  }

  /** Where the hand of level `i` stands when that of level `j` below it is at slot `g`. */
  ghost function HandAbove(s: seq<nat>, j: nat, g: nat, i: nat): nat
    requires j <= i <= |s| && Positive(s)
    decreases i - j
  {
    if j == i then g else HandAbove(s, j + 1, NextHand(g, s[j]), i)
  }

  // ---- Facts about one division --------------------------------------------------------

  lemma SmallMultiple(k: int, d: int)
    requires d > 0 && -d < k * d < d
    ensures k == 0
  {
    assert k >= 1 ==> k * d >= d;
    assert k <= -1 ==> k * d <= -d;
  }

  lemma QuotientIs(n: int, d: int, q: int)
    requires d > 0 && q * d <= n < q * d + d
    ensures n / d == q
  {
    assert n == (n / d) * d + n % d;
    SmallMultiple(n / d - q, d);
  }

  lemma RemainderIs(n: int, d: int, q: int)
    requires d > 0 && q * d <= n < q * d + d
    ensures n % d == n - q * d
  {
    QuotientIs(n, d, q);
  }

  lemma QuotientMonotone(a: int, b: int, d: int)
    requires d > 0 && a <= b
    ensures a / d <= b / d
  {
    assert a == (a / d) * d + a % d;
    assert b == (b / d) * d + b % d;
    var k := a / d - b / d;
    assert k >= 1 ==> k * d >= d;
  }

  lemma QuotientShift(n: int, d: int)
    requires d > 0
    ensures (n + d) / d == n / d + 1 && (n + d) % d == n % d
  {
    assert n == (n / d) * d + n % d;
    assert (n / d + 1) * d == (n / d) * d + d;
    QuotientIs(n + d, d, n / d + 1);
  }

  lemma Regroup(q: int, b: int, r: int, a: int)
    ensures (q * b + r) * a == q * (a * b) + r * a
  {
    calc {
      (q * b + r) * a;
      q * b * a + r * a;
      q * (b * a) + r * a;
      q * (a * b) + r * a;
    }
  }

  /** `n` in the mixed radix `a`, `b`: the rest after whole blocks of `a * b`. */
  lemma MixedRadix(n: nat, a: nat, b: nat)
    requires a > 0 && b > 0
    ensures var q, r := (n / a) / b, (n / a) % b;
      && n == q * (a * b) + r * a + n % a
      && 0 <= r * a + n % a < a * b
  {
    var q, r := (n / a) / b, (n / a) % b;
    Regroup(q, b, r, a);
    assert r * a <= (b - 1) * a;
    assert (b - 1) * a == a * b - a;
  }

  lemma NestedQuotient(n: nat, a: nat, b: nat)
    requires a > 0 && b > 0
    ensures a * b > 0 && n / (a * b) == (n / a) / b
  {
    MixedRadix(n, a, b);
    QuotientIs(n, a * b, (n / a) / b);
  }

  /** The digit of `n` at place `a` in base `b`, read off in either order. */
  lemma DigitOf(n: nat, a: nat, b: nat)
    requires a > 0 && b > 0
    ensures a * b > 0 && (n % (a * b)) / a == (n / a) % b
  {
    MixedRadix(n, a, b);
    RemainderIs(n, a * b, (n / a) / b);
    QuotientIs(n % (a * b), a, (n / a) % b);
  }

  /** A number is its quotient and its remainder. */
  lemma Compose(q: nat, r: nat, d: nat)
    requires r < d
    ensures (q * d + r) / d == q && (q * d + r) % d == r
  {
    QuotientIs(q * d + r, d, q);
  }

  /** Adding two numbers digit by digit, with the carry. */
  lemma AddDigits(a: nat, b: nat, d: nat)
    requires d > 0
    ensures (a + b) / d == a / d + b / d + (if a % d + b % d < d then 0 else 1)
  {
    var q := a / d + b / d;
    assert a == (a / d) * d + a % d && b == (b / d) * d + b % d;
    assert q * d == (a / d) * d + (b / d) * d;
    if a % d + b % d < d {
      QuotientIs(a + b, d, q);
    } else {
      assert (q + 1) * d == q * d + d;
      QuotientIs(a + b, d, q + 1);
    }
  }

  lemma SameDigits(a: nat, b: nat, d: nat)
    requires d > 0 && a / d == b / d && a % d == b % d
    ensures a == b
  {
  }

  /** Two numbers less than `d` apart that have the same remainder are equal. */
  lemma SameRemainder(a: int, b: int, d: int)
    requires d > 0 && a % d == b % d && -d < a - b < d
    ensures a == b
  {
    assert a - b == (a / d - b / d) * d;
    SmallMultiple(a / d - b / d, d);
  }

  /** Stepping a number: the quotient moves exactly when the remainder wraps. */
  lemma StepQuotient(g: nat, d: nat)
    requires d > 0
    ensures g % d + 1 < d ==> (g + 1) / d == g / d && (g + 1) % d == g % d + 1
    ensures g % d + 1 == d ==> (g + 1) / d == g / d + 1 && (g + 1) % d == 0
  {
    assert g == (g / d) * d + g % d;
    if g % d + 1 < d {
      QuotientIs(g + 1, d, g / d);
    } else {
      assert (g / d + 1) * d == (g / d) * d + d;
      QuotientIs(g + 1, d, g / d + 1);
    }
  }

  /** Quotients are compared without dividing. */
  lemma QuotientAtLeast(n: nat, d: nat, q: nat)
    requires d > 0
    ensures n / d >= q <==> n >= q * d
  {
    assert n == (n / d) * d + n % d;
    var k := q - n / d;
    assert k >= 1 ==> k * d >= d;
    assert k <= 0 ==> k * d <= 0;
    assert q * d == (n / d) * d + k * d;
  }

  /** A block of the next level that lies after that of `g` lies after `g`. */
  lemma LaterBlockIsAhead(g: nat, d: nat, k: nat, r: nat)
    requires d > 0 && k > g / d
    ensures k * d + r > g
  {
    QuotientAtLeast(g, d, k);
  }

  /** The first number from `g` on with the remainder of `k`. */
  function NextAt(g: nat, k: nat, d: nat): (b: nat)
    requires d > 0
    ensures g <= b < g + d && b % d == k % d
  {
    NextRemainder(g, k, d);
    g + (k - g) % d
  }

  lemma NextRemainder(g: nat, k: nat, d: nat)
    requires d > 0
    ensures (g + (k - g) % d) % d == k % d
  {
    var r, q := (k - g) % d, (k - g) / d;
    assert g + r == k - q * d;
    var m := k / d;
    assert k == m * d + k % d;
    assert (m - q) * d == m * d - q * d;
    RemainderIs(g + r, d, m - q);
  }

  // ---- Blocks and hands ---------------------------------------------------------------

  lemma {:induction false} UnitPositive(s: seq<nat>, i: nat)
    requires i <= |s| && Positive(s)
    ensures Unit(s, i) > 0
  {
    if i > 0 {
      UnitPositive(s, i - 1);
      assert Unit(s, i - 1) * s[i - 1] > 0;
    }
  }

  /** Dividing level by level is dividing by the whole unit. */
  lemma {:induction false} BlockIsQuotient(s: seq<nat>, i: nat, t: nat)
    requires i <= |s| && Positive(s)
    ensures Unit(s, i) > 0 && Block(s, i, t) == t / Unit(s, i)
  {
    UnitPositive(s, i);
    if i > 0 {
      BlockIsQuotient(s, i - 1, t);
      NestedQuotient(t, Unit(s, i - 1), s[i - 1]);
    }
  }

  /** The hands in closed form: level `i >= 1` has been ticked
      `(h + Unit(1) + ... + Unit(i - 1)) / Unit(i)` times, and starts one slot ahead. */
  ghost function HandAfter(s: seq<nat>, i: nat, h: nat): nat
    requires i <= |s| && Positive(s)
  {
    UnitPositive(s, i);
    if i == 0 then h else 1 + (h + HeadStart(s, i)) / Unit(s, i)
  }

  lemma {:induction false} HandClosedForm(s: seq<nat>, i: nat, h: nat)
    requires i <= |s| && Positive(s)
    ensures Hand(s, i, h) == HandAfter(s, i, h)
  {
    UnitPositive(s, i);
    if i == 1 {
      assert Unit(s, 1) == Unit(s, 0) * s[0] == s[0];
      assert Hand(s, 1, h) == 1 + Hand(s, 0, h) / s[0];
    } else if i > 1 {
      HandClosedForm(s, i - 1, h);
      var u, n := Unit(s, i - 1), h + HeadStart(s, i - 1);
      QuotientShift(n, u);
      NestedQuotient(n + u, u, s[i - 1]);
    }
  }

  /** A step of one level steps the next one exactly when it wraps. */
  lemma HandAboveSteps(s: seq<nat>, j: nat, g: nat, i: nat)
    requires j < i <= |s| && Positive(s)
    ensures var g' := NextHand(g, s[j]);
      && HandAbove(s, j, g, i) == HandAbove(s, j + 1, g', i)
      && HandAbove(s, j, g + 1, i) == HandAbove(s, j + 1, if g % s[j] + 1 == s[j] then g' + 1 else g', i)
  {
    StepQuotient(g, s[j]);
  }

  lemma {:induction false} HandAboveIsHand(s: seq<nat>, j: nat, h: nat, i: nat)
    requires j <= i <= |s| && Positive(s)
    ensures HandAbove(s, j, Hand(s, j, h), i) == Hand(s, i, h)
    decreases i - j
  {
    if j < i {
      HandAboveIsHand(s, j + 1, h, i);
    }
  }

  /** The hand of a level above the first has passed slot `b` after `h` ticks exactly if `h` has
      reached `b` times its unit, less its head start. */
  lemma PassedExactly(s: seq<nat>, i: nat, h: nat, b: nat)
    requires 1 <= i <= |s| && Positive(s)
    ensures Hand(s, i, h) > b <==> h + HeadStart(s, i) >= b * Unit(s, i)
  {
    HandClosedForm(s, i, h);
    UnitPositive(s, i);
    QuotientAtLeast(h + HeadStart(s, i), Unit(s, i), b);
  }

  /** A tick that does not fit the window of one level is not yet due on the next:
      leaving the window above means being at or past the next level's hand. */
  lemma WindowOverflow(b: nat, g: nat, size: nat)
    requires size > 0 && b >= g + size
    ensures b / size >= 1 + g / size
  {
    QuotientShift(g, size);
    QuotientMonotone(g + size, b, size);
  }

  /** A whole block of the next level is exactly one window of this level, at the
      moment this level's hand is about to enter it. */
  lemma BlockIsWindow(b: nat, g: nat, size: nat)
    requires size > 0 && g % size == 0
    ensures b / size == g / size <==> g <= b < g + size
  {
    assert g == (g / size) * size;
    assert b == (b / size) * size + b % size;
    if g <= b < g + size {
      QuotientIs(b, size, g / size);
    }
  }
}
