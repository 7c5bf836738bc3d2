/** Levels and experience. The threshold of level n is round(10 * n^1.4) * 100, with
    the power taken exactly: comparisons are made between fifth powers. */
module Experience {
  import opened Basics

  /** Round to the nearest multiple of the step, halves up. */
  function RoundToStep(v: int, step: int): (r: int)
    ensures step > 0 && v >= 0 ==> r % step == 0 && v - step < 2 * r - v <= v + step
    ensures step <= 0 || v < 0 ==> r == v
  {
    if step <= 0 || v < 0 then v
    else
      MultipleOf((v + step / 2) / step, step);
      (v + step / 2) / step * step
  }

  lemma MultipleOf(q: int, step: int)
    requires step > 0
    ensures q * step % step == 0
  {
    var d := q - q * step / step;
    assert d * step == q * step % step;
    ProductOrder(1, d, step);
    ProductOrder(d, 0, step);
  }

  function Sq(x: int): int {
    x * x
  }

  function Cube(x: int): int {
    x * x * x
  }

  function Pow5(x: int): int {
    Sq(Sq(x)) * x
  }

  function Pow7(x: int): int {
    Sq(Cube(x)) * x
  }

  lemma SqMonotone(x: nat, y: nat)
    requires x <= y
    ensures Sq(x) <= Sq(y)
    ensures x < y ==> Sq(x) < Sq(y)
  {
    ProductOrder(x, y, x);
    ProductOrder(x, y, y);
  }

  /** The fifth power of 20 * n^1.4. */
  function Scaled(n: nat): (s: int) {
    3200000 * Pow7(n)
  }

  /** `k` is 10 * n^1.4 rounded to the nearest integer. */
  ghost predicate IsRoundedPower(n: nat, k: nat) {
    Pow5(2 * k - 1) <= Scaled(n) < Pow5(2 * k + 1)
  }

  lemma Pow5Monotone(x: nat, y: nat)
    requires x <= y
    ensures Pow5(x) <= Pow5(y)
    ensures x < y ==> Pow5(x) < Pow5(y)
  {
    SqMonotone(x, y);
    SqMonotone(Sq(x), Sq(y));
    ProductOrder(Sq(Sq(x)), Sq(Sq(y)), x);
    ProductOrder(x, y, Sq(Sq(y)));
    if x < y {
      SqMonotone(0, y);
      SqMonotone(0, Sq(y));
    }
  }

  function Search(target: nat, k: nat): (r: nat)
    requires k == 0 || Pow5(2 * k - 1) <= target
    ensures Pow5(2 * r - 1) <= target < Pow5(2 * r + 1)
    decreases target - k
  {
    if target < Pow5(2 * k + 1) then
      k
    else
      Pow5AtLeast(2 * k + 1);
      Search(target, k + 1)
  }

  lemma Pow5AtLeast(x: nat)
    ensures Pow5(x) >= x
  {
    if x > 0 {
      SqMonotone(1, x);
      SqMonotone(1, Sq(x));
      ProductOrder(1, Sq(Sq(x)), x);
    }
  }

  lemma ScaledIsNat(n: nat)
    ensures Scaled(n) >= 0 && (n >= 1 ==> Scaled(n) >= 3200000)
  {
    if n >= 1 {
      SqMonotone(1, n);
      ProductOrder(1, n * n, n);
      SqMonotone(1, Cube(n));
      ProductOrder(1, Sq(Cube(n)), n);
    }
  }

  function RoundedPower(n: nat): (k: nat)
    ensures IsRoundedPower(n, k)
  {
    ScaledIsNat(n);
    Search(Scaled(n), 0)
  }

  /** The rounding pins the value down. */
  lemma RoundedPowerUnique(n: nat, k: nat)
    requires IsRoundedPower(n, k)
    ensures RoundedPower(n) == k
  {
    var r := RoundedPower(n);
    if r < k {
      Pow5Monotone(2 * r + 1, 2 * k - 1);
    } else if k < r {
      Pow5Monotone(2 * k + 1, 2 * r - 1);
    }
  }

  function XPForNextLevel(level: nat): nat {
    RoundedPower(level) * 100
  }

  /** The first thresholds of the game. */
  lemma FirstThresholds()
    ensures XPForNextLevel(1) == 1000 && XPForNextLevel(2) == 2600 && XPForNextLevel(3) == 4700
    ensures XPForNextLevel(4) == 7000 && XPForNextLevel(5) == 9500
  {
    hide RoundedPower;
    FifthPowers();
    SeventhPowers();
    hide Pow5, Pow7;
    RoundedPowerUnique(1, 10);
    RoundedPowerUnique(2, 26);
    RoundedPowerUnique(3, 47);
    RoundedPowerUnique(4, 70);
    RoundedPowerUnique(5, 95);
  }

  lemma FifthPowers()
    ensures Pow5(19) <= 3200000 < Pow5(21)
    ensures Pow5(51) <= 409600000 < Pow5(53)
    ensures Pow5(93) <= 6998400000 < Pow5(95)
    ensures Pow5(139) <= 52428800000 < Pow5(141)
    ensures Pow5(189) <= 250000000000 < Pow5(191)
  {
  }

  lemma SeventhPowers()
    ensures Pow7(1) == 1 && Pow7(2) == 128 && Pow7(3) == 2187 && Pow7(4) == 16384 && Pow7(5) == 78125
  {
  }

  // Thresholds grow at every level.

  /** x^5 <= 20^5 n^7 bounds x^2 by 400 n^3. */
  lemma SquareBound(x: nat, n: nat)
    requires n >= 1
    ensures Pow5(x) <= Scaled(n) ==> Sq(x) <= 400 * Cube(n)
  {
    var z := 400 * Cube(n);
    ScaledIsNat(n);
    CubeIsPositive(n);
    var s, p := Scaled(n), Pow5(x);
    if Sq(x) > z {
      assert Sq(s) * n < Sq(p) by {
        Pow5Monotone(z, Sq(x));
        SquareOfPow5(x);
        PowerOfCube(n);
      }
      assert Sq(s) <= Sq(s) * n by {
        ProductOrder(1, n, Sq(s));
      }
      if p <= s {
        Pow5AtLeast(x);
        SqMonotone(p, s);
      }
    }
  }

  lemma CubeIsPositive(n: nat)
    requires n >= 1
    ensures Cube(n) >= 1 && Cube(n) >= n
  {
    SqMonotone(1, n);
    ProductOrder(1, n * n, n);
  }

  lemma SquareOfPow5(x: nat)
    ensures Pow5(Sq(x)) == Sq(Pow5(x))
  {
    var b := Sq(Sq(x));
    assert Pow5(Sq(x)) == Sq(b) * Sq(x);
    assert Sq(b * x) == Sq(b) * Sq(x);
  }

  lemma PowerOfCube(n: nat)
    ensures Pow5(400 * Cube(n)) == Sq(Scaled(n)) * n
  {
    var c := Cube(n);
    var c2 := Sq(c);
    assert Sq(400 * c) == 160000 * c2;
    assert Sq(160000 * c2) == 25600000000 * Sq(c2);
    assert 25600000000 * Sq(c2) * (400 * c) == 10240000000000 * (Sq(c2) * c);
    assert Sq(c2 * n) == Sq(c2) * Sq(n);
    assert Sq(3200000 * (c2 * n)) == 10240000000000 * Sq(c2 * n);
    assert Sq(c2) * Sq(n) * n == Sq(c2) * c;
  }

  lemma ExpandPow5(x: nat)
    ensures Pow5(x + 2) == Pow5(x) + 10 * Sq(Sq(x)) + 40 * (Sq(x) * x) + 80 * Sq(x) + 80 * x + 32
  {
    var a := Sq(x);
    var q := Sq(a) + 8 * (a * x) + 24 * a + 32 * x + 16;
    assert Sq(Sq(x + 2)) == q by {
      assert Sq(x + 2) == a + 4 * x + 4;
      SquareOfSum(a, 4 * x, 4);
      assert Sq(4 * x) == 16 * a;
      assert a * (4 * x) == 4 * (a * x);
    }
    assert q * x == Sq(a) * x + 8 * Sq(a) + 24 * (a * x) + 32 * a + 16 * x by {
      TimesX(a, x);
    }
    assert q * (x + 2) == q * x + 2 * q;
  }

  lemma TimesX(a: int, x: int)
    requires a == Sq(x)
    ensures (Sq(a) + 8 * (a * x) + 24 * a + 32 * x + 16) * x == Sq(a) * x + 8 * Sq(a) + 24 * (a * x) + 32 * a + 16 * x
  {
    assert x * x == a;
    Reassociate(a, x, x);
    assert a * x * x == Sq(a);
    hide Sq;
    Distribute5(Sq(a), 8 * (a * x), 24 * a, 32 * x, 16, x);
    Reassociate(8, a * x, x);
    Reassociate(24, a, x);
    Reassociate(32, x, x);
  }

  lemma Reassociate(a: int, b: int, c: int)
    ensures a * b * c == a * (b * c)
  {
  }

  lemma SquareOfSum(a: int, b: int, c: int)
    ensures Sq(a + b + c) == Sq(a) + Sq(b) + Sq(c) + 2 * (a * b) + 2 * (a * c) + 2 * (b * c)
  {
    assert Sq(a + b + c) == (a + b + c) * a + (a + b + c) * b + (a + b + c) * c;
  }

  lemma Distribute5(a: int, b: int, c: int, d: int, e: int, x: int)
    ensures (a + b + c + d + e) * x == a * x + b * x + c * x + d * x + e * x
  {
    assert (a + b + c + d + e) * x == (a + b) * x + (c + d + e) * x;
    assert (c + d + e) * x == (c + d) * x + e * x;
  }

  lemma CubeOfNext(n: nat)
    ensures Cube(n + 1) == Cube(n) + 3 * Sq(n) + (3 * n + 1)
  {
    assert Sq(n + 1) == Sq(n) + 2 * n + 1;
    assert Cube(n + 1) == Sq(n + 1) * (n + 1);
    assert Cube(n) == Sq(n) * n;
    assert (Sq(n) + 2 * n + 1) * (n + 1) == (Sq(n) + 2 * n + 1) * n + (Sq(n) + 2 * n + 1);
  }

  lemma CubeIsSquareTimes(n: nat)
    ensures Cube(n) == Sq(n) * n && Sq(n) >= 0 && Cube(n) >= 0
  {
    ProductOrder(0, n, n);
    ProductOrder(0, n * n, n);
  }

  lemma SquareOfNextCube(n: nat)
    ensures Sq(Cube(n + 1)) >= Sq(Cube(n)) + 6 * (Cube(n) * Sq(n))
  {
    hide Cube, Sq;
    CubeIsSquareTimes(n);
    CubeOfNext(n);
    SquareOfSumAtLeast(Cube(n), 3 * Sq(n), 3 * n + 1);
    Thrice(Cube(n), Sq(n));
  }

  lemma Thrice(a: int, b: int)
    ensures a * (3 * b) == 3 * (a * b)
  {
  }

  lemma SquareOfSumAtLeast(a: nat, b: nat, c: nat)
    ensures Sq(a + b + c) >= Sq(a) + 2 * (a * b)
  {
    SquareOfSum(a, b, c);
    assert a * c >= 0 && b * c >= 0;
    assert Sq(b) >= 0 && Sq(c) >= 0;
  }

  lemma ExpandPow7(n: nat)
    ensures Pow7(n + 1) >= Pow7(n) + 7 * Sq(Cube(n))
  {
    hide Sq, Cube;
    SquareOfNextCube(n);
    FifthTimesN(n);
    NextSeventh(Cube(n) * Sq(n), Sq(Cube(n)), Sq(Cube(n + 1)), n);
  }

  lemma NextSeventh(n5: nat, n6: int, m6: int, n: nat)
    requires n5 * n == n6 && m6 >= n6 + 6 * n5
    ensures m6 * (n + 1) >= n6 * n + 7 * n6
  {
    ProductOrder(n6 + 6 * n5, m6, n + 1);
    Distribute(n6, 6 * n5, n);
  }

  lemma Distribute(a: int, b: int, n: int)
    ensures (a + b) * (n + 1) == a * n + b * n + a + b
  {
  }

  lemma FifthTimesN(n: nat)
    ensures Cube(n) * Sq(n) * n == Sq(Cube(n)) && Cube(n) * Sq(n) >= 0
  {
    hide Cube, Sq;
    CubeIsSquareTimes(n);
    Reassociate(Cube(n), Sq(n), n);
    SqIsProduct(Cube(n));
    ProductOrder(0, Cube(n), Sq(n));
  }

  lemma SqIsProduct(x: int)
    ensures Sq(x) == x * x
  {
  }

  lemma SquareAtLeast(x: nat)
    requires x >= 1
    ensures Sq(x) >= x
  {
    ProductOrder(1, x, x);
  }

  lemma SquareOf400(c: int)
    ensures Sq(400 * c) == 160000 * Sq(c)
  {
  }

  lemma ProductBelowSquare(x: int, y: nat)
    requires x <= y
    ensures y * x <= Sq(y)
  {
    ProductOrder(x, y, y);
  }

  lemma LowerPowers(x: nat, n: nat)
    requires n >= 1 && x >= 1 && Sq(x) <= 400 * Cube(n)
    ensures var n6 := Sq(Cube(n));
      && n6 >= 1 && Sq(Sq(x)) <= 160000 * n6 && Sq(x) * x <= Sq(Sq(x)) && Sq(x) <= 400 * n6 && x <= Sq(x)
  {
    hide Sq, Cube;
    var c := Cube(n);
    CubeIsPositive(n);
    SquareAtLeast(c);
    SquareAtLeast(x);
    SquareOf400(c);
    SqMonotone(Sq(x), 400 * c);
    ProductBelowSquare(x, Sq(x));
  }

  /** The next odd number's fifth power stays below the next level's scale. */
  lemma NextScale(x: nat, n: nat)
    requires n >= 1 && x >= 1 && Pow5(x) <= Scaled(n)
    ensures Pow5(x + 2) <= Scaled(n + 1)
  {
    hide Pow5, Pow7, Sq, Cube;
    SquareBound(x, n);
    LowerPowers(x, n);
    ExpandPow5(x);
    ExpandPow7(n);
    PowersFit(Sq(Sq(x)), Sq(x) * x, Sq(x), x, Sq(Cube(n)), Pow5(x), Pow7(n), Pow7(n + 1));
  }

  /** The sum of the lower powers, against seven times the sixth power of n. */
  lemma PowersFit(x4: int, x3: int, x2: int, x: int, n6: int, x5: int, n7: int, next7: int)
    requires x4 <= 160000 * n6 && x3 <= x4 && x2 <= 400 * n6 && x <= x2 && n6 >= 1
    requires x5 <= 3200000 * n7 && next7 >= n7 + 7 * n6
    ensures x5 + 10 * x4 + 40 * x3 + 80 * x2 + 80 * x + 32 <= 3200000 * next7
  {
  }

  lemma RoundedPowerGrows(n: nat)
    requires n >= 1
    ensures 1 <= RoundedPower(n) < RoundedPower(n + 1)
  {
    hide Pow5, Scaled, Search;
    var k, next := RoundedPower(n), RoundedPower(n + 1);
    ScaledIsNat(n);
    assert Pow5(1) == 1 by {
      OneToTheFifth();
    }
    assert k >= 1;
    NextScale(2 * k - 1, n);
    if next <= k {
      Pow5Monotone(2 * next + 1, 2 * k + 1);
    }
  }

  lemma OneToTheFifth()
    ensures Pow5(1) == 1
  {
  }

  /** Every threshold is a positive multiple of 100 and below the next one. */
  lemma ThresholdsGrow(level: nat)
    requires level >= 1
    ensures XPForNextLevel(level) % 100 == 0
    ensures 1000 <= XPForNextLevel(level) < XPForNextLevel(level + 1)
    decreases level
  {
    hide RoundedPower, IsRoundedPower;
    RoundedPowerGrows(level);
    if level == 1 {
      FirstThresholds();
    } else {
      ThresholdsGrow(level - 1);
    }
  }

  // Gaining experience.

  /** Experience needed to reach a level from level 1. */
  function SumBelow(level: nat): nat {
    if level <= 1 then 0 else SumBelow(level - 1) + XPForNextLevel(level - 1)
  }

  datatype Progress = Progress(level: nat, xpCurrent: int, xpTotal: int, skillpoints: int)

  /** Level and experience within it agree with the total. */
  ghost predicate Consistent(p: Progress) {
    && p.level >= 1
    && p.xpTotal == SumBelow(p.level) + p.xpCurrent
    && 0 <= p.xpCurrent < XPForNextLevel(p.level)
  }

  /** Take full levels out of `xp`. */
  function Climb(level: nat, xp: nat): (r: (nat, nat))
    requires level >= 1
    ensures r.0 >= level
    decreases xp
  {
    ThresholdsGrow(level);
    if xp >= XPForNextLevel(level) then Climb(level + 1, xp - XPForNextLevel(level)) else (level, xp)
  }

  function ApplyXP(p: Progress, gained: int): Progress
    requires p.level >= 1 && p.xpCurrent >= 0
  {
    if gained <= 0 then p
    else
      var (level, xp) := Climb(p.level, p.xpCurrent + gained);
      Progress(level, xp, p.xpTotal + gained, p.skillpoints + (level - p.level))
  }

  lemma {:induction false} ClimbKeepsSum(level: nat, xp: nat)
    requires level >= 1
    ensures var (l, x) := Climb(level, xp);
      SumBelow(l) + x == SumBelow(level) + xp && x < XPForNextLevel(l)
    decreases xp
  {
    hide XPForNextLevel;
    ThresholdsGrow(level);
    if xp >= XPForNextLevel(level) {
      ClimbKeepsSum(level + 1, xp - XPForNextLevel(level));
    }
  }

  lemma {:induction false} SumBelowGrows(low: nat, high: nat)
    requires 1 <= low < high
    ensures SumBelow(low) + XPForNextLevel(low) <= SumBelow(high)
    decreases high
  {
    hide XPForNextLevel;
    if low < high - 1 {
      SumBelowGrows(low, high - 1);
    }
  }

  /** The total alone decides the level and the experience within it. */
  lemma TotalDecidesLevel(p: Progress, q: Progress)
    requires Consistent(p) && Consistent(q) && p.xpTotal == q.xpTotal
    ensures p.level == q.level && p.xpCurrent == q.xpCurrent
  {
    hide XPForNextLevel;
    if p.level < q.level {
      SumBelowGrows(p.level, q.level);
    } else if q.level < p.level {
      SumBelowGrows(q.level, p.level);
    }
  }

  /** Every grant keeps level, current and total experience consistent, and pays one
      skill point per level. */
  lemma ApplyKeepsConsistent(p: Progress, gained: int)
    requires Consistent(p)
    ensures Consistent(ApplyXP(p, gained))
    ensures ApplyXP(p, gained).xpTotal == p.xpTotal + Max(gained, 0)
    ensures ApplyXP(p, gained).skillpoints - p.skillpoints == ApplyXP(p, gained).level - p.level >= 0
  {
    hide XPForNextLevel;
    if gained > 0 {
      ClimbKeepsSum(p.level, p.xpCurrent + gained);
    }
  }

  /** Two grants are one grant of their sum. */
  lemma ApplyTwiceIsOnce(p: Progress, a: nat, b: nat)
    requires Consistent(p)
    ensures ApplyXP(ApplyXP(p, a), b) == ApplyXP(p, a + b)
  {
    hide ApplyXP, XPForNextLevel;
    ApplyKeepsConsistent(p, a);
    ApplyKeepsConsistent(ApplyXP(p, a), b);
    ApplyKeepsConsistent(p, a + b);
    TotalDecidesLevel(ApplyXP(ApplyXP(p, a), b), ApplyXP(p, a + b));
  }

  function ApplyAll(p: Progress, gains: seq<int>): Progress
    requires p.level >= 1 && p.xpCurrent >= 0
    decreases |gains|
  {
    if gains == [] then p else ApplyAll(ApplyXP(p, gains[0]), gains[1..])
  }

  /** Over any run of grants from a new account, the total is the sum of the
      thresholds passed plus the experience within the level. */
  lemma {:induction false} RunKeepsConsistent(p: Progress, gains: seq<int>)
    requires Consistent(p)
    ensures Consistent(ApplyAll(p, gains))
    ensures ApplyAll(p, gains).skillpoints - p.skillpoints == ApplyAll(p, gains).level - p.level
    decreases |gains|
  {
    hide ApplyXP, XPForNextLevel;
    if gains != [] {
      ApplyKeepsConsistent(p, gains[0]);
      RunKeepsConsistent(ApplyXP(p, gains[0]), gains[1..]);
    }
  }

  lemma NewPlayerIsConsistent()
    ensures Consistent(Progress(1, 0, 0, 0))
  {
    ThresholdsGrow(1);
  }

  /** What finishing a session writes: level and experience computed from the row as
      it was read, skill points added to the row as it is. */
  function CommitReward(current: Progress, read: Progress, gained: int): Progress
    requires read.level >= 1 && read.xpCurrent >= 0
  {
    var r := ApplyXP(read, gained);
    Progress(r.level, r.xpCurrent, r.xpTotal, current.skillpoints + (r.level - read.level))
  }

  /** A reward is not lost exactly when no other reward was written in between. Level
      and experience agree with the total either way; skill points follow the level
      exactly when the reading had the right level, or else points are paid twice for
      one level or not at all. */
  lemma RewardIsKeptIff(current: Progress, read: Progress, gained: nat)
    requires Consistent(current) && Consistent(read)
    ensures var r := CommitReward(current, read, gained);
      && Consistent(r)
      && (r == ApplyXP(current, gained) <==> read.xpTotal == current.xpTotal)
      && (r.skillpoints - current.skillpoints == r.level - current.level <==> read.level == current.level)
      && (current.skillpoints == current.level - 1 ==> (r.skillpoints == r.level - 1 <==> read.level == current.level))
  {
    hide ApplyXP, XPForNextLevel;
    ApplyKeepsConsistent(read, gained);
    ApplyKeepsConsistent(current, gained);
    if read.xpTotal == current.xpTotal {
      TotalDecidesLevel(read, current);
      TotalDecidesLevel(ApplyXP(read, gained), ApplyXP(current, gained));
    }
  }

  /** Two rewards of a thousand computed from one reading of a new player: one level,
      two skill points. */
  lemma TwoRewardsFromOneReading()
    ensures var read := Progress(1, 0, 0, 0);
      CommitReward(CommitReward(read, read, 1000), read, 1000) == Progress(2, 0, 1000, 2)
  {
    FirstThresholds();
    hide XPForNextLevel;
    assert Climb(2, 0) == (2, 0) by {
      ThresholdsGrow(2);
    }
    assert Climb(1, 1000) == Climb(2, 0);
  }

  /** From a new account, after any grants, the level is what the total says and one
      skill point was paid for every level. */
  lemma PlayersStayConsistent(gains: seq<int>)
    ensures var p := ApplyAll(Progress(1, 0, 0, 0), gains);
      Consistent(p) && p.skillpoints == p.level - 1
  {
    hide Consistent, ApplyAll;
    NewPlayerIsConsistent();
    RunKeepsConsistent(Progress(1, 0, 0, 0), gains);
  }

  /** The player's row, updated level by level. */
  class Player {
    var level: nat
    var xpCurrent: int
    var xpTotal: int
    var skillpoints: int

    constructor ()
      ensures View() == Progress(1, 0, 0, 0)
    {
      level, xpCurrent, xpTotal, skillpoints := 1, 0, 0, 0;
    }

    ghost function View(): Progress
      reads this
    {
      Progress(level, xpCurrent, xpTotal, skillpoints)
    }

    method GainXP(gained: int) returns (levels: int)
      requires level >= 1 && xpCurrent >= 0
      modifies this
      ensures View() == ApplyXP(old(View()), gained)
      ensures levels == level - old(level)
    {
      hide XPForNextLevel;
      if gained <= 0 {
        return 0;
      }
      var startLevel := level;
      xpTotal := xpTotal + gained;
      xpCurrent := xpCurrent + gained;
      while xpCurrent >= XPForNextLevel(level)
        invariant level >= startLevel && xpCurrent >= 0
        invariant Climb(level, xpCurrent) == Climb(startLevel, old(xpCurrent) + gained)
        invariant skillpoints == old(skillpoints) + (level - startLevel)
        invariant xpTotal == old(xpTotal) + gained
        decreases xpCurrent
      {
        ThresholdsGrow(level);
        xpCurrent := xpCurrent - XPForNextLevel(level);
        level := level + 1;
        skillpoints := skillpoints + 1;
      }
      levels := level - startLevel;
    }
  }
}
