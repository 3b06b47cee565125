/** The emission of coins, block by block: a reward that rises over the early intervals and falls afterwards. */
module Emission {
  import opened Arith

  // coins_already_generated and the rewards are uint64_t
  const WORD: nat := 0x1_0000_0000_0000_0000

  function Pow2(e: nat): (p: nat)
    ensures p >= 1
  {
    if e == 0 then 1 else 2 * Pow2(e - 1)
  }

  // x >> e
  function Shr(x: nat, e: nat): (r: nat)
    ensures r <= x
  {
    if e == 0 then x else Shr(x, e - 1) / 2
  }

  /** The constants of the configuration; share(k) is the part of the supply that sets the reward of the k-th
      early interval. */
  datatype Params = Params(supply: nat, speed: nat, interval: nat, peak: nat, subsidy: nat, genesis: nat, round: nat,
                           share: nat -> real)
  {
    ghost predicate Valid() {
      && 0 < interval && 0 < subsidy && 0 < round && supply < WORD
      && forall k :: share(k) >= 0.0
    }
  }

  // ----- one block

  predicate Early(p: Params, height: nat) {
    height < p.peak + p.interval
  }

  lemma Positive(a: real, b: real)
    requires a >= 0.0 && b >= 0.0
    ensures a * b >= 0.0
  {
  }

  function Product(p: Params, k: nat): real {
    p.supply as real * p.share(k)
  }

  // The part of the supply that sets the reward of the k-th early interval, in whole units.
  function Part(p: Params, k: nat): nat
    requires p.Valid()
  {
    Positive(p.supply as real, p.share(k));
    Product(p, k).Floor
  }

  function IntervalOf(p: Params, height: nat): nat
    requires p.Valid()
  {
    height / p.interval
  }

  /** The reward computed at the start of an interval, before rounding. */
  function Computed(p: Params, height: nat, total: nat): nat
    requires p.Valid()
  {
    if Early(p, height) then Shr(Part(p, IntervalOf(p, height)), p.speed) else Shr((p.supply - total) % WORD, p.speed)
  }

  function Rounded(round: nat, computed: nat): (r: nat)
    requires round > 0
    ensures r <= computed
  {
    computed / round * round
  }

  function Half(n: nat): nat {
    n / 2
  }

  function BlockReward(p: Params, height: nat, computed: nat, total: nat): nat
    requires p.Valid()
  {
    var r := if height == 0 then p.genesis else Rounded(p.round, computed);
    if r >= p.subsidy then r else if p.supply > total then p.subsidy else Half(p.subsidy)
  }

  // How many blocks of its interval come before a block.
  function BlockOf(p: Params, height: nat): nat
    requires p.Valid()
  {
    height % p.interval
  }

  predicate AtStart(p: Params, height: nat)
    requires p.Valid()
  {
    BlockOf(p, height) == 0
  }

  datatype State = State(height: nat, total: nat, computed: nat)

  function Step(p: Params, s: State): State
    requires p.Valid()
  {
    var computed := if AtStart(p, s.height) then Computed(p, s.height, s.total) else s.computed;
    State(s.height + 1, (s.total + BlockReward(p, s.height, computed, s.total)) % WORD, computed)
  }

  /** After n blocks. */
  function Run(p: Params, n: nat): State
    requires p.Valid()
  {
    if n == 0 then State(0, 0, 0) else Step(p, Run(p, n - 1))
  }

  // The loop goes on.
  predicate Open(p: Params, total: nat) {
    total < p.supply - p.subsidy
  }

  /** The loop gets as far as n blocks. */
  ghost predicate Reaches(p: Params, n: nat)
    requires p.Valid()
  {
    forall m: nat | m < n :: Open(p, Run(p, m).total)
  }

  // ----- the recurrence over intervals

  // The height at which the k-th interval starts.
  function Start(p: Params, k: nat): nat {
    if k == 0 then 0 else Start(p, k - 1) + p.interval
  }

  /** The reward of the blocks of the k-th interval. */
  function Reward(p: Params, k: nat): (r: nat)
    requires p.Valid()
    ensures r >= p.subsidy
    decreases k, 2
  {
    var r := Rounded(p.round, Computed(p, Start(p, k), Total(p, k)));
    if r >= p.subsidy then r else p.subsidy
  }

  // The first block of all has a reward of its own.
  function RewardAt(p: Params, k: nat, j: nat): (r: nat)
    requires p.Valid()
    ensures r >= p.subsidy
    decreases k, 3
  {
    if k > 0 || j > 0 then Reward(p, k) else if p.genesis >= p.subsidy then p.genesis else p.subsidy
  }

  /** What the first j blocks of the k-th interval add. */
  function Added(p: Params, k: nat, j: nat): nat
    requires p.Valid()
    decreases k, 4, j
  {
    if j == 0 then 0 else Added(p, k, j - 1) + RewardAt(p, k, j - 1)
  }

  /** The coins generated before the k-th interval. */
  function Total(p: Params, k: nat): nat
    requires p.Valid()
    decreases k, 1
  {
    if k == 0 then 0 else Total(p, k - 1) + Added(p, k - 1, p.interval)
  }

  /** The early intervals end below what the loop runs to. */
  ghost predicate RisesBelow(p: Params)
    requires p.Valid()
  {
    && p.interval < Pow2(p.speed)
    && forall k: nat | Early(p, Start(p, k)) :: Open(p, Total(p, k + 1))
  }

  // ----- the recurrence in closed form

  lemma {:induction false} StartIs(p: Params, k: nat)
    ensures Start(p, k) == k * p.interval
  {
    if k > 0 {
      StartIs(p, k - 1);
      assert k * p.interval == (k - 1) * p.interval + p.interval;
    }
  }

  lemma {:induction false} AddedIs(p: Params, k: nat, j: nat)
    requires p.Valid()
    ensures Added(p, k, j) == if k == 0 && j > 0 then RewardAt(p, 0, 0) + (j - 1) * Reward(p, 0) else j * Reward(p, k)
    decreases j
  {
    if j > 0 {
      AddedIs(p, k, j - 1);
      Distribute(j - 1, Reward(p, k));
      if j > 1 { Distribute(j - 2, Reward(p, k)); }
    }
  }

  lemma Distribute(j: nat, r: nat)
    ensures (j + 1) * r == j * r + r
  {
  }

  /** Every interval after the first adds its length times its reward; in the first, the first block differs. */
  lemma TotalGrows(p: Params, k: nat)
    requires p.Valid()
    ensures Total(p, k + 1) == Total(p, k) + if k == 0 then RewardAt(p, 0, 0) + (p.interval - 1) * Reward(p, 0)
            else p.interval * Reward(p, k)
  {
    AddedIs(p, k, p.interval);
  }

  // ----- arithmetic

  lemma HeightAt(p: Params, k: nat, j: nat)
    requires p.Valid() && j < p.interval
    ensures IntervalOf(p, Start(p, k) + j) == k
    ensures AtStart(p, Start(p, k) + j) <==> j == 0
  {
    StartIs(p, k);
    Unique(k * p.interval + j, k, j, p.interval);
  }

  lemma {:induction false} ShrIs(x: nat, e: nat)
    ensures Shr(x, e) * Pow2(e) <= x < (Shr(x, e) + 1) * Pow2(e)
  {
    if e > 0 {
      ShrIs(x, e - 1);
      Halve(x, Shr(x, e - 1), Pow2(e - 1));
    }
  }

  lemma Halve(x: nat, y: nat, d: nat)
    requires y * d <= x < (y + 1) * d
    ensures (y / 2) * (2 * d) <= x < (y / 2 + 1) * (2 * d)
  {
    var q := y / 2;
    Scaled(2 * q, y, d);
    Scaled(y + 1, 2 * q + 2, d);
    Twice(q, d);
    Twice(q + 1, d);
  }

  lemma Twice(q: nat, d: nat)
    ensures (2 * q) * d == q * (2 * d)
  {
  }

  lemma {:induction false} ShrMonotone(x: nat, y: nat, e: nat)
    requires x <= y
    ensures Shr(x, e) <= Shr(y, e)
  {
    if e > 0 { ShrMonotone(x, y, e - 1); }
  }

  lemma {:induction false} AddedGrows(p: Params, k: nat, i: nat, j: nat)
    requires p.Valid() && i <= j
    ensures Added(p, k, i) <= Added(p, k, j)
    decreases j - i
  {
    if i < j { AddedGrows(p, k, i, j - 1); }
  }

  // ----- safety

  lemma Fits(i: nat, d: nat, left: nat, q: nat, r: nat)
    requires 0 < i < d && 0 < r <= q && q * d <= left
    ensures i * r < left
  {
    Scaled(i, d - 1, r);
    assert (d - 1) * r == d * r - r;
    Scaled(r, q, d);
  }

  /** The blocks of a later interval, unless their reward is the final subsidy, together take less than what is
      left when the interval starts. */
  lemma LaterIntervalFits(p: Params, k: nat)
    requires p.Valid() && p.interval < Pow2(p.speed) && !Early(p, Start(p, k)) && Total(p, k) < p.supply
    ensures Reward(p, k) == p.subsidy || Added(p, k, p.interval) < p.supply - Total(p, k)
  {
    var left := p.supply - Total(p, k);
    if Reward(p, k) != p.subsidy {
      ShrIs(left, p.speed);
      Fits(p.interval, Pow2(p.speed), left, Shr(left, p.speed), Reward(p, k));
      AddedIs(p, k, p.interval);
    }
  }

  /** After j blocks of the k-th interval the loop stands where the recurrence says, below the supply. */
  ghost predicate Follows(p: Params, k: nat, j: nat)
    requires p.Valid()
  {
    var s := Run(p, Start(p, k) + j);
    && s.height == Start(p, k) + j && s.total == Total(p, k) + Added(p, k, j) && s.total < p.supply
    && (j > 0 ==> s.computed == Computed(p, Start(p, k), Total(p, k)))
  }

  /** Whatever number of blocks the loop gets to, the coins generated are those of the recurrence over intervals,
      less than the supply, and no addition has wrapped around. */
  lemma {:induction false} Refines(p: Params, k: nat, j: nat)
    requires p.Valid() && RisesBelow(p) && j <= p.interval && Reaches(p, Start(p, k) + j)
    ensures Follows(p, k, j)
    decreases k, j
  {
    if j == 0 {
      if k == 0 {
        assert Early(p, Start(p, 0));
      } else {
        Refines(p, k - 1, p.interval);
      }
    } else {
      Refines(p, k, j - 1);
      BlockRuns(p, k, j - 1);
    }
  }

  // One block inside the k-th interval.
  lemma BlockRuns(p: Params, k: nat, j: nat)
    requires p.Valid() && RisesBelow(p) && j < p.interval && Follows(p, k, j) && Open(p, Run(p, Start(p, k) + j).total)
    ensures Follows(p, k, j + 1)
    ensures var n := Start(p, k) + j; Run(p, n + 1).total == Run(p, n).total + RewardAt(p, k, j)
    ensures var n := Start(p, k) + j; RewardAt(p, k, j) == BlockReward(p, n, Run(p, n + 1).computed, Run(p, n).total)
  {
    var s := Run(p, Start(p, k) + j);
    HeightAt(p, k, j);
    RewardIs(p, k, j, s.total);
    BlockFits(p, k, j);
    StepTo(p, s, Computed(p, Start(p, k), Total(p, k)), RewardAt(p, k, j));
    assert Run(p, Start(p, k) + (j + 1)) == Step(p, s);
  }

  lemma StepTo(p: Params, s: State, computed: nat, r: nat)
    requires p.Valid() && computed == (if AtStart(p, s.height) then Computed(p, s.height, s.total) else s.computed)
    requires r == BlockReward(p, s.height, computed, s.total) && s.total + r < p.supply
    ensures Step(p, s) == State(s.height + 1, s.total + r, computed)
  {
  }

  lemma RewardIs(p: Params, k: nat, j: nat, total: nat)
    requires p.Valid() && total < p.supply
    ensures BlockReward(p, Start(p, k) + j, Computed(p, Start(p, k), Total(p, k)), total) == RewardAt(p, k, j)
  {
  }

  lemma BlockFits(p: Params, k: nat, j: nat)
    requires p.Valid() && RisesBelow(p) && j < p.interval && Open(p, Total(p, k) + Added(p, k, j))
    ensures Total(p, k) + Added(p, k, j + 1) < p.supply
  {
    AddedGrows(p, k, j + 1, p.interval);
    if Early(p, Start(p, k)) {
      assert Open(p, Total(p, k + 1));
    } else {
      LaterIntervalFits(p, k);
    }
  }

  lemma Located(p: Params, n: nat)
    requires p.Valid()
    ensures n == Start(p, IntervalOf(p, n)) + BlockOf(p, n) && BlockOf(p, n) < p.interval
  {
    StartIs(p, n / p.interval);
  }

  /** Every block of the run adds its reward, at least the final subsidy, without wrapping around, and leaves some
      of the supply. */
  lemma EveryBlock(p: Params, n: nat)
    requires p.Valid() && RisesBelow(p) && Reaches(p, n + 1)
    ensures var s, t := Run(p, n), Run(p, n + 1);
            && t.total == s.total + BlockReward(p, n, t.computed, s.total)
            && s.total + p.subsidy <= t.total < p.supply
  {
    Located(p, n);
    assert Reaches(p, n);
    EveryBlockAt(p, IntervalOf(p, n), BlockOf(p, n));
  }

  lemma EveryBlockAt(p: Params, k: nat, j: nat)
    requires p.Valid() && RisesBelow(p) && j < p.interval && Reaches(p, Start(p, k) + j) &&
             Open(p, Run(p, Start(p, k) + j).total)
    ensures var n := Start(p, k) + j; var s, t := Run(p, n), Run(p, n + 1);
            && t.total == s.total + BlockReward(p, n, t.computed, s.total)
            && s.total + p.subsidy <= t.total < p.supply
  {
    Refines(p, k, j);
    BlockRuns(p, k, j);
  }

  lemma SupplyBeyondSubsidy(p: Params)
    requires p.Valid() && RisesBelow(p)
    ensures p.subsidy < p.supply
  {
    assert Early(p, Start(p, 0));
  }

  /** The run ends at one height only. */
  lemma EndsOnce(p: Params, m: nat, n: nat)
    requires p.Valid() && Reaches(p, m) && Reaches(p, n) && !Open(p, Run(p, m).total) && !Open(p, Run(p, n).total)
    ensures m == n
  {
  }

  // ----- the rewards fall in the later intervals

  lemma RoundedMonotone(round: nat, a: nat, b: nat)
    requires round > 0 && a <= b
    ensures Rounded(round, a) <= Rounded(round, b)
  {
    var m, n := a / round, b / round;
    assert m * round <= a && b < (n + 1) * round;
    Cancel(m, n + 1, round);
    Scaled(m, n, round);
  }

  lemma {:induction false} TotalMonotone(p: Params, k: nat, l: nat)
    requires p.Valid() && k <= l
    ensures Total(p, k) <= Total(p, l)
    decreases l - k
  {
    if k < l { TotalMonotone(p, k, l - 1); }
  }

  lemma {:induction false} StartMonotone(p: Params, k: nat, l: nat)
    requires k <= l
    ensures Start(p, k) <= Start(p, l)
    decreases l - k
  {
    if k < l { StartMonotone(p, k, l - 1); }
  }

  // The reward when that much of the supply is left.
  function RewardFor(p: Params, left: nat): nat
    requires p.Valid()
  {
    var r := Rounded(p.round, Shr(left, p.speed));
    if r >= p.subsidy then r else p.subsidy
  }

  lemma LaterReward(p: Params, k: nat)
    requires p.Valid() && !Early(p, Start(p, k)) && Total(p, k) <= p.supply
    ensures Reward(p, k) == RewardFor(p, p.supply - Total(p, k))
  {
    LaterComputed(p, Start(p, k), Total(p, k));
  }

  lemma LaterComputed(p: Params, height: nat, total: nat)
    requires p.Valid() && !Early(p, height) && total <= p.supply
    ensures Computed(p, height, total) == Shr(p.supply - total, p.speed)
  {
  }

  lemma RewardForMonotone(p: Params, a: nat, b: nat)
    requires p.Valid() && a <= b
    ensures RewardFor(p, a) <= RewardFor(p, b)
  {
    ShrMonotone(a, b, p.speed);
    RoundedMonotone(p.round, Shr(a, p.speed), Shr(b, p.speed));
  }

  /** After the early intervals a later reward is never above an earlier one. */
  lemma RewardsFall(p: Params, k: nat, l: nat)
    requires p.Valid() && !Early(p, Start(p, k)) && k <= l && Total(p, l) <= p.supply
    ensures Reward(p, l) <= Reward(p, k)
  {
    TotalMonotone(p, k, l);
    StartMonotone(p, k, l);
    LaterReward(p, k);
    LaterReward(p, l);
    RewardForMonotone(p, p.supply - Total(p, l), p.supply - Total(p, k));
  }

  // ----- the loop

  /** The emission loop. */
  method Emit(p: Params) returns (height: nat, total: nat, computed: nat)
    requires p.Valid() && RisesBelow(p)
    ensures Reaches(p, height) && Run(p, height) == State(height, total, computed)
    ensures p.supply - p.subsidy <= total < p.supply
  {
    SupplyBeyondSubsidy(p);
    height, total, computed := 0, 0, 0;
    while total < p.supply - p.subsidy
      invariant Reaches(p, height) && Run(p, height) == State(height, total, computed) && total < p.supply
      decreases p.supply - total
    {
      EveryBlock(p, height);
      if height % p.interval == 0 {
        if height < p.peak + p.interval {
          var k := IntervalOf(p, height);
          computed := Shr(Part(p, k), p.speed);
        } else {
          computed := Shr((p.supply - total) % WORD, p.speed);
        }
      }
      var reward := if height == 0 then p.genesis else Rounded(p.round, computed);
      if reward < p.subsidy {
        reward := if p.supply > total then p.subsidy else Half(p.subsidy);
      }
      total := (total + reward) % WORD;
      height := height + 1;
    }
  }

  // ----- the second form

  function Unrounded(p: Params, k: nat): real {
    Product(p, k) / Pow2(p.speed) as real
  }

  /** The reward as the other script computes it: not cut to whole units before it is rounded. */
  function GetBlockReward(p: Params, height: nat, total: nat): real
    requires p.Valid() && total <= p.supply
  {
    if Early(p, height) then Unrounded(p, IntervalOf(p, height))
    else Shr(p.supply - total, p.speed) as real
  }

  lemma DivideBounds(x: real, d: real, a: real, b: real)
    requires d > 0.0 && a * d <= x < b * d
    ensures a <= x / d < b
  {
    var y := x / d;
    assert y * d == x;
    if y < a { RealScaled(y, a, d); }
    if y > b { RealScaled(b, y, d); }
  }

  lemma RealScaled(a: real, b: real, d: real)
    requires a < b && d > 0.0
    ensures a * d < b * d
  {
  }

  lemma FloorIs(y: real, q: int)
    requires q as real <= y < (q + 1) as real
    ensures y.Floor == q
  {
  }

  // Dividing first and cutting to whole numbers afterwards comes to the same.
  lemma CutLate(x: real, e: nat)
    requires x >= 0.0
    ensures (x / Pow2(e) as real).Floor == Shr(x.Floor, e)
  {
    ShrIs(x.Floor, e);
    CutQuotient(x, Shr(x.Floor, e), Pow2(e));
  }

  lemma CutQuotient(x: real, q: nat, d: nat)
    requires x >= 0.0 && d > 0 && q * d <= x.Floor < (q + 1) * d
    ensures (x / d as real).Floor == q
  {
    Bounds(x, q, d);
    DivideBounds(x, d as real, q as real, (q + 1) as real);
    FloorIs(x / d as real, q);
  }

  lemma Bounds(x: real, q: nat, d: nat)
    requires x >= 0.0 && q * d <= x.Floor < (q + 1) * d
    ensures q as real * d as real <= x < (q + 1) as real * d as real
  {
    AsReal(q, d);
    AsReal(q + 1, d);
    assert ((q + 1) * d) as real >= (x.Floor + 1) as real;
  }

  lemma AsReal(q: int, d: int)
    ensures (q * d) as real == q as real * d as real
  {
  }

  lemma EarlySame(p: Params, k: nat)
    requires p.Valid()
    ensures Unrounded(p, k).Floor == Shr(Part(p, k), p.speed)
  {
    Positive(p.supply as real, p.share(k));
    CutLate(Product(p, k), p.speed);
  }

  /** For equal constants both scripts compute the same reward. */
  lemma SameReward(p: Params, height: nat, total: nat)
    requires p.Valid() && total <= p.supply
    ensures GetBlockReward(p, height, total).Floor == Computed(p, height, total)
  {
    if Early(p, height) {
      EarlySame(p, IntervalOf(p, height));
    } else {
      FloorIs(Shr(p.supply - total, p.speed) as real, Shr(p.supply - total, p.speed));
    }
  }

  /** The loop of the other script: it ends at the same height with the same coins. */
  method CalculateEmissionSpeed(p: Params) returns (blocks: nat, coins: nat)
    requires p.Valid() && RisesBelow(p)
    ensures Reaches(p, blocks) && Run(p, blocks).height == blocks && Run(p, blocks).total == coins
    ensures p.supply - p.subsidy <= coins < p.supply
  {
    SupplyBeyondSubsidy(p);
    blocks, coins := 0, 0;
    var calBlockReward := 0.0;
    while coins < p.supply - p.subsidy
      invariant Reaches(p, blocks) && coins < p.supply && calBlockReward >= 0.0
      invariant Run(p, blocks) == State(blocks, coins, calBlockReward.Floor)
      decreases p.supply - coins
    {
      EveryBlock(p, blocks);
      if blocks % p.interval == 0 {
        calBlockReward := GetBlockReward(p, blocks, coins);
        SameReward(p, blocks, coins);
      }
      var reward := if blocks == 0 then p.genesis else Rounded(p.round, calBlockReward.Floor);
      if reward < p.subsidy {
        reward := if p.supply > coins then p.subsidy else Half(p.subsidy);
      }
      coins := coins + reward;
      blocks := blocks + 1;
    }
  }
}
