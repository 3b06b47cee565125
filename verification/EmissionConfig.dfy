/** The emission of coins with the constants of the configuration. */
module EmissionConfig {
  import opened Arith
  import opened Emission

  const DIFFICULTY_TARGET: real := 60.0
  const MONTH: real := 30.4375 * 24.0 * 3600.0
  const INTERVAL: nat := (6.0 * MONTH / DIFFICULTY_TARGET).Floor
  const PEAK: nat := (12.0 * MONTH / DIFFICULTY_TARGET * 4.0).Floor

  function Share(k: nat): real {
    0.1888 + k as real * (0.023 + k as real * 0.0032)
  }

  const CONFIG: Params :=
    Params(1_000_000_000_000_000_000, 21, INTERVAL, PEAK, 4_000_000_000, 135_000_000_000_000_000, 10_000_000, Share)

  lemma SharePositive(k: nat)
    ensures Share(k) >= 0.0
  {
    Positive(k as real, 0.0032);
    Positive(k as real, 0.023 + k as real * 0.0032);
  }

  lemma ConfigValid()
    ensures CONFIG.Valid() && INTERVAL == 262980 && PEAK == 8 * INTERVAL
  {
    forall k: nat
      ensures CONFIG.share(k) >= 0.0
    {
      SharePositive(k);
    }
  }

  // ----- the rewards of the early intervals

  lemma ShrUnique(x: nat, e: nat, q: nat)
    requires q * Pow2(e) <= x < (q + 1) * Pow2(e)
    ensures Shr(x, e) == q
  {
    ShrIs(x, e);
    Cancel(q, Shr(x, e) + 1, Pow2(e));
    Cancel(Shr(x, e), q + 1, Pow2(e));
  }

  lemma EarlyReward(p: Params, k: nat, q: nat, r: nat)
    requires p.Valid() && Early(p, Start(p, k)) && q * Pow2(p.speed) <= Part(p, k) < (q + 1) * Pow2(p.speed)
    requires Rounded(p.round, q) == r >= p.subsidy
    ensures Reward(p, k) == r
  {
    ShrUnique(Part(p, k), p.speed, q);
    HeightAt(p, k, 0);
  }

  lemma PartIs(k: nat)
    requires CONFIG.Valid()
    ensures Part(CONFIG, k) == (1888 + 230 * k + 32 * k * k) * 100_000_000_000_000
  {
    var x, n := k as real, (1888 + 230 * k + 32 * k * k) * 100_000_000_000_000;
    assert (k * k) as real == x * x;
    assert Product(CONFIG, k) == n as real;
    FloorIs(n as real, n);
  }

  lemma Pow21()
    ensures Pow2(21) == 2097152
  {
    assert Pow2(5) == 32;
    assert Pow2(10) == 1024;
    assert Pow2(15) == 32768;
    assert Pow2(20) == 1048576;
  }

  lemma EarlyIff(k: nat)
    ensures Early(CONFIG, Start(CONFIG, k)) <==> k < 9
  {
    StartIs(CONFIG, k);
    ConfigValid();
  }

  // The k-th early interval: q before rounding, r after.
  lemma Row(k: nat, q: nat, r: nat)
    requires CONFIG.Valid() && k < 9 && r == q / 10_000_000 * 10_000_000 >= 4_000_000_000
    requires q * 2097152 <= (1888 + 230 * k + 32 * k * k) * 100_000_000_000_000 < (q + 1) * 2097152
    ensures Reward(CONFIG, k) == r
  {
    PartIs(k);
    Pow21();
    EarlyIff(k);
    EarlyReward(CONFIG, k, q, r);
  }

  function EarlyTable(k: nat): nat
    requires k < 9
  {
    if k == 0 then 90_020_000_000
    else if k == 1 then 102_510_000_000
    else if k == 2 then 118_060_000_000
    else if k == 3 then 136_660_000_000
    else if k == 4 then 158_300_000_000
    else if k == 5 then 183_010_000_000
    else if k == 6 then 210_760_000_000
    else if k == 7 then 241_560_000_000
    else 275_420_000_000
  }

  /** The rewards of the nine early intervals. */
  lemma EarlyRewards(k: nat)
    requires CONFIG.Valid() && k < 9
    ensures Reward(CONFIG, k) == EarlyTable(k)
  {
    if k == 0 {
      Row(k, 90_026_855_468, 90_020_000_000);
    } else if k == 1 {
      Row(k, 102_519_989_013, 102_510_000_000);
    } else if k == 2 {
      Row(k, 118_064_880_371, 118_060_000_000);
    } else if k == 3 {
      Row(k, 136_661_529_541, 136_660_000_000);
    } else if k == 4 {
      Row(k, 158_309_936_523, 158_300_000_000);
    } else if k == 5 {
      Row(k, 183_010_101_318, 183_010_000_000);
    } else if k == 6 {
      Row(k, 210_762_023_925, 210_760_000_000);
    } else if k == 7 {
      Row(k, 241_565_704_345, 241_560_000_000);
    } else {
      Row(k, 275_421_142_578, 275_420_000_000);
    }
  }

  lemma NextTotal(k: nat, total: nat)
    requires CONFIG.Valid() && k < 9 && Total(CONFIG, k) == total
    ensures Total(CONFIG, k + 1) == total + if k == 0 then 135_000_000_000_000_000 + 262979 * EarlyTable(k)
            else 262980 * EarlyTable(k)
  {
    EarlyRewards(k);
    TotalGrows(CONFIG, k);
    ConfigValid();
  }

  /** The coins generated when the early intervals are over. */
  lemma TotalAfterPeak()
    requires CONFIG.Valid()
    ensures Total(CONFIG, 9) == 533_756_483_980_000_000
  {
    NextTotal(0, 0);
    NextTotal(1, 158_673_369_580_000_000);
    NextTotal(2, 185_631_449_380_000_000);
    NextTotal(3, 216_678_868_180_000_000);
    NextTotal(4, 252_617_714_980_000_000);
    NextTotal(5, 294_247_448_980_000_000);
    NextTotal(6, 342_375_418_780_000_000);
    NextTotal(7, 397_801_083_580_000_000);
    NextTotal(8, 461_326_532_380_000_000);
  }

  /** The configuration meets the conditions under which the emission is safe. */
  lemma ConfigRisesBelow()
    ensures CONFIG.Valid() && RisesBelow(CONFIG)
  {
    ConfigValid();
    Pow21();
    forall k: nat | Early(CONFIG, Start(CONFIG, k))
      ensures Open(CONFIG, Total(CONFIG, k + 1))
    {
      EarlyOpen(k);
    }
  }

  lemma EarlyOpen(k: nat)
    requires CONFIG.Valid() && Early(CONFIG, Start(CONFIG, k))
    ensures Open(CONFIG, Total(CONFIG, k + 1))
  {
    TotalAfterPeak();
    EarlyIff(k);
    TotalMonotone(CONFIG, k + 1, 9);
  }

  lemma Rises(k: nat, l: nat)
    requires CONFIG.Valid() && k < l < 9
    ensures Reward(CONFIG, k) < Reward(CONFIG, l)
  {
    EarlyRewards(k);
    EarlyRewards(l);
  }

  /** The camel's hump: the reward of the blocks after the first rises strictly over the nine early intervals and
      never rises again as long as the loop runs. */
  lemma RisesThenFalls(k: nat, l: nat)
    requires k < l && CONFIG.Valid() && Total(CONFIG, l) <= CONFIG.supply
    ensures l < 9 ==> Reward(CONFIG, k) < Reward(CONFIG, l)
    ensures 8 <= k ==> Reward(CONFIG, l) <= Reward(CONFIG, k)
  {
    if l < 9 {
      Rises(k, l);
    } else if k == 8 {
      EarlyIff(k + 1);
      TotalMonotone(CONFIG, k + 1, l);
      PeakIsPassed(k);
      RewardsFall(CONFIG, k + 1, l);
    } else if 8 < k {
      EarlyIff(k);
      RewardsFall(CONFIG, k, l);
    }
  }

  lemma RewardAfterPeak(left: nat)
    requires CONFIG.Valid() && left == 466_243_516_020_000_000
    ensures RewardFor(CONFIG, left) == 222_320_000_000
  {
    Pow21();
    ShrUnique(left, 21, 222_322_233_209);
  }

  lemma PeakIsPassed(k: nat)
    requires CONFIG.Valid() && k == 8
    ensures Reward(CONFIG, k + 1) < Reward(CONFIG, k)
  {
    TotalAfterPeak();
    EarlyIff(k + 1);
    LaterReward(CONFIG, k + 1);
    RewardAfterPeak(CONFIG.supply - Total(CONFIG, k + 1));
    EarlyRewards(k);
  }

  // ----- the constants of the other script

  const SCRIPT_TARGET: real := 240.0
  const SCRIPT_INTERVAL: nat := (6.0 * MONTH / SCRIPT_TARGET).Floor
  const SCRIPT_PEAK: nat := (12.0 * MONTH / SCRIPT_TARGET).Floor * 4

  const SCRIPT: Params :=
    Params(88_888_888_000_000_000, 19, SCRIPT_INTERVAL, SCRIPT_PEAK, 4_000_000_000, 8_800_000_000_000_000, 10_000_000,
           Share)

  lemma ScriptValid()
    ensures SCRIPT.Valid() && SCRIPT_INTERVAL == 65745 && SCRIPT_PEAK == 8 * SCRIPT_INTERVAL
  {
    forall k: nat
      ensures SCRIPT.share(k) >= 0.0
    {
      SharePositive(k);
    }
  }

  lemma Pow19()
    ensures Pow2(19) == 524288
  {
    assert Pow2(5) == 32;
    assert Pow2(10) == 1024;
    assert Pow2(15) == 32768;
  }

  lemma ScriptPartIs(k: nat)
    requires SCRIPT.Valid()
    ensures Part(SCRIPT, k) == (1888 + 230 * k + 32 * k * k) * 8_888_888_800_000
  {
    var x, n := k as real, (1888 + 230 * k + 32 * k * k) * 8_888_888_800_000;
    assert (k * k) as real == x * x;
    assert Product(SCRIPT, k) == n as real;
    FloorIs(n as real, n);
  }

  lemma ScriptEarlyIff(k: nat)
    ensures Early(SCRIPT, Start(SCRIPT, k)) <==> k < 9
  {
    StartIs(SCRIPT, k);
    ScriptValid();
  }

  lemma ScriptRow(k: nat, q: nat, r: nat)
    requires SCRIPT.Valid() && k < 9 && r == q / 10_000_000 * 10_000_000 >= 4_000_000_000
    requires q * 524288 <= (1888 + 230 * k + 32 * k * k) * 8_888_888_800_000 < (q + 1) * 524288
    ensures Reward(SCRIPT, k) == r
  {
    ScriptPartIs(k);
    Pow19();
    ScriptEarlyIff(k);
    EarlyReward(SCRIPT, k, q, r);
  }

  function ScriptTable(k: nat): nat
    requires k < 9
  {
    if k == 0 then 32_000_000_000
    else if k == 1 then 36_450_000_000
    else if k == 2 then 41_970_000_000
    else if k == 3 then 48_590_000_000
    else if k == 4 then 56_280_000_000
    else if k == 5 then 65_070_000_000
    else if k == 6 then 74_930_000_000
    else if k == 7 then 85_890_000_000
    else 97_920_000_000
  }

  /** The rewards of the nine early intervals in the other script. */
  lemma ScriptRewards(k: nat)
    requires SCRIPT.Valid() && k < 9
    ensures Reward(SCRIPT, k) == ScriptTable(k)
  {
    if k == 0 {
      ScriptRow(k, 32_009_548_291, 32_000_000_000);
    } else if k == 1 {
      ScriptRow(k, 36_451_551_284, 36_450_000_000);
    } else if k == 2 {
      ScriptRow(k, 41_978_623_712, 41_970_000_000);
    } else if k == 3 {
      ScriptRow(k, 48_590_765_573, 48_590_000_000);
    } else if k == 4 {
      ScriptRow(k, 56_287_976_867, 56_280_000_000);
    } else if k == 5 {
      ScriptRow(k, 65_070_257_595, 65_070_000_000);
    } else if k == 6 {
      ScriptRow(k, 74_937_607_757, 74_930_000_000);
    } else if k == 7 {
      ScriptRow(k, 85_890_027_352, 85_890_000_000);
    } else {
      ScriptRow(k, 97_927_516_381, 97_920_000_000);
    }
  }

  lemma ScriptNextTotal(k: nat, total: nat)
    requires SCRIPT.Valid() && k < 9 && Total(SCRIPT, k) == total
    ensures Total(SCRIPT, k + 1) == total + if k == 0 then 8_800_000_000_000_000 + 65744 * ScriptTable(k)
            else 65745 * ScriptTable(k)
  {
    ScriptRewards(k);
    TotalGrows(SCRIPT, k);
    ScriptValid();
  }

  /** The coins generated when the early intervals of the other script are over. */
  lemma ScriptTotalAfterPeak()
    requires SCRIPT.Valid()
    ensures Total(SCRIPT, 9) == 44_243_097_500_000_000
  {
    ScriptNextTotal(0, 0);
    ScriptNextTotal(1, 10_903_808_000_000_000);
    ScriptNextTotal(2, 13_300_213_250_000_000);
    ScriptNextTotal(3, 16_059_530_900_000_000);
    ScriptNextTotal(4, 19_254_080_450_000_000);
    ScriptNextTotal(5, 22_954_209_050_000_000);
    ScriptNextTotal(6, 27_232_236_200_000_000);
    ScriptNextTotal(7, 32_158_509_050_000_000);
    ScriptNextTotal(8, 37_805_347_100_000_000);
  }

  lemma ScriptEarlyOpen(k: nat)
    requires SCRIPT.Valid() && Early(SCRIPT, Start(SCRIPT, k))
    ensures Open(SCRIPT, Total(SCRIPT, k + 1))
  {
    ScriptTotalAfterPeak();
    ScriptEarlyIff(k);
    TotalMonotone(SCRIPT, k + 1, 9);
  }

  /** The constants of the other script meet the same conditions. */
  lemma ScriptRisesBelow()
    ensures SCRIPT.Valid() && RisesBelow(SCRIPT)
  {
    ScriptValid();
    Pow19();
    forall k: nat | Early(SCRIPT, Start(SCRIPT, k))
      ensures Open(SCRIPT, Total(SCRIPT, k + 1))
    {
      ScriptEarlyOpen(k);
    }
  }

  // ----- the end of the emission

  lemma SmallShare(p: Params, left: nat)
    requires p.Valid() && left < p.subsidy * Pow2(p.speed)
    ensures RewardFor(p, left) == p.subsidy
  {
    ShrIs(left, p.speed);
    Cancel(Shr(left, p.speed), p.subsidy, Pow2(p.speed));
  }

  /** With less than 2^21 or 2^19 times four coins left, four coins a block are paid. */
  lemma TailReward(left: nat)
    requires CONFIG.Valid() && SCRIPT.Valid()
    ensures left < 4_000_000_000 * 2097152 ==> RewardFor(CONFIG, left) == 4_000_000_000
    ensures left < 4_000_000_000 * 524288 ==> RewardFor(SCRIPT, left) == 4_000_000_000
  {
    Pow21();
    Pow19();
    if left < 4_000_000_000 * 2097152 { SmallShare(CONFIG, left); }
    if left < 4_000_000_000 * 524288 { SmallShare(SCRIPT, left); }
  }

  /** Once the supply is spent, a share too small would be replaced by two coins. */
  lemma SpentReward(height: nat, computed: nat, total: nat)
    requires CONFIG.Valid() && height > 0 && computed < 4_000_000_000 && total >= CONFIG.supply
    ensures BlockReward(CONFIG, height, computed, total) == 2_000_000_000
  {
    assert Rounded(CONFIG.round, computed) <= computed;
  }
}
