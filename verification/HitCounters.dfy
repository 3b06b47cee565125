/** Counters that let through every n-th message of a place in the source, those after n, or the first n. */
module HitCounters {
  import opened Arith

  // kMaxLogPerCounter
  const MAX: nat := 100000

  // counts are of type size_t
  const WORD: nat := 0x1_0000_0000_0000_0000

  datatype Site = Site(filename: string, lineNumber: nat)

  datatype Counter = Counter(site: Site, hits: nat)

  datatype Mode = EveryN | AfterN | NTimes

  // ----- one counter

  /** validateHitCounts */
  function Validated(hits: nat, n: nat): nat {
    var h := if hits >= MAX then (if n >= 1 then MAX % n else 0) else hits;
    (h + 1) % WORD
  }

  datatype Verdict = Verdict(hits: nat, fires: bool)

  function Judge(mode: Mode, n: nat, hits: nat): Verdict {
    match mode
    case EveryN => var h := Validated(hits, n); Verdict(h, n >= 1 && h != 0 && h % n == 0)
    case AfterN => if hits >= n then Verdict(hits, true) else Verdict((hits + 1) % WORD, false)
    case NTimes => var h := (hits + 1) % WORD; Verdict(h, h <= n)
  }

  /** The counter after k calls in one mode. */
  function HitsAfter(mode: Mode, n: nat, k: nat): nat {
    if k == 0 then 0 else Judge(mode, n, HitsAfter(mode, n, k - 1)).hits
  }

  /** Whether the k-th call fires. */
  predicate Fires(mode: Mode, n: nat, k: nat)
    requires k >= 1
  {
    Judge(mode, n, HitsAfter(mode, n, k - 1)).fires
  }

  // ----- every n-th

  lemma Least(a: nat, n: nat)
    requires a < n
    ensures a % n == a
  {
    Unique(a, 0, a, n);
  }

  lemma Next(a: nat, n: nat)
    requires n >= 1
    ensures (a + 1) % n == if a % n + 1 == n then 0 else a % n + 1
  {
    var q, r := a / n, a % n;
    assert a == q * n + r;
    if r + 1 < n {
      Unique(a + 1, q, r + 1, n);
    } else {
      assert (q + 1) * n == q * n + n;
      Unique(a + 1, q + 1, 0, n);
    }
  }

  // A counter at the limit starts over with the same remainder.
  lemma ValidatedMod(h: nat, n: nat)
    requires 1 <= n <= MAX && h <= MAX
    ensures var v := Validated(h, n); 0 < v <= MAX && v % n == (h + 1) % n
  {
    if h == MAX {
      Least(MAX % n, n);
      Next(MAX % n, n);
      Next(MAX, n);
    }
  }

  lemma {:induction false} EveryNCounts(n: nat, k: nat)
    requires 1 <= n <= MAX
    ensures var h := HitsAfter(EveryN, n, k); h % n == k % n && h <= MAX && (k > 0 ==> h > 0)
    decreases k
  {
    if k > 0 {
      EveryNCounts(n, k - 1);
      var h := HitsAfter(EveryN, n, k - 1);
      ValidatedMod(h, n);
      Next(h, n);
      Next(k - 1, n);
    }
  }

  lemma ValidatedBeyond(h: nat, n: nat)
    requires MAX < n && h <= MAX + 1
    ensures Validated(h, n) == if h >= MAX then MAX + 1 else h + 1
  {
    Least(MAX, n);
  }

  // Once past the limit such a counter stands still.
  lemma {:induction false} StandsStill(n: nat, k: nat)
    requires MAX < n
    ensures HitsAfter(EveryN, n, k) == if k <= MAX then k else MAX + 1
    decreases k
  {
    if k > 0 {
      StandsStill(n, k - 1);
      ValidatedBeyond(HitsAfter(EveryN, n, k - 1), n);
    }
  }

  /** For n beyond the limit of the counter: n one more than the limit fires from that call on, larger n never; and
      n = 0 never. */
  lemma EveryNBeyondLimit(n: nat, k: nat)
    requires (n == 0 || 100000 < n) && k >= 1
    ensures Fires(EveryN, n, k) <==> n == 100001 && k >= n
  {
    if n > 0 {
      StandsStill(n, k);
      var h := HitsAfter(EveryN, n, k);
      if h < n { Least(h, n); } else { Unique(h, 1, 0, n); }
    }
  }

  /** Every n-th call and no other fires, for all numbers of calls, exactly when n is within the limit at which the
      counter starts over. */
  lemma EveryNIff(n: nat)
    requires n >= 1
    ensures (forall k | k >= 1 :: Fires(EveryN, n, k) <==> k % n == 0) <==> n <= 100000
  {
    if n <= MAX {
      forall k | k >= 1
        ensures Fires(EveryN, n, k) <==> k % n == 0
      {
        EveryNCounts(n, k);
      }
    } else {
      var k := if n == MAX + 1 then n + 1 else n;
      EveryNBeyondLimit(n, k);
      if n == MAX + 1 { Unique(k, 1, 1, n); } else { Unique(k, 1, 0, n); }
    }
  }

  // ----- after n, and n times

  lemma {:induction false} AfterNCounts(n: nat, k: nat)
    requires n < WORD
    ensures HitsAfter(AfterN, n, k) == if k <= n then k else n
    decreases k
  {
    if k > 0 { AfterNCounts(n, k - 1); }
  }

  /** The calls after the n-th fire. */
  lemma AfterNFires(n: nat, k: nat)
    requires n < 0x1_0000_0000_0000_0000 && k >= 1
    ensures Fires(AfterN, n, k) <==> k > n
  {
    AfterNCounts(n, k - 1);
  }

  lemma {:induction false} NTimesCounts(n: nat, k: nat)
    ensures HitsAfter(NTimes, n, k) == k % WORD
    decreases k
  {
    if k > 0 { NTimesCounts(n, k - 1); }
  }

  /** The first n calls fire; the count goes round after 2^64 calls. */
  lemma NTimesFires(n: nat, k: nat)
    requires k >= 1
    ensures Fires(NTimes, n, k) <==> k % 0x1_0000_0000_0000_0000 <= n
    ensures k < 0x1_0000_0000_0000_0000 ==> (Fires(NTimes, n, k) <==> k <= n)
  {
    NTimesCounts(n, k);
  }

  // ----- all counters

  function Hits(counters: seq<Counter>, site: Site): nat {
    if counters == [] then 0 else if counters[0].site == site then counters[0].hits else Hits(counters[1..], site)
  }

  // The counter of the site is set, or registered at the end.
  function Store(counters: seq<Counter>, site: Site, hits: nat): seq<Counter> {
    if counters == [] then [Counter(site, hits)]
    else if counters[0].site == site then [Counter(site, hits)] + counters[1..]
    else [counters[0]] + Store(counters[1..], site, hits)
  }

  lemma {:induction false} StoreIs(counters: seq<Counter>, site: Site, hits: nat, s: Site)
    ensures Hits(Store(counters, site, hits), s) == if s == site then hits else Hits(counters, s)
    decreases |counters|
  {
    if counters != [] {
      if counters[0].site == site {
        assert Store(counters, site, hits)[1..] == counters[1..];
      } else {
        assert Store(counters, site, hits)[1..] == Store(counters[1..], site, hits);
        StoreIs(counters[1..], site, hits, s);
      }
    }
  }

  datatype Call = Call(site: Site, mode: Mode, n: nat)

  function After(counters: seq<Counter>, c: Call): seq<Counter> {
    Store(counters, c.site, Judge(c.mode, c.n, Hits(counters, c.site)).hits)
  }

  /** Calls from all places, in any order. */
  function Run(calls: seq<Call>): seq<Counter> {
    if calls == [] then [] else After(Run(calls[..|calls| - 1]), calls[|calls| - 1])
  }

  /** The result of the i-th call. */
  predicate Result(calls: seq<Call>, i: nat)
    requires i < |calls|
  {
    Judge(calls[i].mode, calls[i].n, Hits(Run(calls[..i]), calls[i].site)).fires
  }

  function Number(calls: seq<Call>, site: Site): nat {
    if calls == [] then 0 else Number(calls[..|calls| - 1], site) + if calls[|calls| - 1].site == site then 1 else 0
  }

  // The site is used in one mode with one n.
  predicate Fixed(calls: seq<Call>, site: Site, mode: Mode, n: nat) {
    forall j | 0 <= j < |calls| && calls[j].site == site :: calls[j].mode == mode && calls[j].n == n
  }

  // The counter of a site only depends on the calls from there.
  lemma {:induction false} SiteAlone(calls: seq<Call>, site: Site, mode: Mode, n: nat)
    requires Fixed(calls, site, mode, n)
    ensures Hits(Run(calls), site) == HitsAfter(mode, n, Number(calls, site))
    decreases |calls|
  {
    if calls != [] {
      var before, c := calls[..|calls| - 1], calls[|calls| - 1];
      SiteAlone(before, site, mode, n);
      StoreIs(Run(before), c.site, Judge(c.mode, c.n, Hits(Run(before), c.site)).hits, site);
    }
  }

  /** Whatever calls come from other places, the k-th call from a place that keeps to one mode and one n fires just
      as it would alone. */
  lemma ResultIs(calls: seq<Call>, i: nat, mode: Mode, n: nat)
    requires i < |calls| && Fixed(calls, calls[i].site, mode, n)
    ensures Result(calls, i) <==> Fires(mode, n, Number(calls[..i], calls[i].site) + 1)
  {
    SiteAlone(calls[..i], calls[i].site, mode, n);
  }

  /** For the first n calls, the calls after n, and every n-th call with n within the limit. */
  lemma Interleaved(calls: seq<Call>, i: nat, mode: Mode, n: nat)
    requires i < |calls| && Fixed(calls, calls[i].site, mode, n) && 1 <= n < 0x1_0000_0000_0000_0000
    requires |calls| < 0x1_0000_0000_0000_0000 && (mode == EveryN ==> n <= 100000)
    ensures var k := Number(calls[..i], calls[i].site) + 1;
            Result(calls, i) <==> match mode case EveryN => k % n == 0 case AfterN => k > n case NTimes => k <= n
  {
    var k := Number(calls[..i], calls[i].site) + 1;
    ResultIs(calls, i, mode, n);
    NumberBound(calls[..i], calls[i].site);
    match mode
    case EveryN => EveryNIff(n);
    case AfterN => AfterNFires(n, k);
    case NTimes => NTimesFires(n, k);
  }

  lemma {:induction false} NumberBound(calls: seq<Call>, site: Site)
    ensures Number(calls, site) <= |calls|
    decreases |calls|
  {
    if calls != [] { NumberBound(calls[..|calls| - 1], site); }
  }

  // ----- the registry

  class RegisteredHitCounters {
    var counters: seq<Counter>

    constructor ()
      ensures counters == []
    {
      counters := [];
    }

    // get, and registerNew when there is none
    method Get(site: Site) returns (i: nat)
      modifies this
      ensures i < |counters| && counters[i].site == site && counters[i].hits == Hits(old(counters), site)
      ensures forall h :: counters[i := Counter(site, h)] == Store(old(counters), site, h)
    {
      i := 0;
      Unsearched(counters, site);
      while i < |counters| && counters[i].site != site
        invariant 0 <= i <= |counters| && counters == old(counters)
        invariant Hits(counters, site) == Hits(counters[i..], site)
        invariant forall h :: Store(counters, site, h) == counters[..i] + Store(counters[i..], site, h)
      {
        Searched(counters, site, i);
        i := i + 1;
      }
      if i == |counters| {
        counters := counters + [Counter(site, 0)];
      }
      Found(old(counters), counters, site, i);
    }

    method ValidateEveryN(site: Site, n: nat) returns (fires: bool)
      modifies this
      ensures counters == After(old(counters), Call(site, EveryN, n)) &&
              fires == Judge(EveryN, n, Hits(old(counters), site)).fires
    {
      var i := Get(site);
      var h := counters[i].hits;
      if h >= MAX {
        h := if n >= 1 then MAX % n else 0;
      }
      h := (h + 1) % WORD;
      counters := counters[i := Counter(site, h)];
      fires := n >= 1 && h != 0 && h % n == 0;
    }

    method ValidateAfterN(site: Site, n: nat) returns (fires: bool)
      modifies this
      ensures counters == After(old(counters), Call(site, AfterN, n)) &&
              fires == Judge(AfterN, n, Hits(old(counters), site)).fires
    {
      var i := Get(site);
      var h := counters[i].hits;
      assert counters[i := Counter(site, h)] == counters;
      if h >= n { return true; }
      counters := counters[i := Counter(site, (h + 1) % WORD)];
      return false;
    }

    method ValidateNTimes(site: Site, n: nat) returns (fires: bool)
      modifies this
      ensures counters == After(old(counters), Call(site, NTimes, n)) &&
              fires == Judge(NTimes, n, Hits(old(counters), site)).fires
    {
      var i := Get(site);
      var h := (counters[i].hits + 1) % WORD;
      counters := counters[i := Counter(site, h)];
      return h <= n;
    }
  }

  lemma Unsearched(counters: seq<Counter>, site: Site)
    ensures Hits(counters, site) == Hits(counters[0..], site)
    ensures forall h :: Store(counters, site, h) == counters[..0] + Store(counters[0..], site, h)
  {
    assert counters[0..] == counters;
  }

  lemma Searched(counters: seq<Counter>, site: Site, i: nat)
    requires i < |counters| && counters[i].site != site
    ensures Hits(counters[i..], site) == Hits(counters[i + 1..], site)
    ensures forall h ::
            counters[..i] + Store(counters[i..], site, h) == counters[..i + 1] + Store(counters[i + 1..], site, h)
  {
    assert counters[i..][1..] == counters[i + 1..];
    assert counters[..i + 1] == counters[..i] + [counters[i]];
  }

  lemma Found(was: seq<Counter>, counters: seq<Counter>, site: Site, i: nat)
    requires i <= |was| && counters == (if i < |was| then was else was + [Counter(site, 0)]) && counters[i].site == site
    requires Hits(was, site) == Hits(was[i..], site)
    requires forall h :: Store(was, site, h) == was[..i] + Store(was[i..], site, h)
    ensures counters[i].hits == Hits(was, site)
    ensures forall h :: counters[i := Counter(site, h)] == Store(was, site, h)
  {
    forall h
      ensures counters[i := Counter(site, h)] == was[..i] + Store(was[i..], site, h)
    {
      StoredAt(was, counters, site, i, h);
    }
  }

  lemma StoredAt(was: seq<Counter>, counters: seq<Counter>, site: Site, i: nat, h: nat)
    requires i <= |was| && counters == (if i < |was| then was else was + [Counter(site, 0)]) && counters[i].site == site
    ensures counters[i := Counter(site, h)] == was[..i] + Store(was[i..], site, h)
  {
    if i < |was| {
      assert was[i..][1..] == was[i + 1..];
      assert Store(was[i..], site, h) == [Counter(site, h)] + was[i + 1..];
    } else {
      assert was[i..] == [] && was[..i] == was;
    }
  }
}
