/** Earnings by commission tier: ledger entries are first summed by provider, then providers by the tier
    their sum reaches. A JavaScript map is its entries in insertion order. */
module Earnings {
  import opened Results
  import opened Tiers

  /** An ORDER_EARNING entry, in cents. */
  datatype Earning = Earning(provider: nat, amount: int)

  datatype ProviderTotal = ProviderTotal(provider: nat, earnings: int)

  /** A tier's bucket; providers that reach no tier share the one without a tier. */
  datatype Bucket = Bucket(tier: Option<nat>, providers: nat, earnings: int)

  // ----- what the sums mean

  function Providers(ledger: seq<Earning>): set<nat> {
    set i | 0 <= i < |ledger| :: ledger[i].provider
  }

  /** Everything the given providers earned. */
  function SumBy(ledger: seq<Earning>, providers: set<nat>): int {
    if ledger == [] then 0
    else
      var last := ledger[|ledger| - 1];
      SumBy(ledger[..|ledger| - 1], providers) + if last.provider in providers then last.amount else 0
  }

  function Sum(ledger: seq<Earning>): int {
    if ledger == [] then 0 else Sum(ledger[..|ledger| - 1]) + ledger[|ledger| - 1].amount
  }

  lemma {:induction false} SumByAll(ledger: seq<Earning>, providers: set<nat>)
    requires Providers(ledger) <= providers
    ensures SumBy(ledger, providers) == Sum(ledger)
  {
    if ledger != [] {
      assert ledger[|ledger| - 1].provider in Providers(ledger);
      assert Providers(ledger[..|ledger| - 1]) <= Providers(ledger);
      SumByAll(ledger[..|ledger| - 1], providers);
    }
  }

  lemma {:induction false} SumByNone(ledger: seq<Earning>)
    ensures SumBy(ledger, {}) == 0
  {
    if ledger != [] {
      SumByNone(ledger[..|ledger| - 1]);
    }
  }

  lemma {:induction false} SumByAdd(ledger: seq<Earning>, providers: set<nat>, p: nat)
    requires p !in providers
    ensures SumBy(ledger, providers + {p}) == SumBy(ledger, providers) + SumBy(ledger, {p})
  {
    if ledger != [] {
      SumByAdd(ledger[..|ledger| - 1], providers, p);
    }
  }

  lemma SumByAppend(ledger: seq<Earning>, e: Earning, providers: set<nat>)
    ensures SumBy(ledger + [e], providers) == SumBy(ledger, providers) + if e.provider in providers then e.amount else 0
  {
  }

  function TierKey(tiers: seq<Tier>, total: int): Option<nat> {
    match TierFor(total, tiers)
    case None => None
    case Some(t) => Some(t.id)
  }

  /** The providers whose earnings fall in a tier. */
  function InTier(ledger: seq<Earning>, tiers: seq<Tier>, providers: set<nat>, key: Option<nat>): set<nat> {
    set p | p in providers && TierKey(tiers, SumBy(ledger, {p})) == key
  }

  // ----- the two stages

  /** Looking a key up among the entries of a map. */
  method IndexOf<K(==)>(keys: seq<K>, key: K) returns (r: Option<nat>)
    ensures r.Some? ==> r.value < |keys| && keys[r.value] == key
    ensures r.None? ==> key !in keys
  {
    for i := 0 to |keys|
      invariant key !in keys[..i]
    {
      if keys[i] == key {
        return Some(i);
      }
    }
    return None;
  }

  function TotalKeys(totals: seq<ProviderTotal>): (keys: seq<nat>)
    ensures |keys| == |totals| && forall i :: 0 <= i < |keys| ==> keys[i] == totals[i].provider
  {
    seq(|totals|, i requires 0 <= i < |totals| => totals[i].provider)
  }

  function BucketKeys(buckets: seq<Bucket>): (keys: seq<Option<nat>>)
    ensures |keys| == |buckets| && forall i :: 0 <= i < |keys| ==> keys[i] == buckets[i].tier
  {
    seq(|buckets|, i requires 0 <= i < |buckets| => buckets[i].tier)
  }

  /** One total for each provider of the ledger: the sum of its entries. */
  ghost predicate TotalsOf(totals: seq<ProviderTotal>, ledger: seq<Earning>) {
    && (forall i, j :: 0 <= i < j < |totals| ==> totals[i].provider != totals[j].provider)
    && (forall i :: 0 <= i < |totals| ==> totals[i].provider in Providers(ledger))
    && (forall p :: p in Providers(ledger) ==> exists i :: 0 <= i < |totals| && totals[i].provider == p)
    && (forall i :: 0 <= i < |totals| ==> totals[i].earnings == SumBy(ledger, {totals[i].provider}))
  }

  lemma ProvidersAppend(ledger: seq<Earning>, e: Earning)
    ensures Providers(ledger + [e]) == Providers(ledger) + {e.provider}
  {
    forall p | p in Providers(ledger) + {e.provider}
      ensures p in Providers(ledger + [e])
    {
      if p == e.provider {
        assert (ledger + [e])[|ledger|].provider == p;
      } else {
        var i :| 0 <= i < |ledger| && ledger[i].provider == p;
        assert (ledger + [e])[i].provider == p;
      }
    }
  }

  lemma {:induction false} SumByAbsent(ledger: seq<Earning>, p: nat)
    requires p !in Providers(ledger)
    ensures SumBy(ledger, {p}) == 0
  {
    if ledger != [] {
      assert ledger[|ledger| - 1].provider in Providers(ledger);
      assert Providers(ledger[..|ledger| - 1]) <= Providers(ledger);
      SumByAbsent(ledger[..|ledger| - 1], p);
    }
  }

  /** Counting one more entry. */
  lemma TotalsAppend(totals: seq<ProviderTotal>, after: seq<ProviderTotal>, ledger: seq<Earning>, e: Earning, k: nat)
    requires TotalsOf(totals, ledger)
    requires if k < |totals| then totals[k].provider == e.provider
             && after == totals[k := totals[k].(earnings := totals[k].earnings + e.amount)]
             else k == |totals| && (forall i :: 0 <= i < |totals| ==> totals[i].provider != e.provider)
                  && after == totals + [ProviderTotal(e.provider, e.amount)]
    ensures TotalsOf(after, ledger + [e])
  {
    hide SumBy;
    ProvidersAppend(ledger, e);
    if k == |totals| {
      SumByAbsent(ledger, e.provider);
    }
    hide Providers;
    forall i | 0 <= i < |after|
      ensures after[i].earnings == SumBy(ledger + [e], {after[i].provider})
    {
      SumByAppend(ledger, e, {after[i].provider});
    }
    forall p | p in Providers(ledger + [e])
      ensures exists i :: 0 <= i < |after| && after[i].provider == p
    {
      if p == e.provider {
        assert after[k].provider == p;
      } else {
        var i :| 0 <= i < |totals| && totals[i].provider == p;
        assert after[i].provider == p;
      }
    }
  }

  lemma NoTotals()
    ensures TotalsOf([], [])
  {
  }

  method ProviderEarningTotals(ledger: seq<Earning>) returns (totals: seq<ProviderTotal>)
    ensures TotalsOf(totals, ledger)
  {
    hide TotalsOf;
    totals := [];
    NoTotals();
    assert ledger[..0] == [];
    for i := 0 to |ledger|
      invariant TotalsOf(totals, ledger[..i])
    {
      var item := ledger[i];
      assert ledger[..i + 1] == ledger[..i] + [item];
      var before := totals;
      var found := IndexOf(TotalKeys(totals), item.provider);
      if found.Some? {
        var k := found.value;
        totals := totals[k := totals[k].(earnings := totals[k].earnings + item.amount)];
        TotalsAppend(before, totals, ledger[..i], item, k);
      } else {
        totals := totals + [ProviderTotal(item.provider, item.amount)];
        TotalsAppend(before, totals, ledger[..i], item, |before|);
      }
    }
    assert ledger[..|ledger|] == ledger;
  }

  function SumEarnings(buckets: seq<Bucket>): int {
    if buckets == [] then 0 else SumEarnings(buckets[..|buckets| - 1]) + buckets[|buckets| - 1].earnings
  }

  function SumProviders(buckets: seq<Bucket>): int {
    if buckets == [] then 0 else SumProviders(buckets[..|buckets| - 1]) + buckets[|buckets| - 1].providers
  }

  lemma {:induction false} SumsSet(buckets: seq<Bucket>, k: nat, b: Bucket)
    requires k < |buckets|
    ensures SumEarnings(buckets[k := b]) == SumEarnings(buckets) - buckets[k].earnings + b.earnings
    ensures SumProviders(buckets[k := b]) == SumProviders(buckets) - buckets[k].providers + b.providers
  {
    var n := |buckets| - 1;
    if k < n {
      assert buckets[k := b][..n] == buckets[..n][k := b];
      SumsSet(buckets[..n], k, b);
    } else {
      assert buckets[k := b][..n] == buckets[..n];
    }
  }

  lemma SumsAppend(buckets: seq<Bucket>, b: Bucket)
    ensures SumEarnings(buckets + [b]) == SumEarnings(buckets) + b.earnings
    ensures SumProviders(buckets + [b]) == SumProviders(buckets) + b.providers
  {
  }

  /** A bucket counts exactly the given providers in its tier, and all they earned. */
  ghost predicate BucketOk(b: Bucket, ledger: seq<Earning>, tiers: seq<Tier>, providers: set<nat>) {
    var mine := InTier(ledger, tiers, providers, b.tier);
    mine != {} && b.providers == |mine| && b.earnings == SumBy(ledger, mine)
  }

  ghost predicate TiersDiffer(buckets: seq<Bucket>) {
    forall i, j :: 0 <= i < j < |buckets| ==> buckets[i].tier != buckets[j].tier
  }

  /** One bucket for each tier some provider falls in; nothing is counted twice or left out. */
  ghost predicate BucketsOf(buckets: seq<Bucket>, ledger: seq<Earning>, tiers: seq<Tier>, providers: set<nat>) {
    && TiersDiffer(buckets)
    && (forall i :: 0 <= i < |buckets| ==> BucketOk(buckets[i], ledger, tiers, providers))
    && (forall p :: p in providers ==>
          exists i :: 0 <= i < |buckets| && buckets[i].tier == TierKey(tiers, SumBy(ledger, {p})))
    && SumEarnings(buckets) == SumBy(ledger, providers)
    && SumProviders(buckets) == |providers|
  }

  lemma NoBuckets(ledger: seq<Earning>, tiers: seq<Tier>)
    ensures BucketsOf([], ledger, tiers, {})
  {
    SumByNone(ledger);
  }

  /** What one more provider does to the bucket of its tier, and to the others. */
  lemma InTierAdd(ledger: seq<Earning>, tiers: seq<Tier>, providers: set<nat>, p: nat, key: Option<nat>)
    requires p !in providers
    ensures var mine, more := InTier(ledger, tiers, providers, key), InTier(ledger, tiers, providers + {p}, key);
            if TierKey(tiers, SumBy(ledger, {p})) == key then
              && |more| == |mine| + 1 && more != {}
              && SumBy(ledger, more) == SumBy(ledger, mine) + SumBy(ledger, {p})
            else more == mine
  {
    hide TierKey, SumBy;
    var mine, more := InTier(ledger, tiers, providers, key), InTier(ledger, tiers, providers + {p}, key);
    if TierKey(tiers, SumBy(ledger, {p})) == key {
      assert more == mine + {p};
      SumByAdd(ledger, mine, p);
    } else {
      assert more == mine;
    }
  }

  lemma BucketGrows(b: Bucket, after: Bucket, ledger: seq<Earning>, tiers: seq<Tier>, providers: set<nat>, p: nat)
    requires BucketOk(b, ledger, tiers, providers) && p !in providers
    requires after == if TierKey(tiers, SumBy(ledger, {p})) == b.tier
                      then Bucket(b.tier, b.providers + 1, b.earnings + SumBy(ledger, {p})) else b
    ensures BucketOk(after, ledger, tiers, providers + {p})
  {
    InTierAdd(ledger, tiers, providers, p, b.tier);
    hide TierKey, SumBy, InTier;
  }

  lemma BucketStarts(b: Bucket, ledger: seq<Earning>, tiers: seq<Tier>, providers: set<nat>, p: nat)
    requires InTier(ledger, tiers, providers, b.tier) == {} && p !in providers
    requires b == Bucket(TierKey(tiers, SumBy(ledger, {p})), 1, SumBy(ledger, {p}))
    ensures BucketOk(b, ledger, tiers, providers + {p})
  {
    InTierAdd(ledger, tiers, providers, p, b.tier);
    SumByNone(ledger);
    hide TierKey, SumBy, InTier;
  }

  lemma TiersStayDifferent(buckets: seq<Bucket>, after: seq<Bucket>, k: nat)
    requires TiersDiffer(buckets)
    requires if k < |buckets| then |after| == |buckets| && after == buckets[k := after[k]]
             && after[k].tier == buckets[k].tier
             else |after| == |buckets| + 1 && after == buckets + [after[|buckets|]]
                  && forall i :: 0 <= i < |buckets| ==> buckets[i].tier != after[|buckets|].tier
    ensures TiersDiffer(after)
  {
  }

  lemma BucketsAdd(buckets: seq<Bucket>, after: seq<Bucket>, ledger: seq<Earning>, tiers: seq<Tier>,
      providers: set<nat>, p: nat, k: nat)
    requires BucketsOf(buckets, ledger, tiers, providers) && p !in providers
    requires var key, earned := TierKey(tiers, SumBy(ledger, {p})), SumBy(ledger, {p});
             if k < |buckets| then
               buckets[k].tier == key
               && after == buckets[k := Bucket(key, buckets[k].providers + 1, buckets[k].earnings + earned)]
             else
               k == |buckets| && (forall i :: 0 <= i < |buckets| ==> buckets[i].tier != key)
               && after == buckets + [Bucket(key, 1, earned)]
    ensures BucketsOf(after, ledger, tiers, providers + {p})
  {
    hide TierKey, SumBy, SumEarnings, SumProviders, InTier, BucketOk;
    var key, earned := TierKey(tiers, SumBy(ledger, {p})), SumBy(ledger, {p});
    SumByAdd(ledger, providers, p);
    hide TiersDiffer;
    TiersStayDifferent(buckets, after, k);
    if k < |buckets| {
      SumsSet(buckets, k, after[k]);
    } else {
      SumsAppend(buckets, after[k]);
      FirstInTier(buckets, ledger, tiers, providers, key);
    }
    forall i | 0 <= i < |after|
      ensures BucketOk(after[i], ledger, tiers, providers + {p})
    {
      if i < |buckets| {
        BucketGrows(buckets[i], after[i], ledger, tiers, providers, p);
      } else {
        BucketStarts(after[i], ledger, tiers, providers, p);
      }
    }
    forall q | q in providers + {p}
      ensures exists i :: 0 <= i < |after| && after[i].tier == TierKey(tiers, SumBy(ledger, {q}))
    {
      if q == p {
        assert after[k].tier == key;
      } else {
        var i :| 0 <= i < |buckets| && buckets[i].tier == TierKey(tiers, SumBy(ledger, {q}));
        assert after[i].tier == buckets[i].tier;
      }
    }
  }

  lemma FirstInTier(buckets: seq<Bucket>, ledger: seq<Earning>, tiers: seq<Tier>, providers: set<nat>, key: Option<nat>)
    requires BucketsOf(buckets, ledger, tiers, providers)
    requires forall i :: 0 <= i < |buckets| ==> buckets[i].tier != key
    ensures InTier(ledger, tiers, providers, key) == {}
  {
  }

  ghost function Done(totals: seq<ProviderTotal>, n: nat): set<nat>
    requires n <= |totals|
  {
    set i | 0 <= i < n :: totals[i].provider
  }

  lemma DoneNext(totals: seq<ProviderTotal>, ledger: seq<Earning>, n: nat)
    requires TotalsOf(totals, ledger) && n < |totals|
    ensures totals[n].provider !in Done(totals, n)
    ensures Done(totals, n + 1) == Done(totals, n) + {totals[n].provider}
    ensures totals[n].earnings == SumBy(ledger, {totals[n].provider})
  {
  }

  lemma DoneAll(totals: seq<ProviderTotal>, ledger: seq<Earning>)
    requires TotalsOf(totals, ledger)
    ensures Done(totals, |totals|) == Providers(ledger)
  {
  }

  // ----- the answer, greatest earnings first

  function InsertBucket(b: Bucket, sorted: seq<Bucket>): seq<Bucket>
    decreases |sorted|
  {
    if sorted == [] || sorted[|sorted| - 1].earnings >= b.earnings then sorted + [b]
    else InsertBucket(b, sorted[..|sorted| - 1]) + [sorted[|sorted| - 1]]
  }

  /** A stable sort. */
  function SortBuckets(buckets: seq<Bucket>): seq<Bucket> {
    if buckets == [] then [] else InsertBucket(buckets[|buckets| - 1], SortBuckets(buckets[..|buckets| - 1]))
  }

  ghost predicate Descending(buckets: seq<Bucket>) {
    forall i, j :: 0 <= i < j < |buckets| ==> buckets[i].earnings >= buckets[j].earnings
  }

  lemma {:induction false} InsertHas(b: Bucket, sorted: seq<Bucket>, x: Bucket)
    ensures x in InsertBucket(b, sorted) <==> x == b || x in sorted
    decreases |sorted|
  {
    if sorted != [] {
      assert sorted == sorted[..|sorted| - 1] + [sorted[|sorted| - 1]];
      InsertHas(b, sorted[..|sorted| - 1], x);
    }
  }

  lemma {:induction false} InsertOrders(b: Bucket, sorted: seq<Bucket>)
    requires Descending(sorted)
    ensures Descending(InsertBucket(b, sorted))
    decreases |sorted|
  {
    if sorted != [] && sorted[|sorted| - 1].earnings < b.earnings {
      var init, last := sorted[..|sorted| - 1], sorted[|sorted| - 1];
      InsertOrders(b, init);
      forall x | x in InsertBucket(b, init)
        ensures x.earnings >= last.earnings
      {
        InsertHas(b, init, x);
      }
    }
  }

  lemma {:induction false} InsertDiffers(b: Bucket, sorted: seq<Bucket>)
    requires TiersDiffer(sorted) && forall x :: x in sorted ==> x.tier != b.tier
    ensures TiersDiffer(InsertBucket(b, sorted))
    decreases |sorted|
  {
    if sorted != [] && sorted[|sorted| - 1].earnings < b.earnings {
      var init, last := sorted[..|sorted| - 1], sorted[|sorted| - 1];
      InsertDiffers(b, init);
      forall x | x in InsertBucket(b, init)
        ensures x.tier != last.tier
      {
        InsertHas(b, init, x);
        if x in init {
          var i :| 0 <= i < |init| && init[i] == x;
          assert sorted[i].tier != sorted[|sorted| - 1].tier;
        }
      }
    }
  }

  lemma {:induction false} InsertSums(b: Bucket, sorted: seq<Bucket>)
    ensures SumEarnings(InsertBucket(b, sorted)) == SumEarnings(sorted) + b.earnings
    ensures SumProviders(InsertBucket(b, sorted)) == SumProviders(sorted) + b.providers
    decreases |sorted|
  {
    SumsAppend(sorted, b);
    if sorted != [] && sorted[|sorted| - 1].earnings < b.earnings {
      var init, last := sorted[..|sorted| - 1], sorted[|sorted| - 1];
      InsertSums(b, init);
      SumsAppend(InsertBucket(b, init), last);
    }
  }

  lemma {:induction false} SortHas(buckets: seq<Bucket>, x: Bucket)
    ensures x in SortBuckets(buckets) <==> x in buckets
  {
    if buckets != [] {
      var init, last := buckets[..|buckets| - 1], buckets[|buckets| - 1];
      assert buckets == init + [last];
      SortHas(init, x);
      InsertHas(last, SortBuckets(init), x);
    }
  }

  lemma {:induction false} SortKeeps(buckets: seq<Bucket>)
    requires TiersDiffer(buckets)
    ensures Descending(SortBuckets(buckets)) && TiersDiffer(SortBuckets(buckets))
    ensures SumEarnings(SortBuckets(buckets)) == SumEarnings(buckets)
    ensures SumProviders(SortBuckets(buckets)) == SumProviders(buckets)
  {
    if buckets != [] {
      hide InsertBucket, Descending;
      var init, last := buckets[..|buckets| - 1], buckets[|buckets| - 1];
      SortKeeps(init);
      forall x | x in SortBuckets(init)
        ensures x.tier != last.tier
      {
        SortHas(init, x);
        var i :| 0 <= i < |init| && init[i] == x;
        assert buckets[i].tier != buckets[|buckets| - 1].tier;
      }
      InsertOrders(last, SortBuckets(init));
      InsertDiffers(last, SortBuckets(init));
      InsertSums(last, SortBuckets(init));
    }
  }

  /** Sorting changes neither what is counted nor where. */
  lemma SortedBuckets(buckets: seq<Bucket>, ledger: seq<Earning>, tiers: seq<Tier>, providers: set<nat>)
    requires BucketsOf(buckets, ledger, tiers, providers)
    ensures BucketsOf(SortBuckets(buckets), ledger, tiers, providers) && Descending(SortBuckets(buckets))
  {
    hide SortBuckets, BucketOk, TierKey, SumBy, SumEarnings, SumProviders;
    var sorted := SortBuckets(buckets);
    assert TiersDiffer(buckets);
    SortKeeps(buckets);
    forall i | 0 <= i < |sorted|
      ensures BucketOk(sorted[i], ledger, tiers, providers)
    {
      SortHas(buckets, sorted[i]);
      var j :| 0 <= j < |buckets| && buckets[j] == sorted[i];
    }
    forall p | p in providers
      ensures exists i :: 0 <= i < |sorted| && sorted[i].tier == TierKey(tiers, SumBy(ledger, {p}))
    {
      var j :| 0 <= j < |buckets| && buckets[j].tier == TierKey(tiers, SumBy(ledger, {p}));
      SortHas(buckets, buckets[j]);
      var i :| 0 <= i < |sorted| && sorted[i] == buckets[j];
    }
  }

  // ----- what the buckets mean

  /** Earnings fall in an active tier of the table with the greatest threshold they reach; in none exactly when they
      reach no active tier's. */
  ghost predicate FallsIn(table: seq<Tier>, earned: int, key: Option<nat>) {
    match key
    case None => forall t :: t in table && t.isActive ==> earned < t.threshold
    case Some(id) =>
      exists t :: t in table && t.isActive && t.id == id && t.threshold <= earned
        && forall u :: u in table && u.isActive && u.threshold <= earned ==> u.threshold <= t.threshold
  }

  lemma TierKeyFalls(table: seq<Tier>, earned: int)
    ensures FallsIn(table, earned, TierKey(Active(table), earned))
  {
    TierForIsGreatest(earned, Active(table));
    forall t
      ensures t in Active(table) <==> t in table && t.isActive
      ensures Reaches(earned, Active(table), t) <==> t in table && t.isActive && t.threshold <= earned
    {
      ActiveIs(table, t);
    }
    hide TierFor, Active;
  }

  /** Where thresholds and ids are distinct, earnings fall in one tier only. */
  lemma FallsInOne(table: seq<Tier>, earned: int, a: Option<nat>, b: Option<nat>)
    requires Distinct(table) && FallsIn(table, earned, a) && FallsIn(table, earned, b)
    ensures a == b
  {
  }

  /** The bucket stands for some of the ledger's providers, each of which falls in its tier, and holds their number
      and everything they earned; where thresholds are distinct these are all that fall in it. */
  ghost predicate BucketMeans(b: Bucket, ledger: seq<Earning>, table: seq<Tier>) {
    exists mine: set<nat> :: Stands(b, ledger, table, mine)
  }

  ghost predicate Stands(b: Bucket, ledger: seq<Earning>, table: seq<Tier>, mine: set<nat>) {
    && mine != {} && b.providers == |mine| && b.earnings == SumBy(ledger, mine)
    && (forall p :: p in mine ==> p in Providers(ledger) && FallsIn(table, SumBy(ledger, {p}), b.tier))
    && (Distinct(table) ==>
          forall p :: p in Providers(ledger) && FallsIn(table, SumBy(ledger, {p}), b.tier) ==> p in mine)
  }

  lemma BucketsMean(buckets: seq<Bucket>, ledger: seq<Earning>, table: seq<Tier>)
    requires BucketsOf(buckets, ledger, Active(table), Providers(ledger))
    ensures forall b :: b in buckets ==> BucketMeans(b, ledger, table)
  {
    hide TierKey, FallsIn, SumBy, Providers, Active, Distinct;
    forall b | b in buckets
      ensures BucketMeans(b, ledger, table)
    {
      var i :| 0 <= i < |buckets| && buckets[i] == b;
      assert BucketOk(buckets[i], ledger, Active(table), Providers(ledger));
      var mine := InTier(ledger, Active(table), Providers(ledger), b.tier);
      forall p | p in Providers(ledger)
        ensures p in mine ==> FallsIn(table, SumBy(ledger, {p}), b.tier)
        ensures Distinct(table) && FallsIn(table, SumBy(ledger, {p}), b.tier) ==> p in mine
      {
        var earned := SumBy(ledger, {p});
        TierKeyFalls(table, earned);
        if Distinct(table) && FallsIn(table, earned, b.tier) {
          FallsInOne(table, earned, b.tier, TierKey(Active(table), earned));
        }
      }
      assert Stands(b, ledger, table, mine);
    }
  }

  /** The buckets add up to the whole ledger and count each of its providers once, no two for the same tier, each
      for the active tier with the greatest threshold its providers' earnings reach. */
  method EarningDistribution(ledger: seq<Earning>, table: seq<Tier>) returns (buckets: seq<Bucket>)
    ensures forall b :: b in buckets ==> BucketMeans(b, ledger, table)
    ensures TiersDiffer(buckets) && Descending(buckets)
    ensures SumEarnings(buckets) == Sum(ledger) && SumProviders(buckets) == |Providers(ledger)|
  {
    hide BucketMeans, TotalsOf, BucketsOf, Active, SumBy, Providers, Done, Descending;
    var tiers := Active(table);
    var providerTotals := ProviderEarningTotals(ledger);
    buckets := [];
    NoBuckets(ledger, tiers);
    DoneNone(providerTotals);
    for i := 0 to |providerTotals|
      invariant BucketsOf(buckets, ledger, tiers, Done(providerTotals, i))
    {
      DoneNext(providerTotals, ledger, i);
      var total := providerTotals[i];
      var key := TierKey(tiers, total.earnings);
      var before := buckets;
      var found := IndexOf(BucketKeys(buckets), key);
      if found.Some? {
        var current := buckets[found.value];
        buckets := buckets[found.value := Bucket(key, current.providers + 1, current.earnings + total.earnings)];
        BucketsAdd(before, buckets, ledger, tiers, Done(providerTotals, i), total.provider, found.value);
      } else {
        buckets := buckets + [Bucket(key, 1, total.earnings)];
        BucketsAdd(before, buckets, ledger, tiers, Done(providerTotals, i), total.provider, |before|);
      }
    }
    DoneAll(providerTotals, ledger);
    SortedBuckets(buckets, ledger, tiers, Providers(ledger));
    buckets := SortBuckets(buckets);
    BucketsSum(buckets, ledger, tiers);
    BucketsMean(buckets, ledger, table);
  }

  lemma DoneNone(totals: seq<ProviderTotal>)
    ensures Done(totals, 0) == {}
  {
  }

  lemma BucketsSum(buckets: seq<Bucket>, ledger: seq<Earning>, tiers: seq<Tier>)
    requires BucketsOf(buckets, ledger, tiers, Providers(ledger))
    ensures SumEarnings(buckets) == Sum(ledger) && TiersDiffer(buckets) && SumProviders(buckets) == |Providers(ledger)|
  {
    SumByAll(ledger, Providers(ledger));
  }
}
