/** Commission tiers: their table with its uniqueness check, and the tier an earning total falls in. */
module Tiers {
  import opened Results

  /** The stored threshold has two decimals: cents. */
  datatype Tier = Tier(id: nat, name: string, threshold: nat, isActive: bool)

  /** The largest value of a column of ten digits, two of them decimals. */
  const MAX_THRESHOLD: nat := 9999999999

  /** What the column keeps of a requested threshold: it is rounded to cents. */
  function Stored(raw: real): nat
    requires raw >= 0.0
  {
    (raw * 100.0 + 0.5).Floor
  }

  function Worth(threshold: nat): real {
    threshold as real / 100.0
  }

  /** The uniqueness check looks for the requested threshold, not for what will be stored of it. */
  predicate ThresholdTaken(tiers: seq<Tier>, raw: real, exclude: Option<nat>) {
    exists i :: 0 <= i < |tiers| && Worth(tiers[i].threshold) == raw && Some(tiers[i].id) != exclude
  }

  function FindTier(tiers: seq<Tier>, id: nat): (r: Option<nat>)
    ensures r.Some? ==> r.value < |tiers| && tiers[r.value].id == id
    ensures r.None? ==> forall i :: 0 <= i < |tiers| ==> tiers[i].id != id
  {
    if tiers == [] then None
    else if tiers[|tiers| - 1].id == id then Some(|tiers| - 1)
    else FindTier(tiers[..|tiers| - 1], id)
  }

  type Threshold = raw: real | raw >= 0.0 witness 0.0

  function Create(tiers: seq<Tier>, id: nat, name: string, raw: Threshold, isActive: bool): Result<seq<Tier>> {
    if ThresholdTaken(tiers, raw, None) then Failed("Commission tier orderVolumeThreshold already exists")
    else if Stored(raw) > MAX_THRESHOLD then Failed("numeric field overflow")
    else if FindTier(tiers, id).Some? then Failed("Unique constraint failed on id")
    else Ok(tiers + [Tier(id, name, Stored(raw), isActive)])
  }

  function Update(tiers: seq<Tier>, id: nat, name: string, raw: Threshold, isActive: bool): Result<seq<Tier>> {
    match FindTier(tiers, id)
    case None => Failed("Commission tier not found")
    case Some(i) =>
      if ThresholdTaken(tiers, raw, Some(id)) then Failed("Commission tier orderVolumeThreshold already exists")
      else if Stored(raw) > MAX_THRESHOLD then Failed("numeric field overflow")
      else Ok(tiers[i := Tier(id, name, Stored(raw), isActive)])
  }

  function Delete(tiers: seq<Tier>, id: nat): Result<seq<Tier>> {
    match FindTier(tiers, id)
    case None => Failed("Commission tier not found")
    case Some(i) => Ok(tiers[..i] + tiers[i + 1..])
  }

  /** What is stored of a threshold is a whole number of cents nearest to it. */
  lemma StoredIsNearest(raw: Threshold)
    ensures -0.5 <= Stored(raw) as real - raw * 100.0 <= 0.5
  {
  }

  ghost predicate IdsDistinct(tiers: seq<Tier>) {
    forall i, j :: 0 <= i < j < |tiers| ==> tiers[i].id != tiers[j].id
  }

  /** Some tier other than the given one has exactly the requested threshold. */
  ghost predicate Clashes(tiers: seq<Tier>, raw: real, exclude: Option<nat>) {
    exists t :: t in tiers && t.threshold as real == raw * 100.0 && exclude != Some(t.id)
  }

  lemma ClashFound(tiers: seq<Tier>, raw: real, exclude: Option<nat>)
    ensures ThresholdTaken(tiers, raw, exclude) <==> Clashes(tiers, raw, exclude)
  {
    if t :| t in tiers && t.threshold as real == raw * 100.0 && exclude != Some(t.id) {
      var i :| 0 <= i < |tiers| && tiers[i] == t;
      assert Worth(tiers[i].threshold) == raw;
    }
    if i :| 0 <= i < |tiers| && Worth(tiers[i].threshold) == raw && Some(tiers[i].id) != exclude {
      assert tiers[i] in tiers && tiers[i].threshold as real == raw * 100.0;
    }
  }

  /** A tier is created exactly when no tier has its threshold or its id and the column can hold the threshold;
      it goes behind the others, with its name and activity as given. */
  lemma Created(tiers: seq<Tier>, id: nat, name: string, raw: Threshold, isActive: bool)
    ensures var r := Create(tiers, id, name, raw, isActive);
            && (r.Ok? <==> !Clashes(tiers, raw, None) && Stored(raw) <= 9999999999
                           && forall t :: t in tiers ==> t.id != id)
            && (r.Ok? ==> r.value == tiers + [Tier(id, name, Stored(raw), isActive)])
  {
    hide ThresholdTaken, Clashes, Stored;
    ClashFound(tiers, raw, None);
    if FindTier(tiers, id).Some? {
      assert tiers[FindTier(tiers, id).value] in tiers;
    }
  }

  /** The tier of an id is the one updated, exactly when no other has the threshold and the column can hold it. */
  lemma Updated(tiers: seq<Tier>, i: nat, name: string, raw: Threshold, isActive: bool)
    requires IdsDistinct(tiers) && i < |tiers|
    ensures var id := tiers[i].id;
            var r := Update(tiers, id, name, raw, isActive);
            && (r.Ok? <==> !Clashes(tiers, raw, Some(id)) && Stored(raw) <= 9999999999)
            && (r.Ok? ==> r.value == tiers[i := Tier(id, name, Stored(raw), isActive)])
  {
    hide ThresholdTaken, Clashes, Stored;
    ClashFound(tiers, raw, Some(tiers[i].id));
    assert FindTier(tiers, tiers[i].id) == Some(i);
  }

  /** Deleting takes the tier of the id out of the others' order. */
  lemma Deleted(tiers: seq<Tier>, i: nat)
    requires IdsDistinct(tiers) && i < |tiers|
    ensures Delete(tiers, tiers[i].id) == Ok(tiers[..i] + tiers[i + 1..])
    ensures forall t :: t in tiers[..i] + tiers[i + 1..] <==> t in tiers && t.id != tiers[i].id
  {
    assert FindTier(tiers, tiers[i].id) == Some(i);
    assert tiers == tiers[..i] + [tiers[i]] + tiers[i + 1..];
  }

  /** An id no tier has is neither updated nor deleted. */
  lemma UnknownTier(tiers: seq<Tier>, id: nat, name: string, raw: Threshold, isActive: bool)
    requires forall t :: t in tiers ==> t.id != id
    ensures Update(tiers, id, name, raw, isActive).Failed? && Delete(tiers, id).Failed?
  {
    forall i | 0 <= i < |tiers|
      ensures tiers[i].id != id
    {
      assert tiers[i] in tiers;
    }
    hide ThresholdTaken;
  }

  class Table {
    var tiers: seq<Tier>

    constructor ()
      ensures tiers == []
    {
      tiers := [];
    }

    method CreateTier(id: nat, name: string, raw: Threshold, isActive: bool) returns (r: Result<nat>)
      modifies this
      ensures match Create(old(tiers), id, name, raw, isActive)
              case Ok(next) => r == Ok(id) && tiers == next
              case Failed(message) => r == Failed(message) && tiers == old(tiers)
    {
      if ThresholdTaken(tiers, raw, None) {
        return Failed("Commission tier orderVolumeThreshold already exists");
      }
      if Stored(raw) > MAX_THRESHOLD {
        return Failed("numeric field overflow");
      }
      if FindTier(tiers, id).Some? {
        return Failed("Unique constraint failed on id");
      }
      tiers := tiers + [Tier(id, name, Stored(raw), isActive)];
      return Ok(id);
    }

    method UpdateTier(id: nat, name: string, raw: Threshold, isActive: bool) returns (r: Result<nat>)
      modifies this
      ensures match Update(old(tiers), id, name, raw, isActive)
              case Ok(next) => r == Ok(id) && tiers == next
              case Failed(message) => r == Failed(message) && tiers == old(tiers)
    {
      var current := FindTier(tiers, id);
      if current.None? {
        return Failed("Commission tier not found");
      }
      if ThresholdTaken(tiers, raw, Some(id)) {
        return Failed("Commission tier orderVolumeThreshold already exists");
      }
      if Stored(raw) > MAX_THRESHOLD {
        return Failed("numeric field overflow");
      }
      tiers := tiers[current.value := Tier(id, name, Stored(raw), isActive)];
      return Ok(id);
    }

    method DeleteTier(id: nat) returns (r: Result<nat>)
      modifies this
      ensures match Delete(old(tiers), id)
              case Ok(next) => r == Ok(id) && tiers == next
              case Failed(message) => r == Failed(message) && tiers == old(tiers)
    {
      var current := FindTier(tiers, id);
      if current.None? {
        return Failed("Commission tier not found");
      }
      tiers := tiers[..current.value] + tiers[current.value + 1..];
      return Ok(id);
    }
  }

  // ----- thresholds stay distinct

  ghost predicate Distinct(tiers: seq<Tier>) {
    forall i, j :: 0 <= i < j < |tiers| ==> tiers[i].threshold != tiers[j].threshold && tiers[i].id != tiers[j].id
  }

  datatype Change =
    | CreateChange(id: nat, name: string, raw: Threshold, isActive: bool)
    | UpdateChange(id: nat, name: string, raw: Threshold, isActive: bool)
    | DeleteChange(id: nat)

  function Apply(tiers: seq<Tier>, c: Change): Result<seq<Tier>> {
    match c
    case CreateChange(id, name, raw, isActive) => Create(tiers, id, name, raw, isActive)
    case UpdateChange(id, name, raw, isActive) => Update(tiers, id, name, raw, isActive)
    case DeleteChange(id) => Delete(tiers, id)
  }

  function ApplyAll(tiers: seq<Tier>, changes: seq<Change>): seq<Tier>
    decreases |changes|
  {
    if changes == [] then tiers
    else ApplyAll(match Apply(tiers, changes[0]) case Ok(next) => next case Failed(_) => tiers, changes[1..])
  }

  /** A requested threshold of whole cents. */
  predicate WholeCents(raw: Threshold) {
    Worth(Stored(raw)) == raw
  }

  lemma ChangeKeepsDistinct(tiers: seq<Tier>, c: Change)
    requires Distinct(tiers) && (c.DeleteChange? || WholeCents(c.raw))
    ensures Apply(tiers, c).Ok? ==> Distinct(Apply(tiers, c).value)
  {
  }

  /** Any run of creates, updates and deletes with thresholds of whole cents keeps them distinct. */
  lemma {:induction false} ChangesKeepDistinct(tiers: seq<Tier>, changes: seq<Change>)
    requires Distinct(tiers)
    requires forall c :: c in changes ==> c.DeleteChange? || WholeCents(c.raw)
    ensures Distinct(ApplyAll(tiers, changes))
    decreases |changes|
  {
    hide Distinct, WholeCents, Apply;
    if changes != [] {
      ChangeKeepsDistinct(tiers, changes[0]);
      ChangesKeepDistinct(match Apply(tiers, changes[0]) case Ok(next) => next case Failed(_) => tiers, changes[1..]);
    }
  }

  /** A threshold that fits keeps every table distinct if and only if it is of whole cents: any other slips
      past the check of the tier it rounds to. */
  lemma DistinctIffWholeCents(id: nat, name: string, raw: Threshold, isActive: bool)
    requires Stored(raw) <= MAX_THRESHOLD
    ensures (forall tiers :: Distinct(tiers) && Create(tiers, id, name, raw, isActive).Ok? ==>
                               Distinct(Create(tiers, id, name, raw, isActive).value))
            <==> WholeCents(raw)
  {
    if WholeCents(raw) {
      forall tiers | Distinct(tiers) && Create(tiers, id, name, raw, isActive).Ok?
        ensures Distinct(Create(tiers, id, name, raw, isActive).value)
      {
        ChangeKeepsDistinct(tiers, CreateChange(id, name, raw, isActive));
      }
    } else {
      var same := [Tier(id + 1, name, Stored(raw), isActive)];
      assert FindTier(same, id) == None;
      var r := Create(same, id, name, raw, isActive);
      assert r == Ok(same + [Tier(id, name, Stored(raw), isActive)]);
      assert (same + [Tier(id, name, Stored(raw), isActive)])[0].threshold
        == (same + [Tier(id, name, Stored(raw), isActive)])[1].threshold;
    }
  }

  /** Updating has the same gap, and the same condition. */
  lemma UpdateDistinctIffWholeCents(id: nat, name: string, raw: Threshold, isActive: bool)
    requires Stored(raw) <= MAX_THRESHOLD
    ensures (forall tiers :: Distinct(tiers) && Update(tiers, id, name, raw, isActive).Ok? ==>
                               Distinct(Update(tiers, id, name, raw, isActive).value))
            <==> WholeCents(raw)
  {
    if WholeCents(raw) {
      forall tiers | Distinct(tiers) && Update(tiers, id, name, raw, isActive).Ok?
        ensures Distinct(Update(tiers, id, name, raw, isActive).value)
      {
        ChangeKeepsDistinct(tiers, UpdateChange(id, name, raw, isActive));
      }
    } else {
      var other, mine := Tier(id + 1, name, Stored(raw), isActive), Tier(id, name, Stored(raw) + 1, isActive);
      var tiers := [other, mine];
      assert FindTier(tiers, id) == Some(1);
      assert !ThresholdTaken(tiers, raw, Some(id));
      var after := tiers[1 := Tier(id, name, Stored(raw), isActive)];
      assert Update(tiers, id, name, raw, isActive) == Ok(after);
      assert after[0].threshold == after[1].threshold;
      assert Distinct(tiers) && !Distinct(after);
    }
  }

  /** 10 and then 10.004 are both accepted, and both stored as 10.00. */
  lemma TenTwice()
    ensures ApplyAll([], [CreateChange(1, "Gold", 10.0, true), CreateChange(2, "Silver", 10.004, true)])
            == [Tier(1, "Gold", 1000, true), Tier(2, "Silver", 1000, true)]
  {
    assert Stored(10.0) == 1000 && Stored(10.004) == 1000;
    var one := [Tier(1, "Gold", 1000, true)];
    var none: seq<Tier> := [];
    assert !ThresholdTaken(none, 10.0, None) && FindTier(none, 1) == None;
    assert none + one == one;
    assert Create(none, 1, "Gold", 10.0, true) == Ok(one);
    assert Worth(1000) == 10.0 && !ThresholdTaken(one, 10.004, None);
    assert FindTier(one, 2) == None;
    assert Create(one, 2, "Silver", 10.004, true) == Ok(one + [Tier(2, "Silver", 1000, true)]);
    assert ApplyAll(one, [CreateChange(2, "Silver", 10.004, true)]) == one + [Tier(2, "Silver", 1000, true)];
  }

  // ----- the tier of a total

  /** The tiers an earning distribution looks at. */
  function Active(tiers: seq<Tier>): seq<Tier> {
    if tiers == [] then []
    else Active(tiers[..|tiers| - 1]) + if tiers[|tiers| - 1].isActive then [tiers[|tiers| - 1]] else []
  }

  function Reached(tiers: seq<Tier>, total: int): seq<Tier> {
    if tiers == [] then []
    else
      var last := tiers[|tiers| - 1];
      Reached(tiers[..|tiers| - 1], total) + if total >= last.threshold then [last] else []
  }

  function Insert(t: Tier, sorted: seq<Tier>): seq<Tier>
    decreases |sorted|
  {
    if sorted == [] || sorted[|sorted| - 1].threshold >= t.threshold then sorted + [t]
    else Insert(t, sorted[..|sorted| - 1]) + [sorted[|sorted| - 1]]
  }

  /** A stable sort, greatest threshold first. */
  function SortDescending(tiers: seq<Tier>): seq<Tier> {
    if tiers == [] then [] else Insert(tiers[|tiers| - 1], SortDescending(tiers[..|tiers| - 1]))
  }

  function TierFor(total: int, tiers: seq<Tier>): Option<Tier> {
    var sorted := SortDescending(Reached(tiers, total));
    if sorted == [] then None else Some(sorted[0])
  }

  ghost predicate Reaches(total: int, tiers: seq<Tier>, t: Tier) {
    t in tiers && t.threshold <= total
  }

  /** A tier with the greatest threshold the total reaches; none only when it reaches none. */
  ghost predicate IsTierFor(total: int, tiers: seq<Tier>, r: Option<Tier>) {
    match r
    case None => forall t :: !Reaches(total, tiers, t)
    case Some(best) =>
      && Reaches(total, tiers, best)
      && forall t :: Reaches(total, tiers, t) ==> t.threshold <= best.threshold
  }

  lemma {:induction false} ReachedIs(tiers: seq<Tier>, total: int, t: Tier)
    ensures t in Reached(tiers, total) <==> Reaches(total, tiers, t)
  {
    if tiers != [] {
      ReachedIs(tiers[..|tiers| - 1], total, t);
      assert tiers == tiers[..|tiers| - 1] + [tiers[|tiers| - 1]];
    }
  }

  ghost predicate Descending(sorted: seq<Tier>) {
    forall i, j :: 0 <= i < j < |sorted| ==> sorted[i].threshold >= sorted[j].threshold
  }

  lemma {:induction false} InsertHas(t: Tier, sorted: seq<Tier>, x: Tier)
    ensures x in Insert(t, sorted) <==> x == t || x in sorted
    decreases |sorted|
  {
    if sorted != [] {
      assert sorted == sorted[..|sorted| - 1] + [sorted[|sorted| - 1]];
      InsertHas(t, sorted[..|sorted| - 1], x);
    }
  }

  lemma {:induction false} InsertDescends(t: Tier, sorted: seq<Tier>)
    requires Descending(sorted)
    ensures Descending(Insert(t, sorted))
    decreases |sorted|
  {
    if sorted != [] && sorted[|sorted| - 1].threshold < t.threshold {
      var init, last := sorted[..|sorted| - 1], sorted[|sorted| - 1];
      InsertDescends(t, init);
      forall x | x in Insert(t, init)
        ensures x.threshold >= last.threshold
      {
        InsertHas(t, init, x);
      }
    }
  }

  lemma {:induction false} SortKeeps(tiers: seq<Tier>, x: Tier)
    ensures x in SortDescending(tiers) <==> x in tiers
    ensures Descending(SortDescending(tiers))
  {
    if tiers != [] {
      var init, last := tiers[..|tiers| - 1], tiers[|tiers| - 1];
      assert tiers == init + [last];
      SortKeeps(init, x);
      InsertHas(last, SortDescending(init), x);
      InsertDescends(last, SortDescending(init));
    }
  }

  lemma TierForIsGreatest(total: int, tiers: seq<Tier>)
    ensures IsTierFor(total, tiers, TierFor(total, tiers))
  {
    hide SortDescending, Reached;
    var reached := Reached(tiers, total);
    var sorted := SortDescending(reached);
    forall t
      ensures Descending(sorted) && (t in sorted <==> Reaches(total, tiers, t))
    {
      SortKeeps(reached, t);
      ReachedIs(tiers, total, t);
    }
    if sorted != [] {
      SortKeeps(reached, sorted[0]);
      assert sorted[0] in sorted;
    }
  }

  lemma {:induction false} ActiveIs(tiers: seq<Tier>, t: Tier)
    ensures t in Active(tiers) <==> t in tiers && t.isActive
  {
    if tiers != [] {
      assert tiers == tiers[..|tiers| - 1] + [tiers[|tiers| - 1]];
      ActiveIs(tiers[..|tiers| - 1], t);
    }
  }

  lemma {:induction false} InsertHead(t: Tier, sorted: seq<Tier>)
    requires Descending(sorted)
    ensures Insert(t, sorted) != []
    ensures Insert(t, sorted)[0] == if sorted == [] || sorted[0].threshold < t.threshold then t else sorted[0]
    decreases |sorted|
  {
    if sorted != [] && sorted[|sorted| - 1].threshold < t.threshold {
      InsertHead(t, sorted[..|sorted| - 1]);
    }
  }

  /** One more tier behind the others is the answer only if it is reached and its threshold is greater. */
  lemma TierForAppend(total: int, tiers: seq<Tier>, t: Tier)
    ensures var before := TierFor(total, tiers);
            TierFor(total, tiers + [t]) ==
            if t.threshold <= total && (before.None? || before.value.threshold < t.threshold) then Some(t) else before
  {
    hide Insert;
    var reached, more := Reached(tiers, total), Reached(tiers + [t], total);
    assert (tiers + [t])[..|tiers|] == tiers && (tiers + [t])[|tiers|] == t;
    if t.threshold <= total {
      assert more == reached + [t];
      assert more[..|reached|] == reached && more[|reached|] == t;
      assert SortDescending(more) == Insert(t, SortDescending(reached));
      SortKeeps(reached, t);
      InsertHead(t, SortDescending(reached));
    } else {
      assert more == reached;
    }
  }

  /** Among several tiers of the greatest threshold reached, the answer is the first. */
  lemma {:induction false} TierForIsFirst(total: int, tiers: seq<Tier>)
    requires TierFor(total, tiers).Some?
    ensures exists k :: 0 <= k < |tiers| && tiers[k] == TierFor(total, tiers).value
                        && forall j :: 0 <= j < k && tiers[j].threshold <= total ==>
                             tiers[j].threshold < tiers[k].threshold
  {
    TierForIsGreatest(total, tiers);
    hide TierFor;
    var init, last := tiers[..|tiers| - 1], tiers[|tiers| - 1];
    assert tiers == init + [last];
    TierForAppend(total, init, last);
    TierForIsGreatest(total, init);
    var before := TierFor(total, init);
    if TierFor(total, tiers) == before {
      TierForIsFirst(total, init);
      var k :| 0 <= k < |init| && init[k] == before.value
        && forall j :: 0 <= j < k && init[j].threshold <= total ==> init[j].threshold < init[k].threshold;
      assert tiers[k] == before.value;
    } else {
      forall j | 0 <= j < |init| && tiers[j].threshold <= total
        ensures tiers[j].threshold < last.threshold
      {
        assert Reaches(total, init, init[j]);
      }
      assert tiers[|init|] == last;
    }
  }

  /** With distinct thresholds only one answer is right, so the order of the tiers does not matter. */
  lemma TierForUnique(total: int, table: seq<Tier>, others: seq<Tier>)
    requires Distinct(table) && forall t :: t in table <==> t in others
    ensures TierFor(total, Active(table)) == TierFor(total, Active(others))
  {
    hide TierFor, Active;
    TierForIsGreatest(total, Active(table));
    TierForIsGreatest(total, Active(others));
    forall t
      ensures t in Active(table) ==> t in table
      ensures t in Active(table) <==> t in Active(others)
    {
      ActiveIs(table, t);
      ActiveIs(others, t);
    }
    var a, b := TierFor(total, Active(table)), TierFor(total, Active(others));
    if a.Some? {
      assert Reaches(total, Active(others), a.value);
    }
    if b.Some? {
      assert Reaches(total, Active(table), b.value);
    }
  }

  /** A greater total never falls in a lower tier. */
  lemma TierForMonotone(total: int, greater: int, tiers: seq<Tier>)
    requires total <= greater
    ensures TierFor(total, tiers).Some? ==>
              TierFor(greater, tiers).Some?
                && TierFor(total, tiers).value.threshold <= TierFor(greater, tiers).value.threshold
  {
    hide TierFor;
    TierForIsGreatest(total, tiers);
    TierForIsGreatest(greater, tiers);
    var a := TierFor(total, tiers);
    if a.Some? {
      assert Reaches(greater, tiers, a.value);
    }
  }
}
