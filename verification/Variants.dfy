/** The variants of a gift, written from a list of incoming entries by two services: gift management, which
    checks ownership entry by entry, and provider inventory, which compares two lengths beforehand. */
module Variants {
  import opened Results
  import Sets

  datatype Row = Row(gift: nat, name: string, price: nat)

  /** Rows by id. Ids are handed out in order; `next` is the first not yet handed out. */
  datatype Table = Table(rows: map<nat, Row>, next: nat)

  /** An incoming variant; an empty id counts as none. */
  datatype Entry = Entry(id: Option<nat>, name: Option<string>, price: Option<nat>)

  ghost predicate Valid(t: Table) {
    forall id :: id in t.rows ==> id < t.next
  }

  /** A client can only name ids that were handed out before. */
  ghost predicate Known(t: Table, entries: seq<Entry>) {
    forall k :: 0 <= k < |entries| && entries[k].id.Some? ==> entries[k].id.value < t.next
  }

  predicate Owns(t: Table, gift: nat, id: nat) {
    id in t.rows && t.rows[id].gift == gift
  }

  function GiftRows(t: Table, gift: nat): set<nat> {
    set id | id in t.rows && t.rows[id].gift == gift
  }

  // ----- the row operations

  function Ids(entries: seq<Entry>): seq<nat> {
    if entries == [] then []
    else
      var last := entries[|entries| - 1];
      Ids(entries[..|entries| - 1]) + if last.id.Some? then [last.id.value] else []
  }

  function DeleteVariantsForGift(t: Table, gift: nat, keep: seq<nat>): Table {
    t.(rows := map id | id in t.rows && (t.rows[id].gift != gift || id in keep) :: t.rows[id])
  }

  function Merge(row: Row, e: Entry): Row {
    Row(row.gift, if e.name.Some? then e.name.value else row.name, if e.price.Some? then e.price.value else row.price)
  }

  function UpdateVariant(t: Table, id: nat, e: Entry): Table
    requires id in t.rows
  {
    t.(rows := t.rows[id := Merge(t.rows[id], e)])
  }

  function CreateVariant(t: Table, gift: nat, e: Entry): Result<Table> {
    if e.name.None? || e.price.None? then Failed("New variants must include name and price")
    else Ok(Table(t.rows[t.next := Row(gift, e.name.value, e.price.value)], t.next + 1))
  }

  // ----- gift management

  predicate Normal(entries: seq<Entry>) {
    forall k :: 0 <= k < |entries| && entries[k].id.None? ==> entries[k].name.Some? && entries[k].price.Some?
  }

  function UpsertOne(t: Table, gift: nat, e: Entry): Result<Table> {
    if e.id.None? then CreateVariant(t, gift, e)
    else if Owns(t, gift, e.id.value) then Ok(UpdateVariant(t, e.id.value, e))
    else if e.id.value in t.rows then Failed("Variant does not belong to gift")
    else CreateVariant(t, gift, e)
  }

  function UpsertEach(t: Table, gift: nat, entries: seq<Entry>): Result<Table> {
    if entries == [] then Ok(t)
    else
      match UpsertEach(t, gift, entries[..|entries| - 1])
      case Failed(message) => Failed(message)
      case Ok(t1) => UpsertOne(t1, gift, entries[|entries| - 1])
  }

  function UpsertVariants(t: Table, gift: nat, entries: seq<Entry>, replace: bool): Result<Table> {
    if !Normal(entries) then Failed("New variants must include name and price")
    else UpsertEach(if replace then DeleteVariantsForGift(t, gift, Ids(entries)) else t, gift, entries)
  }

  // ----- provider inventory

  /** `existing.length !== ids.length`: the database answers with the distinct rows of the gift among the ids. */
  predicate OwnershipPasses(t: Table, gift: nat, entries: seq<Entry>) {
    |Ids(entries)| == |set id | id in Ids(entries) && Owns(t, gift, id)|
  }

  function WriteOne(t: Table, gift: nat, e: Entry): Result<Table> {
    if e.id.None? then CreateVariant(t, gift, e)
    else if e.id.value in t.rows then Ok(UpdateVariant(t, e.id.value, e))
    else Failed("Record to update not found")
  }

  function WriteEach(t: Table, gift: nat, entries: seq<Entry>): Result<Table> {
    if entries == [] then Ok(t)
    else
      match WriteEach(t, gift, entries[..|entries| - 1])
      case Failed(message) => Failed(message)
      case Ok(t1) => WriteOne(t1, gift, entries[|entries| - 1])
  }

  function UpdateItemVariants(t: Table, gift: nat, entries: seq<Entry>, replace: bool): Result<Table> {
    if !OwnershipPasses(t, gift, entries) then Failed("Variant does not belong to inventory item")
    else WriteEach(if replace then DeleteVariantsForGift(t, gift, Ids(entries)) else t, gift, entries)
  }

  /** One entry: it is merged into the gift's own variant, refused for another gift's, and otherwise makes a new
      variant, for which it needs a name and a price. */
  lemma UpsertsOne(t: Table, gift: nat, e: Entry)
    ensures var own := e.id.Some? && e.id.value in t.rows && t.rows[e.id.value].gift == gift;
            var foreign := e.id.Some? && e.id.value in t.rows && t.rows[e.id.value].gift != gift;
            var r := UpsertOne(t, gift, e);
            && (r.Ok? <==> own || (!foreign && e.name.Some? && e.price.Some?))
            && (r.Ok? && own ==>
                  var row := t.rows[e.id.value];
                  var name := if e.name.Some? then e.name.value else row.name;
                  var price := if e.price.Some? then e.price.value else row.price;
                  r.value == Table(t.rows[e.id.value := Row(gift, name, price)], t.next))
            && (r.Ok? && !own ==>
                  r.value == Table(t.rows[t.next := Row(gift, e.name.value, e.price.value)], t.next + 1))
  {
  }

  // ----- the pigeonhole

  ghost predicate NoRepeats(ids: seq<nat>) {
    forall i, j :: 0 <= i < j < |ids| ==> ids[i] != ids[j]
  }

  function Elements(ids: seq<nat>): set<nat> {
    set id | id in ids
  }

  lemma {:induction false} ElementsCount(ids: seq<nat>)
    ensures |Elements(ids)| <= |ids|
    ensures |Elements(ids)| == |ids| <==> NoRepeats(ids)
  {
    if ids != [] {
      var init, last := ids[..|ids| - 1], ids[|ids| - 1];
      ElementsCount(init);
      assert ids == init + [last];
      if last in init {
        assert Elements(ids) == Elements(init);
        var i :| 0 <= i < |init| && init[i] == last;
        assert ids[i] == ids[|ids| - 1];
      } else {
        assert Elements(ids) == Elements(init) + {last};
        if NoRepeats(init) {
          assert NoRepeats(ids);
        }
        if NoRepeats(ids) {
          assert NoRepeats(init);
        }
      }
    }
  }

  /** Comparing the two lengths tells exactly that the ids are distinct and all owned by the item. */
  lemma OwnershipMeans(t: Table, gift: nat, entries: seq<Entry>)
    ensures OwnershipPasses(t, gift, entries) <==>
            NoRepeats(Ids(entries)) && forall id :: id in Ids(entries) ==> Owns(t, gift, id)
  {
    var ids := Ids(entries);
    var owned := set id | id in ids && Owns(t, gift, id);
    ElementsCount(ids);
    Sets.SubsetBound(owned, Elements(ids));
    if |ids| == |owned| {
      Sets.SubsetFills(owned, Elements(ids));
      assert forall id :: id in ids ==> id in Elements(ids);
    }
    if NoRepeats(ids) && forall id :: id in ids ==> Owns(t, gift, id) {
      assert owned == Elements(ids);
    }
  }

  // ----- what a list of entries does

  /** The entry names a variant the gift has. */
  predicate Names(t: Table, gift: nat, e: Entry) {
    e.id.Some? && Owns(t, gift, e.id.value)
  }

  /** How many of the entries make a new variant. */
  function Creates(t: Table, gift: nat, entries: seq<Entry>): nat {
    if entries == [] then 0
    else Creates(t, gift, entries[..|entries| - 1]) + if Names(t, gift, entries[|entries| - 1]) then 0 else 1
  }

  /** What the entries make of a variant the gift has: each one that names it is merged in, in order. */
  function MergeAll(row: Row, id: nat, entries: seq<Entry>): Row {
    if entries == [] then row
    else
      var before, last := MergeAll(row, id, entries[..|entries| - 1]), entries[|entries| - 1];
      if last.id == Some(id) then Merge(before, last) else before
  }

  lemma {:induction false} MergeAllKeepsGift(row: Row, id: nat, entries: seq<Entry>)
    ensures MergeAll(row, id, entries).gift == row.gift
  {
    if entries != [] {
      MergeAllKeepsGift(row, id, entries[..|entries| - 1]);
    }
  }

  /** The loop hands out one new id for each new variant and takes none away. */
  ghost predicate KeysAfter(t: Table, t': Table, gift: nat, entries: seq<Entry>) {
    && t'.next == t.next + Creates(t, gift, entries)
    && (forall id :: id in t'.rows <==> id in t.rows || t.next <= id < t'.next)
  }

  /** The gift's variants are merged, other gifts' are as before. */
  ghost predicate OldAfter(t: Table, t': Table, gift: nat, entries: seq<Entry>) {
    forall id :: id in t.rows ==>
      id in t'.rows && t'.rows[id] == if t.rows[id].gift == gift then MergeAll(t.rows[id], id, entries) else t.rows[id]
  }

  /** New variants follow in the order of their entries, with the name and price given there. */
  ghost predicate NewAfter(t: Table, t': Table, gift: nat, entries: seq<Entry>) {
    && (forall k :: 0 <= k < |entries| && !Names(t, gift, entries[k]) ==>
          var id := t.next + Creates(t, gift, entries[..k]);
          && id < t'.next && id in t'.rows && entries[k].name.Some? && entries[k].price.Some?
          && t'.rows[id] == Row(gift, entries[k].name.value, entries[k].price.value))
    && (forall id :: t.next <= id < t'.next && id in t'.rows ==> t'.rows[id].gift == gift)
  }

  ghost predicate Upserted(t: Table, t': Table, gift: nat, entries: seq<Entry>) {
    KeysAfter(t, t', gift, entries) && OldAfter(t, t', gift, entries) && NewAfter(t, t', gift, entries)
  }

  lemma UpsertedOne(t: Table, t1: Table, gift: nat, entries: seq<Entry>)
    requires Valid(t) && Known(t, entries) && entries != []
    requires Upserted(t, t1, gift, entries[..|entries| - 1])
    ensures var r := UpsertOne(t1, gift, entries[|entries| - 1]); r.Ok? ==> Upserted(t, r.value, gift, entries)
  {
    var init, last := entries[..|entries| - 1], entries[|entries| - 1];
    var r := UpsertOne(t1, gift, last);
    if r.Ok? {
      NamesLater(t, t1, gift, init, last);
      hide KeysAfter, OldAfter, NewAfter, Valid, Known, Names;
      assert KeysAfter(t, r.value, gift, entries) by { KeysOne(t, t1, r.value, gift, entries); }
      assert OldAfter(t, r.value, gift, entries) by { OldOne(t, t1, r.value, gift, entries); }
      assert NewAfter(t, r.value, gift, entries) by { NewOne(t, t1, r.value, gift, entries); }
    }
  }

  /** What one entry does to the table, told by whether it names a variant of the gift. */
  ghost predicate OneDone(t: Table, t1: Table, t2: Table, gift: nat, e: Entry) {
    if Names(t, gift, e) then e.id.value in t1.rows && t2 == UpdateVariant(t1, e.id.value, e)
    else CreateVariant(t1, gift, e) == Ok(t2)
  }

  lemma KeysOne(t: Table, t1: Table, t2: Table, gift: nat, entries: seq<Entry>)
    requires entries != [] && KeysAfter(t, t1, gift, entries[..|entries| - 1])
    requires OneDone(t, t1, t2, gift, entries[|entries| - 1])
    ensures KeysAfter(t, t2, gift, entries)
  {
  }

  lemma OldOne(t: Table, t1: Table, t2: Table, gift: nat, entries: seq<Entry>)
    requires entries != [] && Valid(t) && OldAfter(t, t1, gift, entries[..|entries| - 1])
    requires KeysAfter(t, t1, gift, entries[..|entries| - 1])
    requires OneDone(t, t1, t2, gift, entries[|entries| - 1])
    requires Known(t, entries)
    ensures OldAfter(t, t2, gift, entries)
  {
  }

  lemma NewOne(t: Table, t1: Table, t2: Table, gift: nat, entries: seq<Entry>)
    requires entries != [] && Valid(t) && NewAfter(t, t1, gift, entries[..|entries| - 1])
    requires KeysAfter(t, t1, gift, entries[..|entries| - 1])
    requires OneDone(t, t1, t2, gift, entries[|entries| - 1])
    ensures NewAfter(t, t2, gift, entries)
  {
    hide Creates, Names;
    var n := |entries| - 1;
    var init, last := entries[..n], entries[n];
    if Names(t, gift, last) {
      NamesOwn(t, gift, last);
    }
    forall k | 0 <= k < |entries| && !Names(t, gift, entries[k])
      ensures var id := t.next + Creates(t, gift, entries[..k]);
              && id < t2.next && id in t2.rows && entries[k].name.Some? && entries[k].price.Some?
              && t2.rows[id] == Row(gift, entries[k].name.value, entries[k].price.value)
    {
      if k < n {
        assert init[..k] == entries[..k] && init[k] == entries[k];
      }
    }
  }

  lemma NamesOwn(t: Table, gift: nat, e: Entry)
    requires Valid(t) && Names(t, gift, e)
    ensures e.id.Some? && e.id.value < t.next
  {
  }

  /** Naming a variant of the gift means the same later in the loop. */
  lemma NamesLater(t: Table, t1: Table, gift: nat, init: seq<Entry>, e: Entry)
    requires Valid(t) && Upserted(t, t1, gift, init)
    requires e.id.Some? ==> e.id.value < t.next
    ensures Names(t1, gift, e) <==> Names(t, gift, e)
    ensures e.id.Some? ==> (e.id.value in t1.rows <==> e.id.value in t.rows)
  {
    hide Creates, MergeAll, NewAfter;
    if e.id.Some? && e.id.value in t.rows {
      MergeAllKeepsGift(t.rows[e.id.value], e.id.value, init);
    }
  }

  lemma {:induction false} UpsertEachDoes(t: Table, gift: nat, entries: seq<Entry>)
    requires Valid(t) && Known(t, entries)
    ensures var r := UpsertEach(t, gift, entries); r.Ok? ==> Upserted(t, r.value, gift, entries)
  {
    hide Upserted, UpsertOne;
    if entries == [] {
      UpsertedNone(t, gift);
    } else {
      var init := entries[..|entries| - 1];
      UpsertEachDoes(t, gift, init);
      var r := UpsertEach(t, gift, init);
      if r.Ok? {
        UpsertedOne(t, r.value, gift, entries);
      }
    }
  }

  lemma UpsertedNone(t: Table, gift: nat)
    ensures Upserted(t, t, gift, [])
  {
  }

  /** The rows the loop starts from. */
  function Base(t: Table, gift: nat, entries: seq<Entry>, replace: bool): Table {
    if replace then DeleteVariantsForGift(t, gift, Ids(entries)) else t
  }

  /** A row of another gift neither appears, changes nor goes away. */
  ghost predicate OthersSame(t: Table, t': Table, gift: nat) {
    && (forall id :: id in t.rows && t.rows[id].gift != gift ==> id in t'.rows && t'.rows[id] == t.rows[id])
    && (forall id :: id in t'.rows && t'.rows[id].gift != gift ==> id in t.rows)
  }

  lemma UpsertKeepsOthers(t: Table, gift: nat, entries: seq<Entry>, replace: bool)
    requires Valid(t) && Known(t, entries)
    ensures var r := UpsertVariants(t, gift, entries, replace); r.Ok? ==> Valid(r.value) && OthersSame(t, r.value, gift)
  {
    hide UpsertEach, Creates, MergeAll;
    var base := Base(t, gift, entries, replace);
    UpsertEachDoes(base, gift, entries);
    forall id | id in base.rows
      ensures MergeAll(base.rows[id], id, entries).gift == base.rows[id].gift
    {
      MergeAllKeepsGift(base.rows[id], id, entries);
    }
  }

  /** The n ids from a given one on. */
  function NewIds(from: nat, n: nat): (ids: set<nat>)
    ensures |ids| == n && forall id :: id in ids <==> from <= id < from + n
  {
    if n == 0 then {} else NewIds(from, n - 1) + {from + n - 1}
  }

  /** The gift ends with the variants it kept and one for each entry that names none of them. */
  lemma CountAfter(t: Table, t': Table, gift: nat, entries: seq<Entry>)
    requires Valid(t) && Upserted(t, t', gift, entries)
    ensures |GiftRows(t', gift)| == |GiftRows(t, gift)| + Creates(t, gift, entries)
  {
    hide Creates, MergeAll, Names;
    var made := NewIds(t.next, Creates(t, gift, entries));
    forall id: nat
      ensures id in GiftRows(t', gift) <==> id in GiftRows(t, gift) + made
    {
      if id in t.rows {
        MergeAllKeepsGift(t.rows[id], id, entries);
      }
    }
    assert GiftRows(t', gift) == GiftRows(t, gift) + made;
    hide KeysAfter, OldAfter, NewAfter;
  }

  /** The ids of the entries that name variants of the gift. */
  function Named(t: Table, gift: nat, entries: seq<Entry>): seq<nat> {
    if entries == [] then []
    else
      var last := entries[|entries| - 1];
      Named(t, gift, entries[..|entries| - 1]) + if Names(t, gift, last) then [last.id.value] else []
  }

  lemma {:induction false} NamedCount(t: Table, gift: nat, entries: seq<Entry>)
    ensures |Named(t, gift, entries)| + Creates(t, gift, entries) == |entries|
  {
    if entries != [] {
      NamedCount(t, gift, entries[..|entries| - 1]);
    }
  }

  lemma {:induction false} NamedIs(t: Table, gift: nat, entries: seq<Entry>, id: nat)
    ensures id in Named(t, gift, entries) <==> id in Ids(entries) && Owns(t, gift, id)
  {
    if entries != [] {
      NamedIs(t, gift, entries[..|entries| - 1], id);
    }
  }

  lemma {:induction false} DeletingSame(t: Table, gift: nat, entries: seq<Entry>, keep: seq<nat>)
    requires forall k :: 0 <= k < |entries| && entries[k].id.Some? ==> entries[k].id.value in keep
    ensures Named(DeleteVariantsForGift(t, gift, keep), gift, entries) == Named(t, gift, entries)
  {
    if entries != [] {
      DeletingSame(t, gift, entries[..|entries| - 1], keep);
    }
  }

  lemma {:induction false} IdsHas(entries: seq<Entry>, k: nat)
    requires k < |entries| && entries[k].id.Some?
    ensures entries[k].id.value in Ids(entries)
  {
    if k < |entries| - 1 {
      IdsHas(entries[..|entries| - 1], k);
    }
  }

  /** With replace, the gift holds exactly one variant for each entry if and only if no two entries name the
      same variant of it. */
  lemma ReplaceCounts(t: Table, gift: nat, entries: seq<Entry>)
    requires Valid(t) && Known(t, entries) && UpsertVariants(t, gift, entries, true).Ok?
    ensures |GiftRows(UpsertVariants(t, gift, entries, true).value, gift)| == |entries|
            <==> NoRepeats(Named(t, gift, entries))
  {
    hide UpsertEach, Creates, Upserted, Named, Ids, NoRepeats;
    var base := DeleteVariantsForGift(t, gift, Ids(entries));
    var t' := UpsertVariants(t, gift, entries, true).value;
    UpsertEachDoes(base, gift, entries);
    CountAfter(base, t', gift, entries);
    NamedCount(base, gift, entries);
    forall k | 0 <= k < |entries| && entries[k].id.Some?
      ensures entries[k].id.value in Ids(entries)
    {
      IdsHas(entries, k);
    }
    DeletingSame(t, gift, entries, Ids(entries));
    var named := Named(t, gift, entries);
    forall id: nat
      ensures id in GiftRows(base, gift) <==> id in named
    {
      NamedIs(t, gift, entries, id);
    }
    assert GiftRows(base, gift) == Elements(named);
    ElementsCount(named);
  }

  /** Without replace nothing is taken away. */
  lemma KeepCounts(t: Table, gift: nat, entries: seq<Entry>)
    requires Valid(t) && Known(t, entries) && UpsertVariants(t, gift, entries, false).Ok?
    ensures |GiftRows(UpsertVariants(t, gift, entries, false).value, gift)|
            == |GiftRows(t, gift)| + Creates(t, gift, entries)
  {
    hide UpsertEach, Creates, Upserted;
    UpsertEachDoes(t, gift, entries);
    CountAfter(t, UpsertVariants(t, gift, entries, false).value, gift, entries);
  }

  lemma {:induction false} MergedOnce(row: Row, id: nat, entries: seq<Entry>, k: nat)
    requires k < |entries| ==> entries[k].id == Some(id)
    requires forall j :: 0 <= j < |entries| && j != k ==> entries[j].id != Some(id)
    ensures MergeAll(row, id, entries) == if k < |entries| then Merge(row, entries[k]) else row
  {
    if entries != [] {
      MergedOnce(row, id, entries[..|entries| - 1], k);
    }
  }

  /** A variant named by one entry ends with the name and the price given there, keeping what is not given;
      with or without replace. */
  lemma NamedIsWritten(t: Table, gift: nat, entries: seq<Entry>, replace: bool, k: nat)
    requires Valid(t) && Known(t, entries) && UpsertVariants(t, gift, entries, replace).Ok?
    requires k < |entries| && Names(t, gift, entries[k])
    requires forall j :: 0 <= j < |entries| && j != k ==> entries[j].id != entries[k].id
    ensures var id, t', e := entries[k].id.value, UpsertVariants(t, gift, entries, replace).value, entries[k];
            && Owns(t', gift, id)
            && t'.rows[id].name == (if e.name.Some? then e.name.value else t.rows[id].name)
            && t'.rows[id].price == (if e.price.Some? then e.price.value else t.rows[id].price)
  {
    hide UpsertEach, Creates, MergeAll, KeysAfter, NewAfter, Ids;
    var id, base := entries[k].id.value, Base(t, gift, entries, replace);
    IdsHas(entries, k);
    UpsertEachDoes(base, gift, entries);
    MergedOnce(base.rows[id], id, entries, k);
  }

  // ----- the two services agree

  ghost predicate AllOwned(t: Table, gift: nat, entries: seq<Entry>) {
    forall k :: 0 <= k < |entries| && entries[k].id.Some? ==> Owns(t, gift, entries[k].id.value)
  }

  lemma {:induction false} WritesAlike(t: Table, gift: nat, entries: seq<Entry>)
    requires Valid(t) && AllOwned(t, gift, entries) && Normal(entries)
    ensures WriteEach(t, gift, entries) == UpsertEach(t, gift, entries) && WriteEach(t, gift, entries).Ok?
  {
    if entries != [] {
      hide Upserted, Creates, MergeAll;
      var init, last := entries[..|entries| - 1], entries[|entries| - 1];
      WritesAlike(t, gift, init);
      UpsertEachDoes(t, gift, init);
      NamesLater(t, UpsertEach(t, gift, init).value, gift, init, last);
    }
  }

  lemma {:induction false} NamedAll(t: Table, gift: nat, entries: seq<Entry>)
    requires AllOwned(t, gift, entries)
    ensures Named(t, gift, entries) == Ids(entries)
  {
    if entries != [] {
      NamedAll(t, gift, entries[..|entries| - 1]);
    }
  }

  /** Provider inventory demands a name and a price of every entry. */
  predicate Complete(entries: seq<Entry>) {
    forall k :: 0 <= k < |entries| ==> entries[k].name.Some? && entries[k].price.Some?
  }

  /** Entries that pass the length comparison are always written, as gift management would write them; with
      replace the item then holds exactly one variant for each. */
  lemma ProviderAgrees(t: Table, gift: nat, entries: seq<Entry>, replace: bool)
    requires Valid(t) && Known(t, entries) && Complete(entries) && OwnershipPasses(t, gift, entries)
    ensures var r := UpdateItemVariants(t, gift, entries, replace);
            && r.Ok? && r == UpsertVariants(t, gift, entries, replace)
            && OthersSame(t, r.value, gift)
            && (replace ==> |GiftRows(r.value, gift)| == |entries|)
  {
    hide OwnershipPasses, WriteEach, UpsertEach, GiftRows;
    OwnershipMeans(t, gift, entries);
    forall k | 0 <= k < |entries| && entries[k].id.Some?
      ensures entries[k].id.value in Ids(entries)
    {
      IdsHas(entries, k);
    }
    WritesAlike(Base(t, gift, entries, replace), gift, entries);
    UpsertKeepsOthers(t, gift, entries, replace);
    if replace {
      NamedAll(t, gift, entries);
      ReplaceCounts(t, gift, entries);
    }
  }

  // ----- which updates are accepted

  /** The entry names a variant of the gift, or no variant at all and makes a new one. */
  predicate Acceptable(t: Table, gift: nat, e: Entry) {
    match e.id
    case Some(id) =>
      if id in t.rows then t.rows[id].gift == gift else e.name.Some? && e.price.Some?
    case None => e.name.Some? && e.price.Some?
  }

  lemma {:induction false} EachAccepted(t: Table, gift: nat, entries: seq<Entry>)
    requires Valid(t) && Known(t, entries)
    ensures UpsertEach(t, gift, entries).Ok? <==> forall k :: 0 <= k < |entries| ==> Acceptable(t, gift, entries[k])
  {
    if entries != [] {
      hide Upserted, Creates, MergeAll;
      var init, last := entries[..|entries| - 1], entries[|entries| - 1];
      EachAccepted(t, gift, init);
      UpsertEachDoes(t, gift, init);
      var r := UpsertEach(t, gift, init);
      if r.Ok? {
        NamesLater(t, r.value, gift, init, last);
        UpsertsOne(r.value, gift, last);
        assert UpsertEach(t, gift, entries).Ok? <==> Acceptable(t, gift, last);
        forall k | 0 <= k < |entries| - 1
          ensures Acceptable(t, gift, entries[k])
        {
          assert init[k] == entries[k];
        }
      } else {
        var k :| 0 <= k < |init| && !Acceptable(t, gift, init[k]);
        assert !Acceptable(t, gift, entries[k]);
      }
    }
  }

  /** Gift management accepts the entries exactly when each names a variant of the gift, or names none and comes
      with a name and a price; one variant of another gift refuses them all. */
  lemma UpsertAccepted(t: Table, gift: nat, entries: seq<Entry>, replace: bool)
    requires Valid(t) && Known(t, entries)
    ensures UpsertVariants(t, gift, entries, replace).Ok? <==>
            forall k :: 0 <= k < |entries| ==> Acceptable(t, gift, entries[k])
  {
    hide UpsertEach, Ids;
    var base := Base(t, gift, entries, replace);
    EachAccepted(base, gift, entries);
    forall k | 0 <= k < |entries|
      ensures Acceptable(base, gift, entries[k]) <==> Acceptable(t, gift, entries[k])
    {
      if entries[k].id.Some? {
        IdsHas(entries, k);
      }
    }
    if !Normal(entries) {
      var k :| 0 <= k < |entries| && entries[k].id.None? && !(entries[k].name.Some? && entries[k].price.Some?);
      assert !Acceptable(t, gift, entries[k]);
    }
  }

  /** No two entries carry the same id. */
  ghost predicate IdsDiffer(entries: seq<Entry>) {
    forall j, k :: 0 <= j < k < |entries| && entries[j].id.Some? ==> entries[j].id != entries[k].id
  }

  lemma {:induction false} IdsHold(entries: seq<Entry>, id: nat)
    ensures id in Ids(entries) <==> exists k :: 0 <= k < |entries| && entries[k].id == Some(id)
  {
    if entries != [] {
      var init, last := entries[..|entries| - 1], entries[|entries| - 1];
      IdsHold(init, id);
      if k :| 0 <= k < |init| && init[k].id == Some(id) {
        assert entries[k].id == Some(id);
      }
      if k :| 0 <= k < |init| && entries[k].id == Some(id) {
        assert init[k].id == Some(id);
      }
    }
  }

  lemma {:induction false} IdsAre(entries: seq<Entry>)
    ensures NoRepeats(Ids(entries)) <==> IdsDiffer(entries)
  {
    if entries != [] {
      hide NoRepeats, IdsDiffer, Ids;
      var init, last := entries[..|entries| - 1], entries[|entries| - 1];
      assert entries == init + [last];
      IdsAre(init);
      IdsAppend(init, last);
      DifferAppend(init, last);
      if last.id.Some? {
        IdsHold(init, last.id.value);
      }
    } else {
      assert NoRepeats(Ids(entries)) && IdsDiffer(entries);
    }
  }

  lemma IdsAppend(init: seq<Entry>, last: Entry)
    ensures Ids(init + [last]) == Ids(init) + if last.id.Some? then [last.id.value] else []
    ensures NoRepeats(Ids(init + [last])) <==>
            NoRepeats(Ids(init)) && (last.id.Some? ==> last.id.value !in Ids(init))
  {
    assert (init + [last])[..|init|] == init;
    var ids, all := Ids(init), Ids(init + [last]);
    if NoRepeats(all) {
      assert forall i, j :: 0 <= i < j < |ids| ==> all[i] == ids[i] && all[j] == ids[j];
      forall i | 0 <= i < |ids| && last.id.Some?
        ensures ids[i] != last.id.value
      {
        assert all[i] == ids[i] && all[|ids|] == last.id.value;
      }
    }
  }

  lemma DifferAppend(init: seq<Entry>, last: Entry)
    ensures IdsDiffer(init + [last]) <==>
            IdsDiffer(init) && (last.id.Some? ==> forall k :: 0 <= k < |init| ==> init[k].id != last.id)
  {
    var all := init + [last];
    if IdsDiffer(all) {
      forall j, k | 0 <= j < k < |init| && init[j].id.Some?
        ensures init[j].id != init[k].id
      {
        assert all[j] == init[j] && all[k] == init[k];
      }
      forall k | 0 <= k < |init| && last.id.Some?
        ensures init[k].id != last.id
      {
        assert all[k] == init[k] && all[|init|] == last;
      }
    }
  }

  /** Provider inventory accepts the entries exactly when no two name the same variant and every one named is the
      item's own; either way no variant of another item changes. */
  lemma UpdateAccepted(t: Table, gift: nat, entries: seq<Entry>, replace: bool)
    requires Valid(t) && Known(t, entries) && Complete(entries)
    ensures var r := UpdateItemVariants(t, gift, entries, replace);
            && (r.Ok? <==>
                  && IdsDiffer(entries)
                  && forall k :: 0 <= k < |entries| && entries[k].id.Some? ==>
                       entries[k].id.value in t.rows && t.rows[entries[k].id.value].gift == gift)
            && (r.Ok? ==> OthersSame(t, r.value, gift))
  {
    IdsAre(entries);
    forall id: nat
      ensures id in Ids(entries) <==> exists k :: 0 <= k < |entries| && entries[k].id == Some(id)
    {
      IdsHold(entries, id);
    }
    OwnershipMeans(t, gift, entries);
    if OwnershipPasses(t, gift, entries) {
      ProviderAgrees(t, gift, entries, replace);
    }
    hide OwnershipPasses, WriteEach, Ids, OthersSame, NoRepeats, IdsDiffer;
  }

  // ----- failing entries

  /** A failed entry ends the loop with its message. */
  lemma {:induction false} UpsertFails(t: Table, gift: nat, entries: seq<Entry>, n: nat)
    requires n <= |entries| && UpsertEach(t, gift, entries[..n]).Failed?
    ensures UpsertEach(t, gift, entries) == UpsertEach(t, gift, entries[..n])
    decreases |entries|
  {
    if n == |entries| {
      assert entries[..n] == entries;
    } else {
      assert entries[..|entries| - 1][..n] == entries[..n];
      UpsertFails(t, gift, entries[..|entries| - 1], n);
    }
  }

  lemma {:induction false} WriteFails(t: Table, gift: nat, entries: seq<Entry>, n: nat)
    requires n <= |entries| && WriteEach(t, gift, entries[..n]).Failed?
    ensures WriteEach(t, gift, entries) == WriteEach(t, gift, entries[..n])
    decreases |entries|
  {
    if n == |entries| {
      assert entries[..n] == entries;
    } else {
      assert entries[..|entries| - 1][..n] == entries[..n];
      WriteFails(t, gift, entries[..|entries| - 1], n);
    }
  }
}
