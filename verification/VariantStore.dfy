/** The variant rows, updated in place entry by entry inside a transaction. */
module VariantStore {
  import opened Results
  import opened Variants

  class Store {
    var rows: map<nat, Row>
    var next: nat

    ghost function View(): Table
      reads this
    {
      Table(rows, next)
    }

    constructor ()
      ensures View() == Table(map[], 0)
    {
      rows, next := map[], 0;
    }

    method DeleteForGift(gift: nat, keep: seq<nat>)
      modifies this`rows
      ensures View() == DeleteVariantsForGift(old(View()), gift, keep)
    {
      rows := map id | id in rows && (rows[id].gift != gift || id in keep) :: rows[id];
    }

    method UpdateGiftVariant(id: nat, e: Entry)
      requires id in rows
      modifies this`rows
      ensures View() == UpdateVariant(old(View()), id, e)
    {
      rows := rows[id := Merge(rows[id], e)];
    }

    method CreateGiftVariant(gift: nat, e: Entry)
      requires e.name.Some? && e.price.Some?
      modifies this
      ensures CreateVariant(old(View()), gift, e) == Ok(View())
    {
      rows := rows[next := Row(gift, e.name.value, e.price.value)];
      next := next + 1;
    }

    /** Gift management: the transaction is rolled back when an entry throws. */
    method UpsertVariants(gift: nat, entries: seq<Entry>, replaceVariants: bool) returns (r: Result<()>)
      modifies this
      ensures match Variants.UpsertVariants(old(View()), gift, entries, replaceVariants)
              case Ok(t) => r.Ok? && View() == t
              case Failed(message) => r == Failed(message) && View() == old(View())
    {
      if !Normal(entries) {
        return Failed("New variants must include name and price");
      }
      var savedRows, savedNext := rows, next;
      var incomingIds := Ids(entries);
      if replaceVariants {
        DeleteForGift(gift, incomingIds);
      }
      ghost var base := View();
      for i := 0 to |entries|
        invariant savedRows == old(rows) && savedNext == old(next)
        invariant UpsertEach(base, gift, entries[..i]) == Ok(View())
      {
        var variant := entries[i];
        assert entries[..i + 1][..i] == entries[..i];
        var one := UpsertRow(gift, variant);
        if one.Failed? {
          rows, next := savedRows, savedNext;
          UpsertFails(base, gift, entries, i + 1);
          return one;
        }
      }
      assert entries[..|entries|] == entries;
      return Ok(());
    }

    method UpsertRow(gift: nat, variant: Entry) returns (r: Result<()>)
      modifies this
      ensures match UpsertOne(old(View()), gift, variant)
              case Ok(t) => r.Ok? && View() == t
              case Failed(message) => r == Failed(message) && View() == old(View())
    {
      if variant.id.Some? {
        if Owns(Table(rows, next), gift, variant.id.value) {
          UpdateGiftVariant(variant.id.value, variant);
          return Ok(());
        }
        if variant.id.value in rows {
          return Failed("Variant does not belong to gift");
        }
      }
      if variant.name.None? || variant.price.None? {
        return Failed("New variants must include name and price");
      }
      CreateGiftVariant(gift, variant);
      return Ok(());
    }

    /** Provider inventory: ownership first, then one transaction. */
    method UpdateItemWithVariants(gift: nat, entries: seq<Entry>, replaceVariants: bool) returns (r: Result<()>)
      requires Complete(entries)
      modifies this
      ensures match UpdateItemVariants(old(View()), gift, entries, replaceVariants)
              case Ok(t) => r.Ok? && View() == t
              case Failed(message) => r == Failed(message) && View() == old(View())
    {
      var ids := Ids(entries);
      var existing := set id | id in ids && id in rows && rows[id].gift == gift;
      assert existing == set id | id in ids && Owns(View(), gift, id);
      if |existing| != |ids| {
        return Failed("Variant does not belong to inventory item");
      }
      var savedRows, savedNext := rows, next;
      if replaceVariants {
        DeleteForGift(gift, ids);
      }
      ghost var base := View();
      for i := 0 to |entries|
        invariant savedRows == old(rows) && savedNext == old(next)
        invariant WriteEach(base, gift, entries[..i]) == Ok(View())
      {
        var variant := entries[i];
        assert entries[..i + 1][..i] == entries[..i];
        if variant.id.None? {
          CreateGiftVariant(gift, variant);
        } else if variant.id.value in rows {
          UpdateGiftVariant(variant.id.value, variant);
        } else {
          rows, next := savedRows, savedNext;
          WriteFails(base, gift, entries, i + 1);
          return Failed("Record to update not found");
        }
      }
      assert entries[..|entries|] == entries;
      return Ok(());
    }
  }
}
