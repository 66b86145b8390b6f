/** Slugs of gifts: the search for a free one, and that they stay distinct through both gift services. */
module Slugs {
  import opened Results
  import Decimal
  import Sets

  /** The k-th slug tried: the base, then the base with a number. */
  function Candidate(base: string, k: nat): string {
    if k == 0 then base else base + "-" + Decimal.Print(k)
  }

  lemma CandidatesDiffer(base: string, j: nat, k: nat)
    requires j != k
    ensures Candidate(base, j) != Candidate(base, k)
  {
    if j != 0 && k != 0 && Candidate(base, j) == Candidate(base, k) {
      var skip := |base| + 1;
      assert Candidate(base, j)[skip..] == Decimal.Print(j);
      assert Candidate(base, k)[skip..] == Decimal.Print(k);
      Decimal.PrintInjective(j, k);
    }
  }

  function Tried(base: string, n: nat): set<string> {
    set k | 0 <= k < n :: Candidate(base, k)
  }

  lemma {:induction false} TriedCount(base: string, n: nat)
    ensures |Tried(base, n)| == n
  {
    if n == 0 {
      assert Tried(base, 0) == {};
    } else {
      hide Candidate;
      TriedCount(base, n - 1);
      TriedNext(base, n - 1);
      if Candidate(base, n - 1) in Tried(base, n - 1) {
        var k :| 0 <= k < n - 1 && Candidate(base, k) == Candidate(base, n - 1);
        CandidatesDiffer(base, k, n - 1);
      }
    }
  }

  lemma TriedNext(base: string, n: nat)
    ensures Tried(base, n + 1) == Tried(base, n) + {Candidate(base, n)}
  {
    hide Candidate;
  }

  /** Pigeonhole: no more candidates can be taken than there are slugs. */
  lemma AllTaken(base: string, taken: set<string>, n: nat)
    requires forall k :: 0 <= k < n ==> Candidate(base, k) in taken
    ensures n <= |taken|
  {
    TriedCount(base, n);
    Sets.SubsetBound(Tried(base, n), taken);
  }

  /** The first free candidate at or after a number, all before it being taken. */
  function FirstFree(base: string, taken: set<string>, from: nat): (k: nat)
    requires forall j :: 0 <= j < from ==> Candidate(base, j) in taken
    ensures Candidate(base, k) !in taken && forall j :: 0 <= j < k ==> Candidate(base, j) in taken
    ensures k <= |taken|
    decreases |taken| + 1 - from
  {
    AllTaken(base, taken, from);
    if Candidate(base, from) in taken then FirstFree(base, taken, from + 1) else from
  }

  lemma FirstFreeUnique(base: string, taken: set<string>, j: nat, k: nat)
    requires Candidate(base, j) !in taken && forall i :: 0 <= i < j ==> Candidate(base, i) in taken
    requires Candidate(base, k) !in taken && forall i :: 0 <= i < k ==> Candidate(base, i) in taken
    ensures j == k
  {
  }

  // ----- the gifts

  /** Slugs by gift id. */
  type Gifts = map<nat, string>

  /** The slugs in use, leaving out the gift being renamed. */
  function Taken(gifts: Gifts, except: Option<nat>): set<string> {
    set id | id in gifts && Some(id) != except :: gifts[id]
  }

  function SlugFor(gifts: Gifts, base: string, except: Option<nat>): (slug: string)
    ensures slug !in Taken(gifts, except)
  {
    Candidate(base, FirstFree(base, Taken(gifts, except), 0))
  }

  /** Creates, renames and deletes of gifts. Both gift services do each of them alike, on the same rows. */
  datatype Change =
    | Create(id: nat, base: string)
    | Rename(id: nat, base: string)
    | Delete(id: nat)

  function Apply(gifts: Gifts, c: Change): Gifts {
    match c
    case Create(id, base) => if id in gifts then gifts else gifts[id := SlugFor(gifts, base, None)]
    case Rename(id, base) => if id in gifts then gifts[id := SlugFor(gifts, base, Some(id))] else gifts
    case Delete(id) => gifts - {id}
  }

  /** Creating and renaming give the gift the first candidate that no other gift has, deleting takes the gift away;
      nothing else changes. A gift that is there is not created again, one that is not is not renamed. */
  lemma Applies(gifts: Gifts, id: nat, base: string)
    ensures Apply(gifts, Delete(id)) == map other | other in gifts && other != id :: gifts[other]
    ensures if id in gifts then
              && Apply(gifts, Create(id, base)) == gifts
              && exists k: nat :: First(gifts, id, base, k) && Apply(gifts, Rename(id, base)) ==
                                                               gifts[id := Candidate(base, k)]
            else
              && Apply(gifts, Rename(id, base)) == gifts
              && exists k: nat :: First(gifts, id, base, k) && Apply(gifts, Create(id, base)) ==
                                                               gifts[id := Candidate(base, k)]
  {
    hide Candidate;
    if id in gifts {
      var k := FirstFree(base, Taken(gifts, Some(id)), 0);
      assert First(gifts, id, base, k);
    } else {
      var k := FirstFree(base, Taken(gifts, None), 0);
      assert First(gifts, id, base, k);
    }
  }

  /** No other gift has the k-th candidate, and others have all before it. */
  ghost predicate First(gifts: Gifts, id: nat, base: string, k: nat) {
    && (forall other :: other in gifts && other != id ==> gifts[other] != Candidate(base, k))
    && (forall j :: 0 <= j < k ==> exists other :: other in gifts && other != id && gifts[other] == Candidate(base, j))
  }

  function ApplyAll(gifts: Gifts, changes: seq<Change>): Gifts
    decreases |changes|
  {
    if changes == [] then gifts else ApplyAll(Apply(gifts, changes[0]), changes[1..])
  }

  ghost predicate Distinct(gifts: Gifts) {
    forall a, b :: a in gifts && b in gifts && a != b ==> gifts[a] != gifts[b]
  }

  lemma ChangeKeepsDistinct(gifts: Gifts, c: Change)
    requires Distinct(gifts)
    ensures Distinct(Apply(gifts, c))
  {
  }

  /** Any run of changes through both services keeps the slugs of the gifts distinct. */
  lemma {:induction false} ChangesKeepDistinct(gifts: Gifts, changes: seq<Change>)
    requires Distinct(gifts)
    ensures Distinct(ApplyAll(gifts, changes))
    decreases |changes|
  {
    hide Apply, Distinct;
    if changes != [] {
      ChangeKeepsDistinct(gifts, changes[0]);
      ChangesKeepDistinct(Apply(gifts, changes[0]), changes[1..]);
    }
  }

  /** Renaming a gift leaves every slug as it was if and only if the gift's slug is the first candidate of the
      new name that no other gift has. */
  lemma RenameKeeps(gifts: Gifts, id: nat, base: string)
    requires id in gifts
    ensures Apply(gifts, Rename(id, base)) == gifts <==>
            exists k: nat :: gifts[id] == Candidate(base, k) && gifts[id] !in Taken(gifts, Some(id))
              && forall j :: 0 <= j < k ==> Candidate(base, j) in Taken(gifts, Some(id))
  {
    hide Candidate;
    var taken := Taken(gifts, Some(id));
    var first := FirstFree(base, taken, 0);
    assert SlugFor(gifts, base, Some(id)) == Candidate(base, first);
    if Apply(gifts, Rename(id, base)) == gifts {
      assert gifts[id] == Candidate(base, first);
    }
    forall k: nat | gifts[id] == Candidate(base, k) && gifts[id] !in taken
                    && forall j :: 0 <= j < k ==> Candidate(base, j) in taken
      ensures k == first
    {
      FirstFreeUnique(base, taken, k, first);
    }
  }

  /** So a gift renamed to the name it was created with keeps its slug when nothing else has changed. */
  lemma RenameAfterCreate(gifts: Gifts, id: nat, base: string)
    requires id !in gifts
    ensures var created := Apply(gifts, Create(id, base));
            Apply(created, Rename(id, base)) == created
  {
  }

  /** But not once a gift that held an earlier candidate is gone: the second gift named "a" loses its number. */
  lemma RenameAfterDelete()
    ensures ApplyAll(map[], [Create(1, "a"), Create(2, "a")]) == map[1 := "a", 2 := "a-1"]
    ensures ApplyAll(map[1 := "a", 2 := "a-1"], [Delete(1), Rename(2, "a")]) == map[2 := "a"]
  {
    assert Decimal.Print(1) == "1";
    assert Candidate("a", 0) == "a" && Candidate("a", 1) == "a-1";
    var one: Gifts := map[1 := "a"];
    assert 1 in one && one[1] == "a" && Some(1) != None;
    assert Taken(map[], None) == {} && Taken(one, None) == {"a"};
    var left: Gifts := map[2 := "a-1"];
    forall id | id in left
      ensures Some(id) == Some(2)
    {
    }
    assert Taken(left, Some(2)) == {};
    FirstFreeUnique("a", {}, 0, FirstFree("a", {}, 0));
    FirstFreeUnique("a", {"a"}, 1, FirstFree("a", {"a"}, 0));
    hide Candidate, FirstFree;
    assert Apply(map[], Create(1, "a")) == one;
    assert Apply(one, Create(2, "a")) == map[1 := "a", 2 := "a-1"];
    assert Apply(map[1 := "a", 2 := "a-1"], Delete(1)) == left;
    assert Apply(left, Rename(2, "a")) == map[2 := "a"];
  }

  class Store {
    var gifts: Gifts

    constructor ()
      ensures gifts == map[]
    {
      gifts := map[];
    }

    /** Ends after at most one probe more than there are slugs, with the first free candidate. */
    method UniqueSlug(base: string, exceptId: Option<nat>) returns (slug: string, probes: nat)
      ensures slug == SlugFor(gifts, base, exceptId)
      ensures slug !in Taken(gifts, exceptId)
      ensures 1 <= probes <= |Taken(gifts, exceptId)| + 1
      ensures slug == Candidate(base, probes - 1)
      ensures forall k :: 0 <= k < probes - 1 ==> Candidate(base, k) in Taken(gifts, exceptId)
    {
      hide Candidate;
      slug := base;
      probes := 1;
      var i := 1;
      ghost var taken := Taken(gifts, exceptId);
      BaseFirst(base);
      while slug in Taken(gifts, exceptId)
        invariant 1 <= i == probes && slug == Candidate(base, i - 1)
        invariant forall k :: 0 <= k < i - 1 ==> Candidate(base, k) in taken
        decreases |taken| + 1 - i
      {
        AllTaken(base, taken, i);
        Numbered(base, i);
        slug := base + "-" + Decimal.Print(i);
        i := i + 1;
        probes := probes + 1;
      }
      AllTaken(base, taken, i - 1);
      FirstFreeUnique(base, taken, i - 1, FirstFree(base, taken, 0));
    }

    method CreateGift(id: nat, base: string)
      requires id !in gifts
      modifies this
      ensures gifts == Apply(old(gifts), Create(id, base))
    {
      var slug, _ := UniqueSlug(base, None);
      gifts := gifts[id := slug];
    }

    method RenameGift(id: nat, base: string)
      modifies this
      ensures gifts == Apply(old(gifts), Rename(id, base))
    {
      if id in gifts {
        var slug, _ := UniqueSlug(base, Some(id));
        gifts := gifts[id := slug];
      }
    }

    method DeleteGift(id: nat)
      modifies this
      ensures gifts == Apply(old(gifts), Delete(id))
    {
      gifts := gifts - {id};
    }
  }

  lemma BaseFirst(base: string)
    ensures Candidate(base, 0) == base
  {
  }

  lemma Numbered(base: string, k: nat)
    requires k > 0
    ensures Candidate(base, k) == base + "-" + Decimal.Print(k)
  {
  }
}
