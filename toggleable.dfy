/** The toggle engine shared by the medication, schedule, memory and photos pages.
    Each page keeps an ordered list of records; a record has a numeric `id`, its
    page-specific fields, and one boolean flag (`taken`, `completed`, `completed`,
    `isFavorite`). A toggle rebuilds the list with `map`, flipping the flag of every
    record whose id matches; the counters shown on the page are `filter(...).length`
    over the flag. */
module Toggleable {
  import opened ListOps

  /** One record: its id, the fields the page never changes, and the toggled flag. */
  datatype Item<D> = Item(id: int, fields: D, flag: bool)

  /** The callback given to `map`: `r.id === id ? { ...r, flag: !r.flag } : r`. */
  function Switched<D>(x: Item<D>, id: int): Item<D>
  {
    if x.id == id then x.(flag := !x.flag) else x
  }

  /** The list a toggle of `id` produces. */
  function Toggled<D>(s: seq<Item<D>>, id: int): (r: seq<Item<D>>)
    ensures |r| == |s|
  {
    Map(s, (x: Item<D>) => Switched(x, id))
  }

  predicate Flagged<D>(x: Item<D>)
  {
    x.flag
  }

  predicate Unflagged<D>(x: Item<D>)
  {
    !x.flag
  }

  /** `list.filter(r => r.flag).length`: the number of positions holding a flagged
      record, so never more than the length of the list. */
  function CountFlagged<D>(s: seq<Item<D>>): (n: nat)
    ensures n == |Positions(s, Flagged)|
    ensures n <= |s|
  {
    FilterLength(s, Flagged);
    |Filter(s, Flagged)|
  }

  /** Every record is flagged or unflagged, so the two counts add up to the length. */
  lemma FlaggedSplit<D>(s: seq<Item<D>>)
    ensures CountFlagged(s) + |Filter(s, Unflagged)| == |s|
  {
    FilterPartition(s, Flagged, Unflagged);
  }

  /** The flagged count reaches the length exactly when every record is flagged. */
  lemma AllFlaggedIffFull<D>(s: seq<Item<D>>)
    ensures CountFlagged(s) == |s| <==> forall i :: 0 <= i < |s| ==> s[i].flag
  {
    FlaggedSplit(s);
    if CountFlagged(s) == |s| {
      forall i | 0 <= i < |s| ensures s[i].flag {
        FilterMembership(s, Unflagged, s[i]);
      }
    } else {
      var u := Filter(s, Unflagged);
      assert u[0] in u;
      FilterMembership(s, Unflagged, u[0]);
    }
  }

  /** The position of `list.find(r => !r.flag)`. */
  function FirstUnflagged<D>(s: seq<Item<D>>): Option<nat>
  {
    FindIndex(s, Unflagged)
  }

  predicate HasId<D>(s: seq<Item<D>>, id: int)
  {
    exists i :: 0 <= i < |s| && s[i].id == id
  }

  /** No two records of the list share an id (true of every seed list in the app). */
  predicate UniqueIds<D>(s: seq<Item<D>>)
  {
    forall i, j :: 0 <= i < j < |s| ==> s[i].id != s[j].id
  }

  /** What a toggle does to the record at position i: a matching record has its flag
      flipped and keeps its id and fields; any other record is returned as it was. */
  lemma ToggledAt<D>(s: seq<Item<D>>, id: int, i: nat)
    requires i < |s|
    ensures Toggled(s, id)[i].id == s[i].id
    ensures Toggled(s, id)[i].fields == s[i].fields
    ensures Toggled(s, id)[i].flag == (if s[i].id == id then !s[i].flag else s[i].flag)
    ensures s[i].id != id ==> Toggled(s, id)[i] == s[i]
  {
  }

  /** Toggling the same id twice gives back the original list. */
  lemma ToggledTwice<D>(s: seq<Item<D>>, id: int)
    ensures Toggled(Toggled(s, id), id) == s
  {
    var once := Toggled(s, id);
    forall i | 0 <= i < |s| ensures Toggled(once, id)[i] == s[i] {
      ToggledAt(s, id, i);
      ToggledAt(once, id, i);
    }
  }

  /** Toggling an id no record has leaves the list as it was. */
  lemma ToggledAbsent<D>(s: seq<Item<D>>, id: int)
    requires !HasId(s, id)
    ensures Toggled(s, id) == s
  {
    forall i | 0 <= i < |s| ensures Toggled(s, id)[i] == s[i] {
      ToggledAt(s, id, i);
    }
  }

  /** A toggle keeps every id where it was, so uniqueness of ids is preserved. */
  lemma ToggledKeepsIds<D>(s: seq<Item<D>>, id: int)
    ensures Map(Toggled(s, id), (x: Item<D>) => x.id) == Map(s, (x: Item<D>) => x.id)
    ensures UniqueIds(s) ==> UniqueIds(Toggled(s, id))
  {
    forall i | 0 <= i < |s| ensures Toggled(s, id)[i].id == s[i].id {
      ToggledAt(s, id, i);
    }
  }

  /** With unique ids, toggling the record at position k adds k to the flagged positions
      or removes it, and touches no other position. */
  lemma FlaggedPositionsToggled<D>(s: seq<Item<D>>, k: nat)
    requires UniqueIds(s) && k < |s|
    ensures Positions(Toggled(s, s[k].id), Flagged) ==
              if s[k].flag then Positions(s, Flagged) - {k} else Positions(s, Flagged) + {k}
  {
    var t := Toggled(s, s[k].id);
    forall i: nat | i < |s|
      ensures Flagged(t[i]) == (if i == k then !s[k].flag else Flagged(s[i]))
    {
      ToggledAt(s, s[k].id, i);
    }
  }

  /** With unique ids, toggling the record at position k changes the flagged count by
      exactly one: up when the record was not flagged, down when it was. */
  lemma CountToggled<D>(s: seq<Item<D>>, k: nat)
    requires UniqueIds(s) && k < |s|
    ensures CountFlagged(Toggled(s, s[k].id)) ==
              if s[k].flag then CountFlagged(s) - 1 else CountFlagged(s) + 1
  {
    FlaggedPositionsToggled(s, k);
    assert k in Positions(s, Flagged) <==> s[k].flag;
    CardinalityMoves(Positions(s, Flagged), Positions(Toggled(s, s[k].id), Flagged), k);
  }

  /** Removing a member from a set lowers its size by one; adding a non-member raises it
      by one. */
  lemma CardinalityMoves(before: set<nat>, after: set<nat>, k: nat)
    requires after == if k in before then before - {k} else before + {k}
    ensures |after| == if k in before then |before| - 1 else |before| + 1
  {
    if k in before {
      assert before == after + {k};
    }
  }

  /** The schedule's "Done" step. With unique ids, toggling the first unflagged record
      makes the next first unflagged record the first one strictly after it, and there
      is none exactly when every record after it is flagged. */
  lemma DoneAdvances<D>(s: seq<Item<D>>, k: nat)
    requires UniqueIds(s) && FirstUnflagged(s) == Some(k)
    ensures k < |s|
    ensures FirstUnflagged(Toggled(s, s[k].id)).None? <==>
              forall j :: k < j < |s| ==> s[j].flag
    ensures FirstUnflagged(Toggled(s, s[k].id)).Some? ==>
              var j := FirstUnflagged(Toggled(s, s[k].id)).value;
              k < j && !s[j].flag && forall m :: k < m < j ==> s[m].flag
  {
    var t := Toggled(s, s[k].id);
    forall i | 0 <= i < |s| ensures t[i] == (if i == k then s[k].(flag := true) else s[i]) {
      ToggledAt(s, s[k].id, i);
    }
  }
}
