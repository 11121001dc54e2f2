/** The trade centre: the list of cards with spare copies, the selection of
    three of them, and the burn trade that swaps them for a missing card. */
module TradeCenter {
  import opened Types
  import opened Builtins
  import opened App

  /** How many spare copies a burn trade takes. */
  const BURN_SIZE: nat := 3

  /** `duplicateCards`: the roster cards with a positive spare count, in roster order. */
  function DuplicateCards(roster: seq<Card>, duplicates: map<int, int>): (r: seq<Card>)
    ensures forall c :: c in r <==> c in roster && GetOr(duplicates, c.id, 0) > 0
    ensures IsSubseq(r, roster)
  {
    FilterIsSubseq(roster, HasSpare(duplicates));
    Filter(roster, HasSpare(duplicates))
  }

  function HasSpare(duplicates: map<int, int>): Card -> bool
  {
    (c: Card) => GetOr(duplicates, c.id, 0) > 0
  }

  /** `missingCards`: the roster cards whose id is not owned, in roster order. */
  function MissingCards(roster: seq<Card>, collection: seq<int>): (r: seq<Card>)
    ensures forall c :: c in r <==> c in roster && c.id !in collection
    ensures IsSubseq(r, roster)
  {
    FilterIsSubseq(roster, NotOwned(collection));
    Filter(roster, NotOwned(collection))
  }

  function NotOwned(collection: seq<int>): Card -> bool
  {
    (c: Card) => c.id !in collection
  }

  /** The `setSelectedDupes` update of `handleSelectDupe`: a selected id is
      removed; an unselected one is appended only while fewer than three are
      selected. */
  function ToggleSelection(selected: seq<int>, id: int): (r: seq<int>)
    ensures id in selected ==> id !in r && forall x :: x in r <==> x in selected && x != id
    ensures id !in selected && |selected| < BURN_SIZE ==> r == selected + [id]
    ensures id !in selected && |selected| >= BURN_SIZE ==> r == selected
  {
    if id in selected then Filter(selected, Other(id))
    else if |selected| < BURN_SIZE then selected + [id]
    else selected
  }

  function Other(id: int): int -> bool
  {
    d => d != id
  }

  /** The selection never exceeds three ids and never holds an id twice. */
  predicate SelectionOk(selected: seq<int>)
  {
    |selected| <= BURN_SIZE && NoDup(selected)
  }

  lemma ToggleKeepsSelectionOk(selected: seq<int>, id: int)
    requires SelectionOk(selected)
    ensures SelectionOk(ToggleSelection(selected, id))
  {
    if id in selected {
      FilterNoDup(selected, Other(id));
    } else if |selected| < BURN_SIZE {
      NoDupSnoc(selected, id);
    }
  }

  /** Selecting an id and selecting it again restores the selection, when there
      was room for it. */
  lemma ToggleTwice(selected: seq<int>, id: int)
    requires id !in selected && |selected| < BURN_SIZE
    ensures ToggleSelection(ToggleSelection(selected, id), id) == selected
  {
    FilterAppend(selected, [id], Other(id));
    FilterKeepsAll(selected, Other(id));
    FilterSingleton(id, Other(id));
  }

  /** What `handleBurnTrade` decides. */
  datatype BurnOutcome =
    | AllOwned                             // every roster card is owned: alert, no trade
    | NotThree                             // the selection does not hold exactly three ids
    | Traded(lost: seq<int>, gained: Card) // `onTrade(selected, randomNew.id)`

  /** `handleBurnTrade` with `pick` the random index into the missing cards. The
      all-owned check comes before the selection-size check. */
  function BurnDecision(roster: seq<Card>, collection: seq<int>, selected: seq<int>, pick: nat): (r: BurnOutcome)
    requires |MissingCards(roster, collection)| == 0 || pick < |MissingCards(roster, collection)|
    ensures r == AllOwned <==> forall c :: c in roster ==> c.id in collection
    ensures r == NotThree <==> (exists c :: c in roster && c.id !in collection) && |selected| != BURN_SIZE
    ensures r.Traded? ==>
      r.lost == selected && |r.lost| == BURN_SIZE && r.gained in roster && r.gained.id !in collection
  {
    var missing := MissingCards(roster, collection);
    if |missing| == 0 then
      AllOwned
    else
      assert missing[0] in roster && missing[0].id !in collection by {
        assert missing[0] in missing;
      }
      if |selected| != BURN_SIZE then NotThree
      else
        assert missing[pick] in missing;
        Traded(selected, missing[pick])
  }

  /** The trade centre's local state over the props it is rendered with. */
  class TradeCenterView {
    const roster: seq<Card>
    const collection: seq<int>
    const duplicates: map<int, int>
    var selectedDupes: seq<int>

    ghost predicate Valid()
      reads this
    {
      SelectionOk(selectedDupes)
    }

    constructor(roster: seq<Card>, collection: seq<int>, duplicates: map<int, int>)
      ensures Valid()
      ensures this.roster == roster && this.collection == collection && this.duplicates == duplicates
      ensures selectedDupes == []
    {
      this.roster := roster;
      this.collection := collection;
      this.duplicates := duplicates;
      selectedDupes := [];
    }

    /** `handleSelectDupe`. */
    method HandleSelectDupe(id: int)
      requires Valid()
      modifies this
      ensures Valid()
      ensures selectedDupes == ToggleSelection(old(selectedDupes), id)
    {
      ToggleKeepsSelectionOk(selectedDupes, id);
      if id in selectedDupes {
        selectedDupes := Filter(selectedDupes, Other(id));
      } else {
        if |selectedDupes| < BURN_SIZE {
          selectedDupes := selectedDupes + [id];
        }
      }
    }

    /** `handleBurnTrade`: returns the `onTrade` call it makes, if any; after a
        trade the selection is empty, otherwise it is unchanged. */
    method HandleBurnTrade(pick: nat) returns (trade: Option<(seq<int>, int)>)
      requires Valid()
      requires |MissingCards(roster, collection)| == 0 || pick < |MissingCards(roster, collection)|
      modifies this
      ensures Valid()
      ensures var d := BurnDecision(roster, collection, old(selectedDupes), pick);
        (d.Traded? ==> trade == Some((d.lost, d.gained.id)) && selectedDupes == []) &&
        (!d.Traded? ==> trade == None && selectedDupes == old(selectedDupes))
    {
      trade := None;
      var missingCards := MissingCards(roster, collection);
      if |missingCards| == 0 {
        return;
      }
      if |selectedDupes| != BURN_SIZE {
        return;
      }
      var randomNew := missingCards[pick];
      trade := Some((selectedDupes, randomNew.id));
      selectedDupes := [];
    }
  }

  /** A burn trade of three distinct ids that all have spare copies, applied to a
      consistent state, adds the granted card to the collection and leaves two
      copies fewer in total. */
  lemma BurnTradeNetEffect(user: UserState, roster: seq<Card>, selected: seq<int>, pick: nat)
    requires Consistent(user)
    requires NoDup(selected) && forall k :: k in selected ==> GetOr(user.duplicates, k, 0) > 0
    requires |MissingCards(roster, user.collection)| == 0 || pick < |MissingCards(roster, user.collection)|
    requires BurnDecision(roster, user.collection, selected, pick).Traded?
    ensures var d := BurnDecision(roster, user.collection, selected, pick);
      var next := AfterTrade(user, d.lost, d.gained.id);
      Consistent(next) &&
      next.collection == user.collection + [d.gained.id] &&
      TotalCopies(Holdings(next.collection, next.duplicates)) ==
        TotalCopies(Holdings(user.collection, user.duplicates)) - 2
  {
    var d := BurnDecision(roster, user.collection, selected, pick);
    NoDupCounts(selected);
    forall k ensures multiset(selected)[k] <= GetOr(user.duplicates, k, 0) {
      if k !in selected {
        assert multiset(selected)[k] == 0;
      }
    }
    TradeConservation(user, d.lost, d.gained.id);
    TradeKeepsInvariant(user, d.lost, d.gained.id);
  }
}
