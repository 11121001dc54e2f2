/** The pack-reveal overlay: a short state machine that shakes the pack,
    reveals the drawn cards one at a time and ends on a summary, flagging each
    card as new or repeated from its copy count. */
module PackOpening {
  import opened Types
  import opened Builtins
  import opened App

  datatype Phase = Idle | Shaking | Revealing | Summary

  /** Position of a phase along the only order the overlay goes through. */
  function PhaseRank(p: Phase): nat
  {
    match p
    case Idle => 0
    case Shaking => 1
    case Revealing => 2
    case Summary => 3
  }

  /** `getCardCount`: starts at zero, becomes one when the id is owned, and adds
      the spare count when it is non-zero. */
  method GetCardCount(userCollection: seq<int>, userDuplicates: map<int, int>, id: int) returns (count: int)
    ensures count == Copies(Holdings(userCollection, userDuplicates), id)
  {
    count := 0;
    if id in userCollection {
      count := 1;
    }
    if id in userDuplicates && userDuplicates[id] != 0 {
      count := count + userDuplicates[id];
    }
  }

  /** `isNew`: the card is shown as new exactly when its count is one. */
  predicate IsNew(userCollection: seq<int>, userDuplicates: map<int, int>, id: int)
  {
    Copies(Holdings(userCollection, userDuplicates), id) == 1
  }

  /** One tile of the summary: the card, its count and its new flag. */
  datatype Tile = Tile(card: Card, count: int, isNew: bool)

  /** The summary grid: every drawn card, in draw order, with its count and flag. */
  function SummaryTiles(newCards: seq<Card>, userCollection: seq<int>, userDuplicates: map<int, int>)
    : (r: seq<Tile>)
    ensures |r| == |newCards|
    ensures forall i :: 0 <= i < |r| ==>
      r[i].card == newCards[i] &&
      r[i].count == Copies(Holdings(userCollection, userDuplicates), newCards[i].id) &&
      (r[i].isNew <==> r[i].count == 1)
  {
    seq(|newCards|, i requires 0 <= i < |newCards| =>
      var count := Copies(Holdings(userCollection, userDuplicates), newCards[i].id);
      Tile(newCards[i], count, count == 1))
  }

  /** With the counts read after the pack is folded into a consistent state, a
      drawn card is flagged new exactly when it was not owned before and was
      drawn once in this pack. */
  lemma NewFlagMeaning(before: Holdings, pack: seq<Card>, c: Card)
    requires HoldingsConsistent(before) && c in pack
    ensures var after := FoldDraws(before, CardIds(pack));
      IsNew(after.collection, after.duplicates, c.id) <==>
        c.id !in before.collection && multiset(CardIds(pack))[c.id] == 1
  {
    var ids := CardIds(pack);
    var i :| 0 <= i < |pack| && pack[i] == c;
    assert ids[i] == c.id;
    assert c.id in multiset(ids);
    FoldDrawsCopies(before, ids, c.id);
    if c.id !in before.collection {
      assert c.id !in before.duplicates;
    }
  }

  /** The overlay's local state over the cards of one pack. */
  class PackOpeningView {
    const newCards: seq<Card>
    const userCollection: seq<int>
    const userDuplicates: map<int, int>
    var phase: Phase
    var currentCardIndex: int

    /** The index never leaves the drawn cards (it stays 0 for an empty pack). */
    ghost predicate Valid()
      reads this
    {
      0 <= currentCardIndex && (currentCardIndex < |newCards| || currentCardIndex == 0)
    }

    constructor(newCards: seq<Card>, userCollection: seq<int>, userDuplicates: map<int, int>)
      ensures Valid()
      ensures this.newCards == newCards && this.userCollection == userCollection &&
        this.userDuplicates == userDuplicates
      ensures phase == Idle && currentCardIndex == 0
    {
      this.newCards := newCards;
      this.userCollection := userCollection;
      this.userDuplicates := userDuplicates;
      phase := Idle;
      currentCardIndex := 0;
    }

    /** The mount timer: the pack starts shaking. */
    method MountTimerFires()
      requires Valid() && phase == Idle
      modifies this
      ensures Valid()
      ensures phase == Shaking && currentCardIndex == old(currentCardIndex)
      ensures PhaseRank(phase) == PhaseRank(old(phase)) + 1
    {
      phase := Shaking;
    }

    /** The shake timer: the reveal starts. */
    method ShakeTimerFires()
      requires Valid() && phase == Shaking
      modifies this
      ensures Valid()
      ensures phase == Revealing && currentCardIndex == old(currentCardIndex)
      ensures PhaseRank(phase) == PhaseRank(old(phase)) + 1
    {
      phase := Revealing;
    }

    /** `handleNextCard`, reachable from the reveal view: the next card while
        there is one, otherwise the summary. */
    method HandleNextCard()
      requires Valid() && phase == Revealing
      modifies this
      ensures Valid()
      ensures old(currentCardIndex) < |newCards| - 1 ==>
        phase == Revealing && currentCardIndex == old(currentCardIndex) + 1
      ensures old(currentCardIndex) >= |newCards| - 1 ==>
        phase == Summary && currentCardIndex == old(currentCardIndex)
      ensures PhaseRank(phase) >= PhaseRank(old(phase))
    {
      if currentCardIndex < |newCards| - 1 {
        currentCardIndex := currentCardIndex + 1;
      } else {
        phase := Summary;
      }
    }

    /** The reveal view: the current card with its count and new flag. */
    method RevealedCard() returns (tile: Tile)
      requires Valid() && phase == Revealing && |newCards| > 0
      ensures tile.card == newCards[currentCardIndex]
      ensures tile.count == Copies(Holdings(userCollection, userDuplicates), tile.card.id)
      ensures tile.isNew <==> IsNew(userCollection, userDuplicates, tile.card.id)
    {
      var card := newCards[currentCardIndex];
      var count := GetCardCount(userCollection, userDuplicates, card.id);
      tile := Tile(card, count, count == 1);
    }
  }
}
