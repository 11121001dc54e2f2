/** One department's album page: its cards sorted by id, how many of them are
    owned, the progress percentage and, per card, the owned flag and the copy
    count shown on it. */
module Album {
  import opened Types
  import opened Builtins
  import opened Achievements
  import opened App

  /** Ascending by id. */
  predicate SortedById(s: seq<Card>)
  {
    forall i, j :: 0 <= i < j < |s| ==> s[i].id <= s[j].id
  }

  /** Places a card before the first card of a sorted list whose id is not
      smaller, so cards with equal ids keep their order. */
  function InsertById(c: Card, sorted: seq<Card>): (r: seq<Card>)
    ensures multiset(r) == multiset(sorted) + multiset{c}
    ensures forall x :: x in r ==> x == c || x in sorted
    ensures SortedById(sorted) ==> SortedById(r)
  {
    if sorted == [] || c.id <= sorted[0].id then [c] + sorted
    else
      var rest := InsertById(c, sorted[1..]);
      assert sorted == [sorted[0]] + sorted[1..];
      ConsSorted(sorted[0], rest, sorted[1..], c);
      [sorted[0]] + rest
  }

  /** Putting a card in front of a sorted list keeps it sorted when no later
      card has a smaller id. */
  lemma ConsSorted(head: Card, rest: seq<Card>, tail: seq<Card>, c: Card)
    requires SortedById(tail) ==> SortedById(rest)
    requires forall x :: x in rest ==> x == c || x in tail
    requires head.id < c.id
    ensures SortedById([head] + tail) ==> SortedById([head] + rest)
  {
    if !SortedById([head] + tail) {
      return;
    }
    assert forall x :: x in tail ==> head.id <= x.id by {
      forall x | x in tail ensures head.id <= x.id {
        var k :| 0 <= k < |tail| && tail[k] == x;
        assert ([head] + tail)[0] == head && ([head] + tail)[k + 1] == x;
      }
    }
    assert SortedById(tail) by {
      forall i, j | 0 <= i < j < |tail| ensures tail[i].id <= tail[j].id {
        assert ([head] + tail)[i + 1] == tail[i] && ([head] + tail)[j + 1] == tail[j];
      }
    }
    var r := [head] + rest;
    forall i, j | 0 <= i < j < |r| ensures r[i].id <= r[j].id {
      assert r[j] == rest[j - 1] && r[j] in rest;
      if i > 0 {
        assert r[i] == rest[i - 1];
      }
    }
  }

  /** `sort((a, b) => a.id - b.id)`, a stable sort by id. */
  function SortById(s: seq<Card>): (r: seq<Card>)
    ensures SortedById(r)
    ensures multiset(r) == multiset(s)
  {
    if s == [] then []
    else
      assert s == [s[0]] + s[1..];
      InsertById(s[0], SortById(s[1..]))
  }

  /** `deptCards`: the roster cards of the department, ascending by id. */
  function DeptCards(roster: seq<Card>, dept: Department): (r: seq<Card>)
    ensures forall c :: c in r <==> c in roster && c.department == dept
    ensures SortedById(r)
    ensures multiset(r) == multiset(CardsOf(dept, roster))
  {
    var r := SortById(CardsOf(dept, roster));
    assert forall c :: c in r <==> c in CardsOf(dept, roster) by {
      forall c ensures c in r <==> c in CardsOf(dept, roster) {
        assert c in r <==> c in multiset(r);
      }
    }
    r
  }

  function OwnedBy(ownedIds: seq<int>): Card -> bool
  {
    (c: Card) => c.id in ownedIds
  }

  /** `ownedCount`: the department cards whose id is owned. */
  function OwnedCount(deptCards: seq<Card>, ownedIds: seq<int>): (r: nat)
    ensures r <= |deptCards|
    ensures r == |deptCards| <==> forall c :: c in deptCards ==> c.id in ownedIds
    ensures r == 0 <==> forall c :: c in deptCards ==> c.id !in ownedIds
  {
    FilterCount(deptCards, OwnedBy(ownedIds));
    |Filter(deptCards, OwnedBy(ownedIds))|
  }

  /** A filter keeps every element exactly when it is as long as its input, and
      none exactly when it is empty. */
  lemma {:induction false} FilterCount<T(!new)>(s: seq<T>, p: T -> bool)
    ensures |Filter(s, p)| == |s| <==> forall x :: x in s ==> p(x)
    ensures |Filter(s, p)| == 0 <==> forall x :: x in s ==> !p(x)
  {
    if s != [] {
      FilterCount(s[1..], p);
      assert forall x :: x in s <==> x == s[0] || x in s[1..];
    }
  }

  /** `progress` of a non-empty department: the owned share as a rounded percentage. */
  function Progress(roster: seq<Card>, dept: Department, ownedIds: seq<int>): (r: int)
    requires exists c :: c in roster && c.department == dept
    ensures 0 <= r <= 100
    ensures var n := |DeptCards(roster, dept)|;
      var owned := OwnedCount(DeptCards(roster, dept), ownedIds);
      2 * n * r <= 200 * owned + n < 2 * n * r + 2 * n
    ensures r == 100 <== forall c :: c in roster && c.department == dept ==> c.id in ownedIds
  {
    var deptCards := DeptCards(roster, dept);
    var c :| c in roster && c.department == dept;
    assert c in deptCards;
    var owned := OwnedCount(deptCards, ownedIds);
    if owned == |deptCards| then RoundPercentWhole(owned); RoundPercent(owned, |deptCards|)
    else RoundPercent(owned, |deptCards|)
  }

  /** The count shown on a card: its spare count plus one when the spare count
      is non-zero, otherwise 1. */
  function DisplayCount(duplicates: map<int, int>, id: int): int
  {
    if id in duplicates && duplicates[id] != 0 then duplicates[id] + 1 else 1
  }

  /** On a consistent state the shown count of an owned card is its number of
      copies. */
  lemma DisplayCountIsCopies(h: Holdings, id: int)
    requires HoldingsConsistent(h) && id in h.collection
    ensures DisplayCount(h.duplicates, id) == Copies(h, id)
  {
  }

  /** One card slot of the page. */
  datatype Slot = Slot(card: Card, isOwned: bool, count: int)

  /** The card grid: one slot per card, in the given order, owned when its id
      is in `ownedIds`, with the count `DisplayCount` shows. */
  function Slots(cards: seq<Card>, ownedIds: seq<int>, duplicates: map<int, int>): (r: seq<Slot>)
    ensures |r| == |cards|
    ensures forall i :: 0 <= i < |r| ==>
      r[i].card == cards[i] &&
      (r[i].isOwned <==> r[i].card.id in ownedIds) &&
      r[i].count == DisplayCount(duplicates, r[i].card.id)
  {
    seq(|cards|, i requires 0 <= i < |cards| =>
      Slot(cards[i], cards[i].id in ownedIds, DisplayCount(duplicates, cards[i].id)))
  }

  /** The album page of a department: its cards ascending by id, each slot
      showing ownership and, on a consistent state, the number of copies held. */
  lemma AlbumSlots(roster: seq<Card>, dept: Department, h: Holdings)
    requires HoldingsConsistent(h)
    ensures var r := Slots(DeptCards(roster, dept), h.collection, h.duplicates);
      |r| == |DeptCards(roster, dept)| &&
      SortedById(DeptCards(roster, dept)) &&
      forall i :: 0 <= i < |r| ==>
        r[i].card in roster && r[i].card.department == dept &&
        (r[i].isOwned ==> r[i].count == Copies(h, r[i].card.id)) &&
        (!r[i].isOwned ==> r[i].count == 1)
  {
    var cards := DeptCards(roster, dept);
    var r := Slots(cards, h.collection, h.duplicates);
    forall i | 0 <= i < |r|
      ensures r[i].card in roster && r[i].card.department == dept
      ensures r[i].isOwned ==> r[i].count == Copies(h, r[i].card.id)
      ensures !r[i].isOwned ==> r[i].count == 1
    {
      assert r[i].card == cards[i] && cards[i] in cards;
      if r[i].isOwned {
        DisplayCountIsCopies(h, r[i].card.id);
      }
    }
  }
}
