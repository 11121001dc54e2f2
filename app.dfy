/** The collection state engine of the album: opening packs, burn trades,
    granting achievements, registration, the daily-pack gate and the overall
    completion percentage. Every handler of the application shell is a state
    updater `prev => next`; here each one is a method from the previous user
    state to the next, proved against a function that specifies it. */
module App {
  import opened Types
  import opened Builtins
  import opened Achievements

  /** Cards per pack. */
  const PACK_SIZE: nat := 5

  /** One day in milliseconds, the cooldown of the daily pack when it is enforced. */
  const COOLDOWN_MS: int := 1000 * 60 * 60 * 24

  /** The daily-pack gate. The shipped build always allows the daily pack; the
      cooldown variant is the rule the build has switched off. */
  datatype DailyPolicy = AlwaysAvailable | Cooldown(ms: int)

  const BUILD_POLICY: DailyPolicy := AlwaysAvailable

  /** `canOpenDailyPack`. Under a cooldown, a user who never opened a pack (or
      whose timestamp is the falsy 0) may open one; otherwise strictly more than
      the cooldown must have passed since the last daily pack. */
  function CanOpenDailyPack(policy: DailyPolicy, user: UserState, now: int): bool
  {
    match policy
    case AlwaysAvailable => true
    case Cooldown(ms) =>
      match user.lastPackOpened
      case None => true
      case Some(t) => t == 0 || now - t > ms
  }

  /** The state of a visitor with nothing saved yet. */
  function InitialUser(): (u: UserState)
    ensures Consistent(u) && TotalCopies(Holdings(u.collection, u.duplicates)) == 0
  {
    UserState("", "", false, [], map[], None, [], 0)
  }

  // ---------------------------------------------------------------------------
  // Holdings: owned ids and extra copies

  /** The part of the user state a pack or a trade changes. */
  datatype Holdings = Holdings(collection: seq<int>, duplicates: map<int, int>)

  /** Every id with extra copies is owned, with at least one extra copy. */
  predicate DuplicatesConsistent(collection: seq<int>, duplicates: map<int, int>)
  {
    forall k :: k in duplicates ==> k in collection && duplicates[k] >= 1
  }

  /** The invariant of the stored state: no id owned twice, and consistent duplicates. */
  predicate Consistent(u: UserState)
  {
    NoDup(u.collection) && DuplicatesConsistent(u.collection, u.duplicates)
  }

  predicate HoldingsConsistent(h: Holdings)
  {
    NoDup(h.collection) && DuplicatesConsistent(h.collection, h.duplicates)
  }

  /** The copies of a card the user holds: one if it is owned, plus its extra copies. */
  function Copies(h: Holdings, id: int): int
  {
    (if id in h.collection then 1 else 0) + GetOr(h.duplicates, id, 0)
  }

  /** The extra copies of the owned ids, summed in collection order. */
  function DupTotal(collection: seq<int>, duplicates: map<int, int>): int
  {
    if collection == [] then 0
    else
      var last := collection[|collection| - 1];
      DupTotal(collection[..|collection| - 1], duplicates) + GetOr(duplicates, last, 0)
  }

  /** All copies held: one per owned id plus every extra copy. */
  function TotalCopies(h: Holdings): int
  {
    |h.collection| + DupTotal(h.collection, h.duplicates)
  }

  /** Receiving one copy of `id`: an unowned id is appended to the collection,
      an owned one gets one more extra copy (an entry is created at 1). */
  function AddCopy(h: Holdings, id: int): (r: Holdings)
    ensures Copies(r, id) == Copies(h, id) + 1
    ensures forall k :: k != id ==> Copies(r, k) == Copies(h, k)
    ensures id in r.collection && h.collection <= r.collection
    ensures forall k :: k in r.collection ==> k in h.collection || k == id
    ensures HoldingsConsistent(h) ==> HoldingsConsistent(r)
  {
    if id in h.collection then
      Holdings(h.collection, h.duplicates[id := GetOr(h.duplicates, id, 0) + 1])
    else
      assert NoDup(h.collection) ==> NoDup(h.collection + [id]) by {
        if NoDup(h.collection) { NoDupSnoc(h.collection, id); }
      }
      Holdings(h.collection + [id], h.duplicates)
  }

  /** Changing the extra copies of one id changes the total by the difference,
      provided that id is owned once. */
  lemma {:induction false} DupTotalFrame(collection: seq<int>, d: map<int, int>, d': map<int, int>, id: int)
    requires NoDup(collection)
    requires forall k :: k != id ==> GetOr(d', k, 0) == GetOr(d, k, 0)
    ensures DupTotal(collection, d') ==
      DupTotal(collection, d) + (if id in collection then GetOr(d', id, 0) - GetOr(d, id, 0) else 0)
  {
    if collection != [] {
      var init := collection[..|collection| - 1];
      var last := collection[|collection| - 1];
      NoDupInit(collection);
      DupTotalFrame(init, d, d', id);
      assert collection == init + [last];
    }
  }

  /** On a consistent state, receiving a copy adds exactly one to the total. */
  lemma AddCopyTotal(h: Holdings, id: int)
    requires HoldingsConsistent(h)
    ensures TotalCopies(AddCopy(h, id)) == TotalCopies(h) + 1
  {
    var r := AddCopy(h, id);
    if id in h.collection {
      DupTotalFrame(h.collection, h.duplicates, r.duplicates, id);
    } else {
      var c := h.collection + [id];
      assert c[..|c| - 1] == h.collection;
      assert id !in h.duplicates;
    }
  }

  // ---------------------------------------------------------------------------
  // Opening a pack

  function CardId(c: Card): int { c.id }

  /** The ids of a list of cards, in order. */
  function CardIds(cards: seq<Card>): seq<int>
  {
    Map(cards, CardId)
  }

  /** The `pack.forEach` fold: the drawn ids received one after the other. */
  function FoldDraws(h: Holdings, ids: seq<int>): Holdings
  {
    if ids == [] then h else AddCopy(FoldDraws(h, ids[..|ids| - 1]), ids[|ids| - 1])
  }

  /** Each id's copies grow by the number of times it was drawn. */
  lemma {:induction false} FoldDrawsCopies(h: Holdings, ids: seq<int>, k: int)
    ensures Copies(FoldDraws(h, ids), k) == Copies(h, k) + multiset(ids)[k]
  {
    if ids != [] {
      var init := ids[..|ids| - 1];
      FoldDrawsCopies(h, init, k);
      assert ids == init + [ids[|ids| - 1]];
    }
  }

  /** The fold keeps the collection as a prefix, owns every drawn id, adds no
      other id and keeps the state consistent. */
  lemma {:induction false} FoldDrawsShape(h: Holdings, ids: seq<int>)
    ensures h.collection <= FoldDraws(h, ids).collection
    ensures forall k :: k in ids ==> k in FoldDraws(h, ids).collection
    ensures forall k :: k in FoldDraws(h, ids).collection ==> k in h.collection || k in ids
    ensures HoldingsConsistent(h) ==> HoldingsConsistent(FoldDraws(h, ids))
  {
    if ids != [] {
      var init := ids[..|ids| - 1];
      FoldDrawsShape(h, init);
      assert ids == init + [ids[|ids| - 1]];
    }
  }

  /** On a consistent state the fold adds exactly one copy per drawn card. */
  lemma {:induction false} FoldDrawsTotal(h: Holdings, ids: seq<int>)
    requires HoldingsConsistent(h)
    ensures TotalCopies(FoldDraws(h, ids)) == TotalCopies(h) + |ids|
  {
    if ids != [] {
      var init := ids[..|ids| - 1];
      FoldDrawsTotal(h, init);
      FoldDrawsShape(h, init);
      AddCopyTotal(FoldDraws(h, init), ids[|ids| - 1]);
    }
  }

  /** A card the user did not own that is drawn n >= 1 times ends owned with
      n - 1 extra copies (drawn twice: owned with one duplicate). */
  lemma DrawnWhileUnowned(h: Holdings, ids: seq<int>, k: int)
    requires HoldingsConsistent(h) && k !in h.collection && multiset(ids)[k] >= 1
    ensures k in FoldDraws(h, ids).collection
    ensures GetOr(FoldDraws(h, ids).duplicates, k, 0) == multiset(ids)[k] - 1
  {
    FoldDrawsShape(h, ids);
    FoldDrawsCopies(h, ids, k);
    assert k !in h.duplicates;
  }

  /** The `for` loop that draws a pack: draw i is the roster card at the i-th
      random index. */
  predicate ValidPicks(picks: seq<int>, rosterSize: int)
  {
    |picks| == PACK_SIZE && forall i :: 0 <= i < |picks| ==> 0 <= picks[i] < rosterSize
  }

  method DrawPack(roster: seq<Card>, picks: seq<int>) returns (pack: seq<Card>)
    requires ValidPicks(picks, |roster|)
    ensures |pack| == PACK_SIZE
    ensures forall i :: 0 <= i < PACK_SIZE ==> pack[i] == roster[picks[i]]
    ensures forall c :: c in pack ==> c in roster
  {
    pack := [];
    var i := 0;
    while i < PACK_SIZE
      invariant 0 <= i <= PACK_SIZE
      invariant |pack| == i
      invariant forall j :: 0 <= j < i ==> pack[j] == roster[picks[j]]
    {
      pack := pack + [roster[picks[i]]];
      i := i + 1;
    }
  }

  /** The `pack.forEach` over copies of the collection and duplicates. */
  method FoldPack(h: Holdings, pack: seq<Card>) returns (r: Holdings)
    ensures r == FoldDraws(h, CardIds(pack))
  {
    var ids := CardIds(pack);
    var newCollection := h.collection;
    var newDuplicates := h.duplicates;
    var i := 0;
    while i < |pack|
      invariant 0 <= i <= |pack|
      invariant Holdings(newCollection, newDuplicates) == FoldDraws(h, ids[..i])
    {
      var id := pack[i].id;
      if id in newCollection {
        newDuplicates := newDuplicates[id := GetOr(newDuplicates, id, 0) + 1];
      } else {
        newCollection := newCollection + [id];
      }
      assert ids[..i + 1][..i] == ids[..i];
      i := i + 1;
    }
    assert ids[..i] == ids;
    r := Holdings(newCollection, newDuplicates);
  }

  /** The state after a pack is folded in: the daily pack stamps `now`, an
      inventory pack (used only when the daily one is not available) costs one. */
  function AfterPack(user: UserState, pack: seq<Card>, isDaily: bool, now: int): UserState
  {
    var h := FoldDraws(Holdings(user.collection, user.duplicates), CardIds(pack));
    user.(collection := h.collection, duplicates := h.duplicates,
          lastPackOpened := if isDaily then Some(now) else user.lastPackOpened,
          packsAvailable := if !isDaily && user.packsAvailable > 0 then user.packsAvailable - 1
                            else user.packsAvailable)
  }

  datatype PackResult = NotOpened | Opened(cards: seq<Card>)

  /** `openPack`: nothing happens with an empty roster or when neither the daily
      pack nor an inventory pack is available; otherwise five cards are drawn
      and folded into the collection. */
  method OpenPack(user: UserState, roster: seq<Card>, policy: DailyPolicy, picks: seq<int>, now: int)
    returns (next: UserState, result: PackResult)
    requires |roster| > 0 ==> ValidPicks(picks, |roster|)
    ensures |roster| == 0 || (!CanOpenDailyPack(policy, user, now) && user.packsAvailable <= 0)
      ==> next == user && result == NotOpened
    ensures |roster| > 0 && (CanOpenDailyPack(policy, user, now) || user.packsAvailable > 0) ==>
      result.Opened? && |result.cards| == PACK_SIZE &&
      (forall i :: 0 <= i < PACK_SIZE ==> result.cards[i] == roster[picks[i]]) &&
      next == AfterPack(user, result.cards, CanOpenDailyPack(policy, user, now), now)
  {
    next, result := user, NotOpened;
    if |roster| == 0 {
      return;
    }
    var isDaily := CanOpenDailyPack(policy, user, now);
    var isInventory := user.packsAvailable > 0;
    if !isDaily && !isInventory {
      return;
    }
    var pack := DrawPack(roster, picks);
    result := Opened(pack);
    var h := FoldPack(Holdings(user.collection, user.duplicates), pack);
    next := user.(collection := h.collection, duplicates := h.duplicates,
                  lastPackOpened := if isDaily then Some(now) else user.lastPackOpened,
                  packsAvailable := if !isDaily && isInventory then user.packsAvailable - 1
                                    else user.packsAvailable);
  }

  /** A pack keeps the stored state consistent, adds one copy per drawn card,
      keeps every owned id owned and adds only drawn ids. */
  lemma PackKeepsInvariant(user: UserState, pack: seq<Card>, isDaily: bool, now: int)
    requires Consistent(user)
    ensures Consistent(AfterPack(user, pack, isDaily, now))
    ensures var next := AfterPack(user, pack, isDaily, now);
      TotalCopies(Holdings(next.collection, next.duplicates)) ==
        TotalCopies(Holdings(user.collection, user.duplicates)) + |pack|
    ensures var next := AfterPack(user, pack, isDaily, now);
      user.collection <= next.collection &&
      forall k :: k in next.collection ==> k in user.collection || k in CardIds(pack)
  {
    var h := Holdings(user.collection, user.duplicates);
    FoldDrawsShape(h, CardIds(pack));
    FoldDrawsTotal(h, CardIds(pack));
  }

  /** Charging: the daily pack stamps the time and leaves the inventory alone; an
      inventory pack leaves the stamp alone and costs exactly one pack. */
  lemma PackCharging(user: UserState, pack: seq<Card>, isDaily: bool, now: int)
    requires isDaily || user.packsAvailable > 0
    ensures var next := AfterPack(user, pack, isDaily, now);
      (isDaily ==> next.lastPackOpened == Some(now) && next.packsAvailable == user.packsAvailable) &&
      (!isDaily ==> next.lastPackOpened == user.lastPackOpened &&
                    next.packsAvailable == user.packsAvailable - 1 &&
                    next.packsAvailable >= 0)
  {
  }

  /** With the shipped gate every pack is a daily pack, so the inventory never drops. */
  lemma BuildNeverCharges(user: UserState, pack: seq<Card>, now: int)
    ensures CanOpenDailyPack(BUILD_POLICY, user, now)
    ensures AfterPack(user, pack, CanOpenDailyPack(BUILD_POLICY, user, now), now).packsAvailable
      == user.packsAvailable
  {
  }

  /** Under a cooldown, a daily pack opened at a non-zero time closes the gate
      until strictly more than the cooldown has passed. */
  lemma CooldownAfterDailyPack(user: UserState, pack: seq<Card>, ms: int, now: int, later: int)
    requires now != 0
    ensures CanOpenDailyPack(Cooldown(ms), AfterPack(user, pack, true, now), later) <==> later - now > ms
  {
  }

  /** The cooldown gate never closes again as time passes. */
  lemma CooldownMonotone(policy: DailyPolicy, user: UserState, now: int, later: int)
    requires now <= later && CanOpenDailyPack(policy, user, now)
    ensures CanOpenDailyPack(policy, user, later)
  {
  }

  // ---------------------------------------------------------------------------
  // Burn trade

  /** One step of the `lostIds.forEach`: an id with a positive count loses one
      copy, and an entry that reaches zero is deleted; any other id is skipped. */
  function SpendDuplicate(d: map<int, int>, id: int): (r: map<int, int>)
    ensures r.Keys <= d.Keys
    ensures forall k :: k != id ==> GetOr(r, k, 0) == GetOr(d, k, 0)
    ensures GetOr(r, id, 0) == if GetOr(d, id, 0) > 0 then GetOr(d, id, 0) - 1 else GetOr(d, id, 0)
    ensures (forall k :: k in d ==> d[k] >= 1) ==> forall k :: k in r ==> r[k] >= 1
  {
    if id in d && d[id] > 0 then
      if d[id] - 1 == 0 then d - {id} else d[id := d[id] - 1]
    else d
  }

  /** The whole `lostIds.forEach`. */
  function SpendAll(d: map<int, int>, lost: seq<int>): map<int, int>
  {
    if lost == [] then d else SpendDuplicate(SpendAll(d, lost[..|lost| - 1]), lost[|lost| - 1])
  }

  function Max0(x: int): int
  {
    if x > 0 then x else 0
  }

  /** On positive counts, each id loses as many copies as it is listed, down to
      zero and no further; ids not listed keep their count. The map keeps only
      positive counts and gains no key. */
  lemma {:induction false} SpendAllPointwise(d: map<int, int>, lost: seq<int>)
    requires forall k :: k in d ==> d[k] >= 1
    ensures forall k :: GetOr(SpendAll(d, lost), k, 0) == Max0(GetOr(d, k, 0) - multiset(lost)[k])
    ensures forall k :: k in SpendAll(d, lost) ==> SpendAll(d, lost)[k] >= 1 && k in d
  {
    if lost != [] {
      var init := lost[..|lost| - 1];
      SpendAllPointwise(d, init);
      assert lost == init + [lost[|lost| - 1]];
    }
  }

  /** When every listed copy is really there, the owned extra copies drop by
      the number of listed ids. */
  lemma {:induction false} SpendAllTotal(collection: seq<int>, d: map<int, int>, lost: seq<int>)
    requires NoDup(collection) && DuplicatesConsistent(collection, d)
    requires forall k :: multiset(lost)[k] <= GetOr(d, k, 0)
    ensures DupTotal(collection, SpendAll(d, lost)) == DupTotal(collection, d) - |lost|
  {
    if lost != [] {
      var init := lost[..|lost| - 1];
      var x := lost[|lost| - 1];
      assert lost == init + [x];
      forall k ensures multiset(init)[k] <= GetOr(d, k, 0) {
        assert multiset(init)[k] <= multiset(lost)[k];
      }
      SpendAllTotal(collection, d, init);
      SpendAllPointwise(d, init);
      var before := SpendAll(d, init);
      assert GetOr(before, x, 0) >= 1;
      assert x in collection;
      DupTotalFrame(collection, before, SpendDuplicate(before, x), x);
    }
  }

  /** The state after a burn trade: the listed duplicates are spent, then the
      gained card is received like a drawn one. */
  function AfterTrade(prev: UserState, lostIds: seq<int>, gainedId: int): UserState
  {
    var h := AddCopy(Holdings(prev.collection, SpendAll(prev.duplicates, lostIds)), gainedId);
    prev.(collection := h.collection, duplicates := h.duplicates)
  }

  /** `handleTrade`. */
  method HandleTrade(prev: UserState, lostIds: seq<int>, gainedId: int) returns (next: UserState)
    ensures next == AfterTrade(prev, lostIds, gainedId)
  {
    var newDuplicates := prev.duplicates;
    var i := 0;
    while i < |lostIds|
      invariant 0 <= i <= |lostIds|
      invariant newDuplicates == SpendAll(prev.duplicates, lostIds[..i])
    {
      var id := lostIds[i];
      if id in newDuplicates && newDuplicates[id] > 0 {
        newDuplicates := newDuplicates[id := newDuplicates[id] - 1];
        if newDuplicates[id] == 0 {
          newDuplicates := newDuplicates - {id};
        }
      }
      assert lostIds[..i + 1][..i] == lostIds[..i];
      i := i + 1;
    }
    assert lostIds[..i] == lostIds;
    var newCollection := prev.collection;
    if gainedId !in newCollection {
      newCollection := newCollection + [gainedId];
    } else {
      newDuplicates := newDuplicates[gainedId := GetOr(newDuplicates, gainedId, 0) + 1];
    }
    next := prev.(collection := newCollection, duplicates := newDuplicates);
  }

  /** A trade keeps the stored state consistent, owns the gained card afterwards
      and changes no count other than those of the listed ids and the gained id. */
  lemma TradeKeepsInvariant(prev: UserState, lostIds: seq<int>, gainedId: int)
    requires Consistent(prev)
    ensures Consistent(AfterTrade(prev, lostIds, gainedId))
    ensures gainedId in AfterTrade(prev, lostIds, gainedId).collection
    ensures prev.collection <= AfterTrade(prev, lostIds, gainedId).collection
    ensures forall k :: k !in lostIds && k != gainedId ==>
      GetOr(AfterTrade(prev, lostIds, gainedId).duplicates, k, 0) == GetOr(prev.duplicates, k, 0)
  {
    SpendAllPointwise(prev.duplicates, lostIds);
  }

  /** Conservation: when every listed copy is there and the gained card is new,
      the trade removes one copy per listed id, adds the gained card to the
      collection, and the total drops by the number of listed ids minus one. */
  lemma TradeConservation(prev: UserState, lostIds: seq<int>, gainedId: int)
    requires Consistent(prev)
    requires forall k :: multiset(lostIds)[k] <= GetOr(prev.duplicates, k, 0)
    requires gainedId !in prev.collection
    ensures var next := AfterTrade(prev, lostIds, gainedId);
      next.collection == prev.collection + [gainedId] &&
      TotalCopies(Holdings(next.collection, next.duplicates)) ==
        TotalCopies(Holdings(prev.collection, prev.duplicates)) - |lostIds| + 1
  {
    var spent := SpendAll(prev.duplicates, lostIds);
    SpendAllPointwise(prev.duplicates, lostIds);
    SpendAllTotal(prev.collection, prev.duplicates, lostIds);
    AddCopyTotal(Holdings(prev.collection, spent), gainedId);
  }

  /** The trade does not check the selection: listed ids without a spare copy
      are skipped and the gained card is still received. */
  lemma TradeSkipsMissingDuplicates()
    ensures var prev := UserState("Ana", "ana@example.com", true, [1], map[1 := 1], None, [], 0);
      AfterTrade(prev, [1, 1, 2], 3) == prev.(collection := [1, 3], duplicates := map[])
  {
    var d := map[1 := 1];
    assert SpendAll(d, [1]) == map[] by {
      assert [1][..0] == [];
    }
    assert SpendAll(d, [1, 1]) == map[] by {
      assert [1, 1][..1] == [1];
    }
    assert SpendAll(d, [1, 1, 2]) == map[] by {
      assert [1, 1, 2][..2] == [1, 1];
    }
  }

  // ---------------------------------------------------------------------------
  // Achievement grant and registration

  /** The grant update: new ids appended, their rewards added in one step. */
  function AfterGrant(cat: seq<Achievement>, prev: UserState, newIds: seq<string>): UserState
  {
    prev.(achievements := prev.achievements + newIds,
          packsAvailable := prev.packsAvailable + RewardTotal(cat, newIds))
  }

  /** What the achievement effect does to the user state for a catalogue (the
      application passes ACHIEVEMENTS): nothing before registration or while
      the roster loads, nothing when no id is new, and the grant otherwise. */
  function EffectState(cat: seq<Achievement>, user: UserState, roster: seq<Card>, loading: bool): UserState
  {
    if !user.isRegistered || loading then user
    else
      var newIds := NewUnlocks(cat, user.achievements, user.collection, roster);
      if newIds == [] then user else AfterGrant(cat, user, newIds)
  }

  /** `totalPacks` accumulated over a list of achievements. */
  method SumPacks(achs: seq<Achievement>) returns (totalPacks: int)
    ensures totalPacks == SumRewards(achs)
  {
    totalPacks := 0;
    var i := 0;
    while i < |achs|
      invariant 0 <= i <= |achs|
      invariant totalPacks == SumRewards(achs[..i])
    {
      assert achs[..i + 1][..i] == achs[..i];
      totalPacks := totalPacks + achs[i].rewardPacks;
      i := i + 1;
    }
    assert achs[..i] == achs;
  }

  /** The grant `setUser` update, with `totalPacks` summed over the listed entries. */
  method GrantAchievements(cat: seq<Achievement>, prev: UserState, newIds: seq<string>) returns (next: UserState)
    ensures next == AfterGrant(cat, prev, newIds)
  {
    var totalPacks := SumPacks(UnlockedEntries(cat, newIds));
    next := prev.(achievements := prev.achievements + newIds,
                  packsAvailable := prev.packsAvailable + totalPacks);
  }

  /** The achievement check effect: evaluates the catalogue, grants the new
      ids with their rewards and shows the first newly unlocked entry. */
  method AchievementEffect(cat: seq<Achievement>, user: UserState, roster: seq<Card>, loading: bool)
    returns (next: UserState, toast: Option<Achievement>)
    ensures next == EffectState(cat, user, roster, loading)
    ensures toast.Some? <==>
      user.isRegistered && !loading && NewUnlocks(cat, user.achievements, user.collection, roster) != []
    ensures toast.Some? ==>
      toast.value in cat && toast.value.id in NewUnlocks(cat, user.achievements, user.collection, roster)
    ensures toast.Some? ==>
      var entries := UnlockedEntries(cat, NewUnlocks(cat, user.achievements, user.collection, roster));
      |entries| > 0 && toast.value == entries[0]
  {
    next, toast := user, None;
    if !user.isRegistered || loading {
      return;
    }
    var newIds := CheckCatalogue(cat, user, roster);
    if |newIds| > 0 {
      var unlocked := UnlockedEntries(cat, newIds);
      FirstUnlockedEntry(cat, user.achievements, user.collection, roster);
      next := GrantAchievements(cat, user, newIds);
      toast := Some(unlocked[0]);
    }
  }

  /** Granting is idempotent: once the effect has run, running it again on the
      new state with the same collection and roster changes nothing. */
  lemma EffectIdempotent(cat: seq<Achievement>, user: UserState, roster: seq<Card>, loading: bool)
    ensures EffectState(cat, EffectState(cat, user, roster, loading), roster, loading) ==
      EffectState(cat, user, roster, loading)
  {
    NewUnlocksIdempotent(cat, user.achievements, user.collection, roster);
  }

  /** With distinct catalogue ids and positive rewards, the effect never loses
      an achievement or a pack, keeps unlocked ids free of repeats, and leaves
      the holdings alone. */
  lemma EffectMonotone(cat: seq<Achievement>, user: UserState, roster: seq<Card>, loading: bool)
    requires NoDup(Ids(cat)) && PositiveRewards(cat)
    requires NoDup(user.achievements)
    ensures var next := EffectState(cat, user, roster, loading);
      user.achievements <= next.achievements &&
      next.packsAvailable >= user.packsAvailable &&
      NoDup(next.achievements) &&
      next.collection == user.collection && next.duplicates == user.duplicates
  {
    var newIds := NewUnlocks(cat, user.achievements, user.collection, roster);
    RewardTotalBounds(cat, newIds);
    NewUnlocksOrdered(cat, user.achievements, user.collection, roster);
    NewUnlocksFresh(cat, user.achievements, user.collection, roster);
    NoDupAppend(user.achievements, newIds);
  }

  /** With positive rewards, an effect that grants adds at least one pack. */
  lemma EffectRewards(cat: seq<Achievement>, user: UserState, roster: seq<Card>, loading: bool)
    requires PositiveRewards(cat)
    requires EffectState(cat, user, roster, loading) != user
    ensures EffectState(cat, user, roster, loading).packsAvailable >= user.packsAvailable + 1
  {
    FirstUnlockedEntry(cat, user.achievements, user.collection, roster);
    RewardTotalBounds(cat, NewUnlocks(cat, user.achievements, user.collection, roster));
  }

  /** The shipped catalogue meets the conditions of the two lemmas above. */
  lemma ShippedCatalogueFits()
    ensures NoDup(Ids(ACHIEVEMENTS)) && PositiveRewards(ACHIEVEMENTS)
  {
    CatalogueIdsDistinct();
    ShippedRewardsPositive();
  }

  /** `handleRegister`: the form's name and email, registered, and the inventory
      set to exactly one starter pack. */
  function HandleRegister(prev: UserState, name: string, email: string): UserState
  {
    prev.(name := name, email := email, isRegistered := true, packsAvailable := 1)
  }

  /** Registration keeps the collection, duplicates, achievements and timestamp,
      so the invariant survives, and leaves exactly one pack whatever was waiting. */
  lemma RegisterKeepsProgress(prev: UserState, name: string, email: string)
    ensures var next := HandleRegister(prev, name, email);
      next.isRegistered && next.packsAvailable == 1 &&
      next.collection == prev.collection && next.duplicates == prev.duplicates &&
      next.achievements == prev.achievements && next.lastPackOpened == prev.lastPackOpened &&
      (Consistent(prev) ==> Consistent(next))
  {
  }

  // ---------------------------------------------------------------------------
  // Completion

  /** `completionPercentage`: owned entries over roster size, rounded; 0 for an
      empty roster. */
  function CompletionPercentage(user: UserState, roster: seq<Card>): int
  {
    if |roster| > 0 then RoundPercent(|user.collection|, |roster|) else 0
  }

  /** When owned ids are distinct roster ids, the percentage lies between 0 and
      100 and is the ratio rounded half up. */
  lemma CompletionBounds(user: UserState, roster: seq<Card>)
    requires NoDup(user.collection)
    requires forall k :: k in user.collection ==> k in CardIds(roster)
    ensures 0 <= CompletionPercentage(user, roster) <= 100
    ensures |roster| > 0 ==>
      var p := CompletionPercentage(user, roster);
      2 * |roster| * p <= 200 * |user.collection| + |roster| < 2 * |roster| * p + 2 * |roster|
  {
    NoDupSetSize(user.collection);
    SetSizeAtMost(CardIds(roster));
    assert ToSet(user.collection) <= ToSet(CardIds(roster));
    SubsetSize(ToSet(user.collection), ToSet(CardIds(roster)));
  }
}
