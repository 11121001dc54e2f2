/** The achievement catalogue and the evaluator that reports which achievements a
    user has newly earned. */
module Achievements {
  import opened Types
  import opened Builtins

  /** The fixed catalogue, in the order the evaluator walks it. */
  const ACHIEVEMENTS: seq<Achievement> := [
    Achievement("first_step", "Bienvenido a LICON",
      "Abre tu primer sobre de tarjetas.", "👋", 1),
    Achievement("direction_complete", "Líder Nato",
      "Colecciona todas las tarjetas de Dirección.", "👔", 2),
    Achievement("sales_complete", "Lobo de Ventas",
      "Colecciona todas las tarjetas de Ventas.", "💼", 2),
    Achievement("marketing_complete", "Genio Creativo",
      "Colecciona todas las tarjetas de Marketing.", "🎨", 2),
    Achievement("hr_complete", "Gestor de Talento",
      "Colecciona todas las tarjetas de RR.HH.", "🤝", 2),
    Achievement("finance_complete", "Maestro de los Números",
      "Colecciona todas las tarjetas de Finanzas.", "💰", 2),
    Achievement("ops_complete", "Ingeniero de Procesos",
      "Colecciona todas las tarjetas de Operaciones.", "⚙️", 2),
    Achievement("it_complete", "Hacker Ético",
      "Colecciona todas las tarjetas de Sistemas.", "💻", 2),
    Achievement("logistics_complete", "Estratega de Rutas",
      "Colecciona todas las tarjetas de Logística.", "🚚", 2),
    Achievement("legend_hunter", "Leyenda Viviente",
      "Encuentra una carta de rareza Legendaria.", "✨", 3),
    Achievement("halfway_there", "Mitad del Camino",
      "Colecciona el 50% de las cartas únicas.", "📈", 1)
  ]

  function AchievementId(a: Achievement): string { a.id }

  /** The ids of a list of achievements, in order. */
  function Ids(cat: seq<Achievement>): seq<string>
  {
    Map(cat, AchievementId)
  }

  /** The department rule an id stands for, if it is one of the eight. */
  function DepartmentRule(id: string): Option<Department>
  {
    if id == "direction_complete" then Some(DIRECTION)
    else if id == "sales_complete" then Some(SALES)
    else if id == "marketing_complete" then Some(MARKETING)
    else if id == "hr_complete" then Some(HR)
    else if id == "finance_complete" then Some(FINANCE)
    else if id == "ops_complete" then Some(OPERATIONS)
    else if id == "it_complete" then Some(IT)
    else if id == "logistics_complete" then Some(LOGISTICS)
    else None
  }

  /** The catalogue ids, in order. */
  lemma CatalogueIds()
    ensures Ids(ACHIEVEMENTS) ==
      ["first_step", "direction_complete", "sales_complete", "marketing_complete",
       "hr_complete", "finance_complete", "ops_complete", "it_complete",
       "logistics_complete", "legend_hunter", "halfway_there"]
  {
  }

  /** Catalogue ids are distinct. */
  lemma CatalogueIdsDistinct()
    ensures |ACHIEVEMENTS| == 11
    ensures NoDup(Ids(ACHIEVEMENTS))
  {
    CatalogueIds();
  }

  /** first_step and halfway_there reward one pack, each department rule two
      and legend_hunter three. */
  lemma CatalogueRewards()
    ensures forall i :: 0 <= i < |ACHIEVEMENTS| ==>
      ACHIEVEMENTS[i].rewardPacks ==
        (if ACHIEVEMENTS[i].id == "first_step" || ACHIEVEMENTS[i].id == "halfway_there" then 1
         else if ACHIEVEMENTS[i].id == "legend_hunter" then 3
         else 2)
    ensures forall i :: 0 <= i < |ACHIEVEMENTS| ==>
      (DepartmentRule(ACHIEVEMENTS[i].id).Some? <==> ACHIEVEMENTS[i].rewardPacks == 2)
  {
  }

  lemma CatalogueRewardsPositive()
    ensures forall a :: a in ACHIEVEMENTS ==> a.rewardPacks >= 1
  {
    forall a | a in ACHIEVEMENTS ensures a.rewardPacks >= 1 {
      var i :| 0 <= i < |ACHIEVEMENTS| && ACHIEVEMENTS[i] == a;
      CatalogueRewards();
    }
  }

  /** Each department has its own completion achievement in the catalogue, at
      the position after first_step given by the department order. */
  lemma CatalogueCoversDepartments(d: Department)
    ensures DepartmentRule(ACHIEVEMENTS[DepartmentIndex(d) + 1].id) == Some(d)
  {
  }

  function InDept(dept: Department): Card -> bool
  {
    (c: Card) => c.department == dept
  }

  /** `roster.filter(c => c.department === dept)`. */
  function CardsOf(dept: Department, roster: seq<Card>): (r: seq<Card>)
    ensures forall c :: c in r <==> c in roster && c.department == dept
    ensures IsSubseq(r, roster)
  {
    FilterIsSubseq(roster, InDept(dept));
    Filter(roster, InDept(dept))
  }

  /** `checkDeptComplete`: false for a department with no cards in the roster,
      otherwise whether every card of the department is owned. */
  function DeptComplete(dept: Department, roster: seq<Card>, ownedSet: set<int>): bool
  {
    var deptCards := CardsOf(dept, roster);
    if |deptCards| == 0 then false
    else forall c | c in deptCards :: c.id in ownedSet
  }

  /** A department rule holds iff the department has a card in the roster and
      every roster card of that department is owned. */
  lemma DeptCompleteMeaning(dept: Department, roster: seq<Card>, ownedSet: set<int>)
    ensures DeptComplete(dept, roster, ownedSet) <==>
      (exists c :: c in roster && c.department == dept) &&
      (forall c :: c in roster && c.department == dept ==> c.id in ownedSet)
  {
    var deptCards := CardsOf(dept, roster);
    if |deptCards| != 0 {
      assert deptCards[0] in deptCards;
    }
    if exists c :: c in roster && c.department == dept {
      var c :| c in roster && c.department == dept;
      assert c in deptCards;
    }
  }

  /** The switch of `checkAchievements` for one catalogue id: the eight
      department ids check their department, and an id the switch does not
      list never unlocks. */
  function RuleHolds(id: string, collection: seq<int>, roster: seq<Card>): bool
  {
    var ownedSet := ToSet(collection);
    if id == "first_step" then |collection| > 0
    else if DepartmentRule(id).Some? then DeptComplete(DepartmentRule(id).value, roster, ownedSet)
    else if id == "legend_hunter" then exists c | c in roster :: c.rarity == LEGENDARY && c.id in ownedSet
    else if id == "halfway_there" then |roster| > 0 && 2 * |ownedSet| >= |roster|
    else false
  }

  /** Every department rule id evaluates `checkDeptComplete` for its department. */
  lemma DepartmentRuleHolds(id: string, collection: seq<int>, roster: seq<Card>)
    requires DepartmentRule(id).Some?
    ensures RuleHolds(id, collection, roster) ==
      DeptComplete(DepartmentRule(id).value, roster, ToSet(collection))
  {
  }

  /** The test an id passes to be reported: not yet unlocked, and its rule holds. */
  function Unlockable(unlocked: seq<string>, collection: seq<int>, roster: seq<Card>): string -> bool
  {
    id => IsUnlockable(unlocked, collection, roster, id)
  }

  predicate IsUnlockable(unlocked: seq<string>, collection: seq<int>, roster: seq<Card>, id: string)
  {
    id !in unlocked && RuleHolds(id, collection, roster)
  }

  /** What the evaluator returns for a catalogue: its ids, in catalogue order,
      that are not yet unlocked and whose rule holds. */
  function NewUnlocks(cat: seq<Achievement>, unlocked: seq<string>, collection: seq<int>, roster: seq<Card>)
    : seq<string>
  {
    Filter(Ids(cat), Unlockable(unlocked, collection, roster))
  }

  /** The `switch (ach.id)` of `checkAchievements` for one id. */
  method EvaluateRule(id: string, collection: seq<int>, ownedSet: set<int>, roster: seq<Card>)
    returns (unlocked: bool)
    requires ownedSet == ToSet(collection)
    ensures unlocked == RuleHolds(id, collection, roster)
  {
    unlocked := false;
    if id == "first_step" {
      unlocked := |collection| > 0;
    } else if id == "direction_complete" {
      unlocked := DeptComplete(DIRECTION, roster, ownedSet);
    } else if id == "sales_complete" {
      unlocked := DeptComplete(SALES, roster, ownedSet);
    } else if id == "marketing_complete" {
      unlocked := DeptComplete(MARKETING, roster, ownedSet);
    } else if id == "hr_complete" {
      unlocked := DeptComplete(HR, roster, ownedSet);
    } else if id == "finance_complete" {
      unlocked := DeptComplete(FINANCE, roster, ownedSet);
    } else if id == "ops_complete" {
      unlocked := DeptComplete(OPERATIONS, roster, ownedSet);
    } else if id == "it_complete" {
      unlocked := DeptComplete(IT, roster, ownedSet);
    } else if id == "logistics_complete" {
      unlocked := DeptComplete(LOGISTICS, roster, ownedSet);
    } else if id == "legend_hunter" {
      unlocked := exists c | c in roster :: c.rarity == LEGENDARY && c.id in ownedSet;
    } else if id == "halfway_there" {
      unlocked := |roster| > 0 && 2 * |ownedSet| >= |roster|;
    }
  }

  /** The loop of `checkAchievements` over a catalogue: walks it in order and
      keeps the ids that are not yet unlocked and whose rule holds. */
  method CheckCatalogue(cat: seq<Achievement>, user: UserState, roster: seq<Card>)
    returns (newUnlocks: seq<string>)
    ensures newUnlocks == NewUnlocks(cat, user.achievements, user.collection, roster)
  {
    var p := Unlockable(user.achievements, user.collection, roster);
    newUnlocks := [];
    var ownedSet := ToSet(user.collection);
    var i := 0;
    while i < |cat|
      invariant 0 <= i <= |cat|
      invariant newUnlocks == Filter(Ids(cat[..i]), p)
    {
      var ach := cat[i];
      var unlocked := false;
      if ach.id !in user.achievements {
        unlocked := EvaluateRule(ach.id, user.collection, ownedSet, roster);
        if unlocked {
          newUnlocks := newUnlocks + [ach.id];
        }
      }
      assert unlocked == p(ach.id);
      FilterIdsStep(cat, i, p);
      i := i + 1;
    }
    assert cat[..i] == cat;
    assert newUnlocks == Filter(Ids(cat), p);
  }

  /** One more catalogue entry adds its id to the filtered ids exactly when it passes. */
  lemma FilterIdsStep(cat: seq<Achievement>, i: int, p: string -> bool)
    requires 0 <= i < |cat|
    ensures Filter(Ids(cat[..i + 1]), p) ==
      Filter(Ids(cat[..i]), p) + (if p(cat[i].id) then [cat[i].id] else [])
  {
    assert Ids(cat[..i + 1]) == Ids(cat[..i]) + [cat[i].id];
    FilterAppend(Ids(cat[..i]), [cat[i].id], p);
    FilterSingleton(cat[i].id, p);
  }

  /** `checkAchievements(user, roster)` over the shipped catalogue. */
  method CheckAchievements(user: UserState, roster: seq<Card>) returns (newUnlocks: seq<string>)
    ensures newUnlocks == NewUnlocks(ACHIEVEMENTS, user.achievements, user.collection, roster)
  {
    newUnlocks := CheckCatalogue(ACHIEVEMENTS, user, roster);
  }

  /** An id is reported iff it is in the catalogue, not yet unlocked, and its rule holds. */
  lemma NewUnlocksMember(cat: seq<Achievement>, unlocked: seq<string>, collection: seq<int>,
                         roster: seq<Card>, id: string)
    ensures id in NewUnlocks(cat, unlocked, collection, roster) <==>
      id in Ids(cat) && id !in unlocked && RuleHolds(id, collection, roster)
  {
  }

  /** No reported id is already unlocked. */
  lemma NewUnlocksFresh(cat: seq<Achievement>, unlocked: seq<string>, collection: seq<int>, roster: seq<Card>)
    ensures forall id :: id in NewUnlocks(cat, unlocked, collection, roster) ==> id !in unlocked
  {
  }

  /** Reported ids keep catalogue order, and appear at most once when the
      catalogue ids are distinct. */
  lemma NewUnlocksOrdered(cat: seq<Achievement>, unlocked: seq<string>, collection: seq<int>, roster: seq<Card>)
    ensures IsSubseq(NewUnlocks(cat, unlocked, collection, roster), Ids(cat))
    ensures NoDup(Ids(cat)) ==> NoDup(NewUnlocks(cat, unlocked, collection, roster))
  {
    var p := Unlockable(unlocked, collection, roster);
    FilterIsSubseq(Ids(cat), p);
    if NoDup(Ids(cat)) {
      FilterNoDup(Ids(cat), p);
    }
  }

  /** Evaluation is idempotent: once the reported ids are appended to the
      unlocked list, the same collection and roster report nothing. */
  lemma NewUnlocksIdempotent(cat: seq<Achievement>, unlocked: seq<string>, collection: seq<int>, roster: seq<Card>)
    ensures NewUnlocks(cat, unlocked + NewUnlocks(cat, unlocked, collection, roster), collection, roster) == []
  {
    var first := NewUnlocks(cat, unlocked, collection, roster);
    var again := NewUnlocks(cat, unlocked + first, collection, roster);
    if again != [] {
      var id := again[0];
      assert id in again;
      NewUnlocksMember(cat, unlocked + first, collection, roster, id);
      NewUnlocksMember(cat, unlocked, collection, roster, id);
      assert false;
    }
  }

  /** The catalogue entry that carries a listed id. */
  lemma EntryOfId(cat: seq<Achievement>, id: string) returns (a: Achievement)
    requires id in Ids(cat)
    ensures a in cat && a.id == id
  {
    var k :| 0 <= k < |Ids(cat)| && Ids(cat)[k] == id;
    a := cat[k];
  }

  /** The id of a catalogue entry is among the catalogue ids. */
  lemma IdOfEntry(cat: seq<Achievement>, a: Achievement)
    requires a in cat
    ensures a.id in Ids(cat)
  {
    var k :| 0 <= k < |cat| && cat[k] == a;
    assert Ids(cat)[k] == a.id;
  }

  /** first_step is reported iff it is not yet unlocked and the collection is non-empty. */
  lemma FirstStepRule(user: UserState, roster: seq<Card>)
    ensures "first_step" in NewUnlocks(ACHIEVEMENTS, user.achievements, user.collection, roster) <==>
      "first_step" !in user.achievements && |user.collection| > 0
  {
    assert Ids(ACHIEVEMENTS)[0] == "first_step";
  }

  /** legend_hunter is reported iff it is not yet unlocked and some legendary
      roster card is owned. */
  lemma LegendHunterRule(user: UserState, roster: seq<Card>)
    ensures "legend_hunter" in NewUnlocks(ACHIEVEMENTS, user.achievements, user.collection, roster) <==>
      "legend_hunter" !in user.achievements &&
      exists c :: c in roster && c.rarity == LEGENDARY && c.id in user.collection
  {
    assert Ids(ACHIEVEMENTS)[9] == "legend_hunter";
  }

  /** halfway_there is reported iff it is not yet unlocked, the roster is
      non-empty and the distinct owned ids are at least half the roster length. */
  lemma HalfwayRule(user: UserState, roster: seq<Card>)
    ensures "halfway_there" in NewUnlocks(ACHIEVEMENTS, user.achievements, user.collection, roster) <==>
      "halfway_there" !in user.achievements && |roster| > 0 &&
      2 * |ToSet(user.collection)| >= |roster|
  {
    assert Ids(ACHIEVEMENTS)[10] == "halfway_there";
  }

  /** A department achievement is reported iff it is not yet unlocked and the
      department is non-empty in the roster and fully owned. */
  lemma DepartmentRuleReported(user: UserState, roster: seq<Card>, a: Achievement, dept: Department)
    requires a in ACHIEVEMENTS && DepartmentRule(a.id) == Some(dept)
    ensures a.id in NewUnlocks(ACHIEVEMENTS, user.achievements, user.collection, roster) <==>
      a.id !in user.achievements &&
      (exists c :: c in roster && c.department == dept) &&
      (forall c :: c in roster && c.department == dept ==> c.id in user.collection)
  {
    DeptCompleteMeaning(dept, roster, ToSet(user.collection));
    DepartmentRuleHolds(a.id, user.collection, roster);
    IdOfEntry(ACHIEVEMENTS, a);
    NewUnlocksMember(ACHIEVEMENTS, user.achievements, user.collection, roster, a.id);
  }

  // ---------------------------------------------------------------------------
  // Rewards

  /** Sum of the rewards of a list of achievements. */
  function SumRewards(achs: seq<Achievement>): int
  {
    if achs == [] then 0 else SumRewards(achs[..|achs| - 1]) + achs[|achs| - 1].rewardPacks
  }

  function Listed(newIds: seq<string>): Achievement -> bool
  {
    (a: Achievement) => a.id in newIds
  }

  /** The catalogue entries whose id is listed, in catalogue order
      (`ACHIEVEMENTS.filter(a => newIds.includes(a.id))`). */
  function UnlockedEntries(cat: seq<Achievement>, newIds: seq<string>): seq<Achievement>
  {
    Filter(cat, Listed(newIds))
  }

  /** The packs a grant adds for `newIds`: the sum of the rewards of the listed
      catalogue entries. */
  function RewardTotal(cat: seq<Achievement>, newIds: seq<string>): int
  {
    SumRewards(UnlockedEntries(cat, newIds))
  }

  /** Every reward of a catalogue is at least one pack. */
  predicate PositiveRewards(cat: seq<Achievement>)
  {
    forall a :: a in cat ==> a.rewardPacks >= 1
  }

  lemma ShippedRewardsPositive()
    ensures PositiveRewards(ACHIEVEMENTS)
  {
    CatalogueRewardsPositive();
  }

  lemma {:induction false} SumRewardsNonNegative(achs: seq<Achievement>)
    requires forall a :: a in achs ==> a.rewardPacks >= 0
    ensures SumRewards(achs) >= 0
  {
    if achs != [] {
      SumRewardsNonNegative(achs[..|achs| - 1]);
    }
  }

  lemma {:induction false} SumRewardsPositive(achs: seq<Achievement>)
    requires forall a :: a in achs ==> a.rewardPacks >= 1
    requires achs != []
    ensures SumRewards(achs) >= 1
  {
    SumRewardsNonNegative(achs[..|achs| - 1]);
  }

  /** With positive rewards a grant never takes packs away, and adds at least
      one pack when some catalogue entry is listed. */
  lemma RewardTotalBounds(cat: seq<Achievement>, newIds: seq<string>)
    requires PositiveRewards(cat)
    ensures RewardTotal(cat, newIds) >= 0
    ensures (exists a :: a in cat && a.id in newIds) ==> RewardTotal(cat, newIds) >= 1
  {
    var chosen := UnlockedEntries(cat, newIds);
    SumRewardsNonNegative(chosen);
    if exists a :: a in cat && a.id in newIds {
      var a :| a in cat && a.id in newIds;
      assert a in chosen;
      SumRewardsPositive(chosen);
    }
  }

  /** When some id is reported, the first listed catalogue entry is one of them. */
  lemma FirstUnlockedEntry(cat: seq<Achievement>, unlocked: seq<string>, collection: seq<int>, roster: seq<Card>)
    requires NewUnlocks(cat, unlocked, collection, roster) != []
    ensures var entries := UnlockedEntries(cat, NewUnlocks(cat, unlocked, collection, roster));
      |entries| > 0 && entries[0] in cat &&
      entries[0].id in NewUnlocks(cat, unlocked, collection, roster)
  {
    var newIds := NewUnlocks(cat, unlocked, collection, roster);
    assert newIds[0] in Ids(cat);
    var a := EntryOfId(cat, newIds[0]);
    FilterFirst(cat, Listed(newIds), a);
  }
}
