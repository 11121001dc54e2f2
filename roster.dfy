/** The company roster: the seven fixed starter cards, the deterministic
    fallback cards, the expansion of a generated list to the full headcount,
    and the merge of stored admin overrides. */
module Roster {
  import opened Types
  import opened Builtins

  const TOTAL_EMPLOYEES: nat := 250

  /** The number of fixed starter cards. */
  const FIXED_COUNT: nat := 7

  const FIXED_STARTER_CARDS: seq<Card> := [
    Card(1, "Nombre Tarjeta 1", "Puesto 1", DIRECTION, LEGENDARY,
         "https://via.placeholder.com/300x400?text=Tarjeta+1",
         "Descripción personalizada para la tarjeta número 1.", 99),
    Card(2, "Nombre Tarjeta 2", "Puesto 2", SALES, EPIC,
         "https://via.placeholder.com/300x400?text=Tarjeta+2",
         "Descripción personalizada para la tarjeta número 2.", 95),
    Card(3, "Nombre Tarjeta 3", "Puesto 3", MARKETING, EPIC,
         "https://via.placeholder.com/300x400?text=Tarjeta+3",
         "Descripción personalizada para la tarjeta número 3.", 92),
    Card(4, "Nombre Tarjeta 4", "Puesto 4", HR, RARE,
         "https://via.placeholder.com/300x400?text=Tarjeta+4",
         "Descripción personalizada para la tarjeta número 4.", 88),
    Card(5, "Nombre Tarjeta 5", "Puesto 5", FINANCE, RARE,
         "https://via.placeholder.com/300x400?text=Tarjeta+5",
         "Descripción personalizada para la tarjeta número 5.", 85),
    Card(6, "Nombre Tarjeta 6", "Puesto 6", OPERATIONS, COMMON,
         "https://via.placeholder.com/300x400?text=Tarjeta+6",
         "Descripción personalizada para la tarjeta número 6.", 80),
    Card(7, "Nombre Tarjeta 7", "Puesto 7", IT, COMMON,
         "https://via.placeholder.com/300x400?text=Tarjeta+7",
         "Descripción personalizada para la tarjeta número 7.", 78)
  ]

  /** The starter cards have ids 1 to 7 and follow the department cycle, so
      card `k` (from 0) belongs to department `k mod 8`. */
  lemma StarterCards()
    ensures |FIXED_STARTER_CARDS| == FIXED_COUNT
    ensures forall k :: 0 <= k < |FIXED_STARTER_CARDS| ==>
      FIXED_STARTER_CARDS[k].id == k + 1 &&
      FIXED_STARTER_CARDS[k].department == ALL_DEPARTMENTS[k % |ALL_DEPARTMENTS|]
  {
  }

  /** The starter rarities run from one legendary through two epic and two
      rare to two common, and the power falls strictly from 99 to 78. */
  lemma StarterCardRanks()
    ensures [FIXED_STARTER_CARDS[0].rarity, FIXED_STARTER_CARDS[1].rarity,
             FIXED_STARTER_CARDS[2].rarity, FIXED_STARTER_CARDS[3].rarity,
             FIXED_STARTER_CARDS[4].rarity, FIXED_STARTER_CARDS[5].rarity,
             FIXED_STARTER_CARDS[6].rarity] ==
            [LEGENDARY, EPIC, EPIC, RARE, RARE, COMMON, COMMON]
    ensures [FIXED_STARTER_CARDS[0].power, FIXED_STARTER_CARDS[1].power,
             FIXED_STARTER_CARDS[2].power, FIXED_STARTER_CARDS[3].power,
             FIXED_STARTER_CARDS[4].power, FIXED_STARTER_CARDS[5].power,
             FIXED_STARTER_CARDS[6].power] == [99, 95, 92, 88, 85, 80, 78]
    ensures forall j, k :: 0 <= j < k < |FIXED_STARTER_CARDS| ==>
      FIXED_STARTER_CARDS[j].power > FIXED_STARTER_CARDS[k].power
  {
  }

  /** Card number `n` is named "Nombre Tarjeta n", holds "Puesto n", shows
      placeholder image `n` and carries its own numbered description. */
  lemma StarterCardTexts()
    ensures forall k :: 0 <= k < |FIXED_STARTER_CARDS| ==>
      var n := [Digit(k + 1)];
      FIXED_STARTER_CARDS[k].name == "Nombre Tarjeta " + n &&
      FIXED_STARTER_CARDS[k].role == "Puesto " + n &&
      FIXED_STARTER_CARDS[k].imageUrl == "https://via.placeholder.com/300x400?text=Tarjeta+" + n &&
      FIXED_STARTER_CARDS[k].description ==
        "Descripción personalizada para la tarjeta número " + n + "."
  {
  }

  /** The rarity tier of the card at a roster position. */
  function FallbackRarity(realIndex: nat): Rarity
  {
    if realIndex % 20 == 0 then LEGENDARY
    else if realIndex % 10 == 0 then EPIC
    else if realIndex % 5 == 0 then RARE
    else COMMON
  }

  /** The rarity tiers: every 20th position is legendary, the other multiples of
      10 epic, the other multiples of 5 rare, the rest common. */
  lemma FallbackRarityTiers(realIndex: nat)
    ensures FallbackRarity(realIndex) == LEGENDARY <==> realIndex % 20 == 0
    ensures FallbackRarity(realIndex) == EPIC <==> realIndex % 10 == 0 && realIndex % 20 != 0
    ensures FallbackRarity(realIndex) == RARE <==> realIndex % 5 == 0 && realIndex % 10 != 0
    ensures FallbackRarity(realIndex) == COMMON <==> realIndex % 5 != 0
  {
    if realIndex % 20 == 0 {
      TwentyToTen(realIndex);
    }
    if realIndex % 10 == 0 {
      TenToFive(realIndex);
    }
  }

  lemma TwentyToTen(n: nat)
    requires n % 20 == 0
    ensures n % 10 == 0
  {
    var q := n / 20;
    assert n == 10 * (2 * q);
  }

  lemma TenToFive(n: nat)
    requires n % 10 == 0
    ensures n % 5 == 0
  {
    var q := n / 10;
    assert n == 5 * (2 * q);
  }

  /** Fallback card `i` of `FALLBACK_ROSTER`, at roster position
      `realIndex = i + FIXED_COUNT`; its random power is a parameter. */
  function FallbackCard(i: nat, power: int): Card
  {
    var realIndex := i + FIXED_COUNT;
    var dept := ALL_DEPARTMENTS[realIndex % |ALL_DEPARTMENTS|];
    Card(realIndex + 1,
         "Colaborador " + IntToString(realIndex + 1),
         "Especialista en " + DepartmentValue(dept),
         dept,
         FallbackRarity(realIndex),
         "https://picsum.photos/seed/" + IntToString(realIndex + 1) + "/300/400",
         "Comprometido con la excelencia y los valores de LICON.",
         power)
  }

  /** `FALLBACK_ROSTER`: the cards after the fixed ones, up to the headcount. */
  function FallbackRoster(power: nat -> int): seq<Card>
  {
    seq(TOTAL_EMPLOYEES - FIXED_COUNT, i requires 0 <= i < TOTAL_EMPLOYEES - FIXED_COUNT =>
      FallbackCard(i, power(i)))
  }

  /** The roster used without a generated list: fixed cards then fallback cards. */
  function DefaultRoster(power: nat -> int): seq<Card>
  {
    FIXED_STARTER_CARDS + FallbackRoster(power)
  }

  /** The default roster has the full headcount; card `k` has id `k + 1`, so the
      ids are 1 to 250, ascending, each once; its department is `k mod 8` of the
      enumeration; and past the fixed cards its rarity follows the tiers. */
  lemma DefaultRosterLayout(power: nat -> int)
    ensures var r := DefaultRoster(power);
      |r| == TOTAL_EMPLOYEES &&
      (forall k :: 0 <= k < |r| ==>
        r[k].id == k + 1 && r[k].department == ALL_DEPARTMENTS[k % |ALL_DEPARTMENTS|]) &&
      (forall k :: FIXED_COUNT <= k < |r| ==> r[k].rarity == FallbackRarity(k))
  {
    StarterCards();
    var r := DefaultRoster(power);
    forall k | FIXED_COUNT <= k < |r|
      ensures r[k].id == k + 1 && r[k].department == ALL_DEPARTMENTS[k % |ALL_DEPARTMENTS|]
      ensures r[k].rarity == FallbackRarity(k)
    {
      var i: nat := k - FIXED_COUNT;
      assert r[k] == FallbackRoster(power)[i] == FallbackCard(i, power(i));
    }
  }

  /** Every department has cards in the default roster. */
  lemma DefaultRosterCoversDepartments(power: nat -> int, d: Department)
    ensures exists c :: c in DefaultRoster(power) && c.department == d
  {
    DefaultRosterLayout(power);
    var r := DefaultRoster(power);
    var k := 8 + DepartmentIndex(d);
    assert k % 8 == DepartmentIndex(d);
    assert r[k] in r;
  }

  /** One entry of the generated list (the fields the response schema asks for). */
  datatype Template = Template(
    name: string,
    role: string,
    department: Department,
    rarity: Rarity,
    description: string,
    power: int)

  /** How the roster request ended: no API key; a failure before the expansion
      (the request or `JSON.parse` throws); a parsed list whose entries all
      follow the schema; or a parsed list whose entry `bad` does not (it is
      `null` or has no string `name`, so reading its name throws), the entry
      `rawData[bad]` standing in for it and never being read. */
  datatype ProviderOutcome =
    | NoApiKey
    | Failed
    | Generated(rawData: seq<Template>)
    | Malformed(rawData: seq<Template>, bad: nat)

  /** The characters the regular expression class `\s` matches. */
  predicate IsJsWhitespace(c: char)
  {
    c == '\t' || c == '\n' || c == '\U{000B}' || c == '\U{000C}' || c == '\r' || c == ' ' ||
    c == '\U{00A0}' || c == '\U{1680}' || ('\U{2000}' <= c <= '\U{200A}') ||
    c == '\U{2028}' || c == '\U{2029}' || c == '\U{202F}' || c == '\U{205F}' ||
    c == '\U{3000}' || c == '\U{FEFF}'
  }

  function NotWhitespace(): char -> bool
  {
    (c: char) => !IsJsWhitespace(c)
  }

  /** `s.replace(/\s/g, '')`. */
  function StripWhitespace(s: string): (r: string)
    ensures forall c :: c in r <==> c in s && !IsJsWhitespace(c)
  {
    Filter(s, NotWhitespace())
  }

  /** Stripping deletes every whitespace character and keeps every other
      character, as often as it occurs and in its order. */
  lemma StripWhitespaceKeepsOthers(s: string)
    ensures forall c ::
      multiset(StripWhitespace(s))[c] == if IsJsWhitespace(c) then 0 else multiset(s)[c]
    ensures IsSubseq(StripWhitespace(s), s)
  {
    FilterCounts(s, NotWhitespace());
    FilterIsSubseq(s, NotWhitespace());
  }

  /** The template of expansion slot `i`: the generated entry `i mod length`,
      or the fallback card of that slot when the list is empty. */
  function TemplateOf(rawData: seq<Template>, i: nat, fallbackPower: int): Template
  {
    if |rawData| > 0 then rawData[i % |rawData|]
    else
      var f := FallbackCard(i, fallbackPower);
      Template(f.name, f.role, f.department, f.rarity, f.description, f.power)
  }

  /** The card the expansion loop pushes for slot `i`; slots past the end of
      the generated list are clones, whose name carries ` (id)` and whose power
      is a fresh draw `clonePower`. */
  function ExpandedCard(rawData: seq<Template>, i: nat, fallbackPower: int, clonePower: int): Card
  {
    var currentId := i + FIXED_COUNT + 1;
    var template := TemplateOf(rawData, i, fallbackPower);
    var isClone := i >= |rawData|;
    Card(currentId,
         if isClone then template.name + " (" + IntToString(currentId) + ")" else template.name,
         template.role,
         template.department,
         template.rarity,
         "https://picsum.photos/seed/" + StripWhitespace(template.name) + IntToString(currentId) + "/300/400",
         template.description,
         if isClone then clonePower else template.power)
  }

  /** The cards of all expansion slots. `fallbackPower` are the draws made
      when `FALLBACK_ROSTER` was built, `clonePower` the draws made for clones. */
  function Expansion(rawData: seq<Template>, fallbackPower: nat -> int, clonePower: nat -> int): seq<Card>
  {
    seq(TOTAL_EMPLOYEES - FIXED_COUNT, i requires 0 <= i < TOTAL_EMPLOYEES - FIXED_COUNT =>
      ExpandedCard(rawData, i, fallbackPower(i), clonePower(i)))
  }

  /** Slot `i` of the expansion loop reads the malformed entry. */
  predicate ReadsBad(rawData: seq<Template>, bad: Option<nat>, i: nat)
  {
    bad.Some? && |rawData| > 0 && i % |rawData| == bad.value
  }

  /** The slot at which the expansion loop throws: the first slot whose
      template is the malformed entry, which is the entry's own index because
      the first pass reads the entries in order; the slot count when no slot
      reads it. */
  function ThrowSlot(rawData: seq<Template>, bad: Option<nat>): (s: nat)
    ensures s <= TOTAL_EMPLOYEES - FIXED_COUNT
  {
    if bad.Some? && bad.value < |rawData| && bad.value < TOTAL_EMPLOYEES - FIXED_COUNT then bad.value
    else TOTAL_EMPLOYEES - FIXED_COUNT
  }

  /** The loop throws at the first slot that reads the malformed entry, and
      only there. */
  lemma ThrowSlotFirst(rawData: seq<Template>, bad: Option<nat>)
    ensures forall i :: 0 <= i < ThrowSlot(rawData, bad) ==> !ReadsBad(rawData, bad, i)
    ensures ThrowSlot(rawData, bad) < TOTAL_EMPLOYEES - FIXED_COUNT ==>
      ReadsBad(rawData, bad, ThrowSlot(rawData, bad))
  {
    var s := ThrowSlot(rawData, bad);
    forall i | 0 <= i < s ensures !ReadsBad(rawData, bad, i) {
      if bad.Some? && |rawData| > 0 {
        if s < TOTAL_EMPLOYEES - FIXED_COUNT {
          ModSmall(i, |rawData|);
        } else if i < |rawData| {
          ModSmall(i, |rawData|);
        } else {
          assert bad.value >= |rawData|;
        }
      }
    }
    if s < TOTAL_EMPLOYEES - FIXED_COUNT {
      ModSmall(s, |rawData|);
    }
  }

  /** The roster `fetchCompanyRoster` is meant to resolve to: the fixed cards
      followed by the expansion of a well-formed list, or by the fallback cards
      whenever an exception is caught. */
  function RosterOf(outcome: ProviderOutcome, fallbackPower: nat -> int, clonePower: nat -> int): seq<Card>
  {
    match outcome
    case Generated(rawData) => FIXED_STARTER_CARDS + Expansion(rawData, fallbackPower, clonePower)
    case Malformed(rawData, bad) =>
      if ThrowSlot(rawData, Some(bad)) < TOTAL_EMPLOYEES - FIXED_COUNT then DefaultRoster(fallbackPower)
      else FIXED_STARTER_CARDS + Expansion(rawData, fallbackPower, clonePower)
    case _ => DefaultRoster(fallbackPower)
  }

  /** The roster as the source's `catch` builds it: after a throw inside the
      expansion loop it appends the fallback cards to the cards already pushed. */
  function RosterAsWritten(outcome: ProviderOutcome, fallbackPower: nat -> int, clonePower: nat -> int): seq<Card>
  {
    match outcome
    case Malformed(rawData, bad) =>
      FIXED_STARTER_CARDS + Expansion(rawData, fallbackPower, clonePower)[..ThrowSlot(rawData, Some(bad))] +
      (if ThrowSlot(rawData, Some(bad)) < TOTAL_EMPLOYEES - FIXED_COUNT then FallbackRoster(fallbackPower) else [])
    case _ => RosterOf(outcome, fallbackPower, clonePower)
  }

  /** The expansion loop: ids `FIXED_COUNT + 1 ..` pushed in order after the
      given fixed cards, until the loop reaches a malformed entry (`threw`) or
      fills every slot. */
  method ExpandRoster(fixed: seq<Card>, rawData: seq<Template>, bad: Option<nat>,
                      fallbackPower: nat -> int, clonePower: nat -> int)
    returns (finalRoster: seq<Card>, threw: bool)
    ensures threw <==> ThrowSlot(rawData, bad) < TOTAL_EMPLOYEES - FIXED_COUNT
    ensures finalRoster == fixed + Expansion(rawData, fallbackPower, clonePower)[..ThrowSlot(rawData, bad)]
  {
    finalRoster := fixed;
    threw := false;
    ghost var all := Expansion(rawData, fallbackPower, clonePower);
    ghost var stop := ThrowSlot(rawData, bad);
    ThrowSlotFirst(rawData, bad);
    var remainingSlots := TOTAL_EMPLOYEES - FIXED_COUNT;
    var i := 0;
    while i < remainingSlots && !threw
      invariant 0 <= i <= stop
      invariant finalRoster == fixed + all[..i]
      invariant threw ==> i == stop < remainingSlots
      decreases remainingSlots - i, if threw then 0 else 1
    {
      if ReadsBad(rawData, bad, i) {
        threw := true;
      } else {
        var card := ExpandedCard(rawData, i, fallbackPower(i), clonePower(i));
        ExpansionPrefix(rawData, fallbackPower, clonePower, i);
        finalRoster := finalRoster + [card];
        i := i + 1;
      }
    }
  }

  /** The expansion's first `i + 1` cards extend its first `i` by slot `i`. */
  lemma ExpansionPrefix(rawData: seq<Template>, fallbackPower: nat -> int, clonePower: nat -> int, i: nat)
    requires i < TOTAL_EMPLOYEES - FIXED_COUNT
    ensures var all := Expansion(rawData, fallbackPower, clonePower);
      all[..i + 1] == all[..i] + [ExpandedCard(rawData, i, fallbackPower(i), clonePower(i))]
  {
    var all := Expansion(rawData, fallbackPower, clonePower);
    PrefixStep(all, i);
  }

  /** `fetchCompanyRoster`, with the `catch` returning the fixed cards and the
      fallback cards. */
  method FetchCompanyRoster(outcome: ProviderOutcome, fallbackPower: nat -> int, clonePower: nat -> int)
    returns (roster: seq<Card>)
    ensures roster == RosterOf(outcome, fallbackPower, clonePower)
  {
    match outcome
    case Generated(rawData) =>
      var threw;
      roster, threw := ExpandRoster(FIXED_STARTER_CARDS, rawData, None, fallbackPower, clonePower);
      assert Expansion(rawData, fallbackPower, clonePower)[..TOTAL_EMPLOYEES - FIXED_COUNT]
          == Expansion(rawData, fallbackPower, clonePower);
    case Malformed(rawData, bad) =>
      var threw;
      roster, threw := ExpandRoster(FIXED_STARTER_CARDS, rawData, Some(bad), fallbackPower, clonePower);
      if threw {
        roster := FIXED_STARTER_CARDS + FallbackRoster(fallbackPower);
      } else {
        assert Expansion(rawData, fallbackPower, clonePower)[..TOTAL_EMPLOYEES - FIXED_COUNT]
            == Expansion(rawData, fallbackPower, clonePower);
      }
    case _ =>
      roster := FIXED_STARTER_CARDS + FallbackRoster(fallbackPower);
  }

  /** Whatever the outcome, the roster has the full headcount and card `k` has
      id `k + 1`. */
  lemma RosterIds(outcome: ProviderOutcome, fallbackPower: nat -> int, clonePower: nat -> int)
    ensures var r := RosterOf(outcome, fallbackPower, clonePower);
      |r| == TOTAL_EMPLOYEES && forall k :: 0 <= k < |r| ==> r[k].id == k + 1
  {
    StarterCards();
    DefaultRosterLayout(fallbackPower);
    var r := RosterOf(outcome, fallbackPower, clonePower);
    if r != DefaultRoster(fallbackPower) {
      var rawData := outcome.rawData;
      assert r == FIXED_STARTER_CARDS + Expansion(rawData, fallbackPower, clonePower);
      forall k | FIXED_COUNT <= k < |r| ensures r[k].id == k + 1 {
        ExpansionIds(rawData, fallbackPower, clonePower, k - FIXED_COUNT);
      }
    }
  }

  /** Expansion slot `i` holds the card with id `i + FIXED_COUNT + 1`. */
  lemma ExpansionIds(rawData: seq<Template>, fallbackPower: nat -> int, clonePower: nat -> int, i: nat)
    requires i < TOTAL_EMPLOYEES - FIXED_COUNT
    ensures Expansion(rawData, fallbackPower, clonePower)[i].id == i + FIXED_COUNT + 1
  {
    assert Expansion(rawData, fallbackPower, clonePower)[i]
        == ExpandedCard(rawData, i, fallbackPower(i), clonePower(i));
  }

  /** No two roster cards share an id. */
  lemma RosterIdsDistinct(outcome: ProviderOutcome, fallbackPower: nat -> int, clonePower: nat -> int)
    ensures var r := RosterOf(outcome, fallbackPower, clonePower);
      forall i, j :: 0 <= i < |r| && 0 <= j < |r| && r[i].id == r[j].id ==> i == j
  {
    RosterIds(outcome, fallbackPower, clonePower);
  }

  /** The source's `catch` after a throw at slot `bad > 0` keeps the `bad`
      cards already pushed and appends all fallback cards: the roster has
      `250 + bad` cards, and the first expanded card and the first fallback
      card both carry id 8. The intended roster is the offline one. */
  lemma MalformedEntryRepeatsIds(rawData: seq<Template>, bad: nat,
                                 fallbackPower: nat -> int, clonePower: nat -> int)
    requires 0 < bad < |rawData| && bad < TOTAL_EMPLOYEES - FIXED_COUNT
    ensures var r := RosterAsWritten(Malformed(rawData, bad), fallbackPower, clonePower);
      |r| == TOTAL_EMPLOYEES + bad &&
      r[FIXED_COUNT].id == FIXED_COUNT + 1 && r[FIXED_COUNT + bad].id == FIXED_COUNT + 1
    ensures RosterOf(Malformed(rawData, bad), fallbackPower, clonePower) == DefaultRoster(fallbackPower)
  {
    StarterCards();
    var e := Expansion(rawData, fallbackPower, clonePower);
    var f := FallbackRoster(fallbackPower);
    var r := RosterAsWritten(Malformed(rawData, bad), fallbackPower, clonePower);
    assert r == FIXED_STARTER_CARDS + e[..bad] + f;
    ExpansionIds(rawData, fallbackPower, clonePower, 0);
    assert r[FIXED_COUNT] == e[0];
    assert r[FIXED_COUNT + bad] == f[0] == FallbackCard(0, fallbackPower(0));
  }

  /** Outside a throw inside the expansion loop the source's roster is the
      intended one. */
  lemma RosterAsWrittenAgrees(outcome: ProviderOutcome, fallbackPower: nat -> int, clonePower: nat -> int)
    requires !(outcome.Malformed? && ThrowSlot(outcome.rawData, Some(outcome.bad)) < TOTAL_EMPLOYEES - FIXED_COUNT)
    ensures RosterAsWritten(outcome, fallbackPower, clonePower) == RosterOf(outcome, fallbackPower, clonePower)
  {
    if outcome.Malformed? {
      var e := Expansion(outcome.rawData, fallbackPower, clonePower);
      assert e[..TOTAL_EMPLOYEES - FIXED_COUNT] == e;
    }
  }

  /** A generated card past the fixed ones takes its role, department, rarity
      and description from generated entry `(k - FIXED_COUNT) mod length`; the
      first pass over the list keeps name and power, later passes are clones
      named with the id suffix and holding a fresh draw. */
  lemma GeneratedRosterCard(rawData: seq<Template>, fallbackPower: nat -> int, clonePower: nat -> int, k: nat)
    requires |rawData| > 0 && FIXED_COUNT <= k < TOTAL_EMPLOYEES
    ensures var c := RosterOf(Generated(rawData), fallbackPower, clonePower)[k];
      var t := rawData[(k - FIXED_COUNT) % |rawData|];
      c.id == k + 1 &&
      c.role == t.role && c.department == t.department &&
      c.rarity == t.rarity && c.description == t.description &&
      (k - FIXED_COUNT < |rawData| ==> c.name == t.name && c.power == t.power) &&
      (k - FIXED_COUNT >= |rawData| ==>
        c.name == t.name + " (" + IntToString(k + 1) + ")" && c.power == clonePower(k - FIXED_COUNT))
  {
    StarterCards();
    var r := RosterOf(Generated(rawData), fallbackPower, clonePower);
    var i: nat := k - FIXED_COUNT;
    assert r[k] == Expansion(rawData, fallbackPower, clonePower)[i]
        == ExpandedCard(rawData, i, fallbackPower(i), clonePower(i));
  }

  /** With an empty generated list every expanded card is a clone of its
      fallback card: same role, department and rarity, and the fallback name
      followed by the id suffix; its power is a fresh draw. */
  lemma EmptyResponseClones(fallbackPower: nat -> int, clonePower: nat -> int, k: nat)
    requires FIXED_COUNT <= k < TOTAL_EMPLOYEES
    ensures var c := RosterOf(Generated([]), fallbackPower, clonePower)[k];
      var f := DefaultRoster(fallbackPower)[k];
      c.id == f.id && c.role == f.role && c.department == f.department && c.rarity == f.rarity &&
      c.name == f.name + " (" + IntToString(k + 1) + ")" && c.power == clonePower(k - FIXED_COUNT)
  {
    StarterCards();
    assert RosterOf(Generated([]), fallbackPower, clonePower)[k]
        == Expansion([], fallbackPower, clonePower)[k - FIXED_COUNT];
    assert DefaultRoster(fallbackPower)[k] == FallbackRoster(fallbackPower)[k - FIXED_COUNT];
    EmptySlotClone(fallbackPower, clonePower, k);
  }

  /** The expansion of an empty list against the fallback, at roster position `k`. */
  lemma EmptySlotClone(fallbackPower: nat -> int, clonePower: nat -> int, k: nat)
    requires FIXED_COUNT <= k < TOTAL_EMPLOYEES
    ensures var c := Expansion([], fallbackPower, clonePower)[k - FIXED_COUNT];
      var f := FallbackRoster(fallbackPower)[k - FIXED_COUNT];
      c.id == f.id && c.role == f.role && c.department == f.department && c.rarity == f.rarity &&
      c.name == f.name + " (" + IntToString(k + 1) + ")" && c.power == clonePower(k - FIXED_COUNT)
  {
    var i: nat := k - FIXED_COUNT;
    assert Expansion([], fallbackPower, clonePower)[i] == ExpandedCard([], i, fallbackPower(i), clonePower(i));
    assert FallbackRoster(fallbackPower)[i] == FallbackCard(i, fallbackPower(i));
  }

  /** A stored override: the fields present in the stored object. */
  datatype CardPatch = CardPatch(
    id: Option<int>,
    name: Option<string>,
    role: Option<string>,
    department: Option<Department>,
    rarity: Option<Rarity>,
    imageUrl: Option<string>,
    description: Option<string>,
    power: Option<int>)

  function OrElse<T>(o: Option<T>, default: T): T
  {
    if o.Some? then o.value else default
  }

  /** `{ ...card, ...patch }`: each field present in the patch wins, each
      absent field keeps the card's value. */
  function ApplyPatch(c: Card, p: CardPatch): (r: Card)
    ensures (p.id.Some? ==> r.id == p.id.value) && (p.id.None? ==> r.id == c.id)
    ensures (p.name.Some? ==> r.name == p.name.value) && (p.name.None? ==> r.name == c.name)
    ensures (p.role.Some? ==> r.role == p.role.value) && (p.role.None? ==> r.role == c.role)
    ensures (p.department.Some? ==> r.department == p.department.value) &&
            (p.department.None? ==> r.department == c.department)
    ensures (p.rarity.Some? ==> r.rarity == p.rarity.value) && (p.rarity.None? ==> r.rarity == c.rarity)
    ensures (p.imageUrl.Some? ==> r.imageUrl == p.imageUrl.value) &&
            (p.imageUrl.None? ==> r.imageUrl == c.imageUrl)
    ensures (p.description.Some? ==> r.description == p.description.value) &&
            (p.description.None? ==> r.description == c.description)
    ensures (p.power.Some? ==> r.power == p.power.value) && (p.power.None? ==> r.power == c.power)
  {
    Card(OrElse(p.id, c.id), OrElse(p.name, c.name), OrElse(p.role, c.role),
         OrElse(p.department, c.department), OrElse(p.rarity, c.rarity),
         OrElse(p.imageUrl, c.imageUrl), OrElse(p.description, c.description),
         OrElse(p.power, c.power))
  }

  /** The patch of a whole edited card. */
  function FullPatch(c: Card): CardPatch
  {
    CardPatch(Some(c.id), Some(c.name), Some(c.role), Some(c.department), Some(c.rarity),
              Some(c.imageUrl), Some(c.description), Some(c.power))
  }

  /** A patch holding a whole card replaces the card with it; applying a patch
      twice is applying it once. */
  lemma ApplyPatchLaws(c: Card, d: Card, p: CardPatch)
    ensures ApplyPatch(c, FullPatch(d)) == d
    ensures ApplyPatch(ApplyPatch(c, p), p) == ApplyPatch(c, p)
  {
  }

  /** What local storage holds under the overrides key: nothing, text that does
      not parse, or overrides keyed by card id. */
  datatype StoredOverrides = Absent | Unparsable | Parsed(overrides: map<int, CardPatch>)

  /** `getMergedRoster`: each card with an override has it applied. */
  function GetMergedRoster(roster: seq<Card>, stored: StoredOverrides): (r: seq<Card>)
    ensures |r| == |roster|
    ensures !stored.Parsed? ==> r == roster
    ensures stored.Parsed? ==> forall k :: 0 <= k < |r| ==>
      if roster[k].id in stored.overrides then r[k] == ApplyPatch(roster[k], stored.overrides[roster[k].id])
      else r[k] == roster[k]
  {
    match stored
    case Parsed(overrides) =>
      seq(|roster|, k requires 0 <= k < |roster| =>
        if roster[k].id in overrides then ApplyPatch(roster[k], overrides[roster[k].id]) else roster[k])
    case _ => roster
  }

  /** Overrides that keep the ids they are stored under: the merge keeps every
      id in place, and merging a second time changes nothing. */
  lemma MergeIdempotent(roster: seq<Card>, overrides: map<int, CardPatch>)
    requires forall key :: key in overrides ==> overrides[key].id.None? || overrides[key].id == Some(key)
    ensures var once := GetMergedRoster(roster, Parsed(overrides));
      (forall k :: 0 <= k < |roster| ==> once[k].id == roster[k].id) &&
      GetMergedRoster(once, Parsed(overrides)) == once
  {
    var once := GetMergedRoster(roster, Parsed(overrides));
    var twice := GetMergedRoster(once, Parsed(overrides));
    forall k | 0 <= k < |roster| ensures once[k].id == roster[k].id && twice[k] == once[k] {
      var id := roster[k].id;
      if id in overrides {
        ApplyPatchLaws(roster[k], roster[k], overrides[id]);
      }
    }
  }
}
