# Corporate card album: collection state engine

This project models the core of a browser card-collecting album in Dafny. In the
album, the employees of a company are cards. A registered user opens packs of
five cards and keeps one entry per owned card plus a count of spare copies.
Three spare copies can be burned for a card the user does not own yet, and
achievements grant extra packs. The album is shown as a book of department
pages.

The model follows the program file by file:

- `types.dfy` (module `Types`): the departments, the rarities, the card, the
  achievement and the user state.
- `achievements.dfy` (module `Achievements`): the achievement catalogue and
  the check that reports newly unlocked achievements.
- `app.dfy` (module `App`): the shell's state updaters. These are opening a
  pack, the burn trade, the achievement grant effect, registration, the
  daily-pack gate and the completion percentage. Each updater is a method
  from the previous user state to the next one, proved equal to a function
  that specifies it. Lemmas about that function give the invariant: every id
  with spare copies is owned, and every spare count is at least one.
- `tradecenter.dfy` (module `TradeCenter`): the trade screen's duplicate
  list, its missing-card list, the selection toggle and the burn decision,
  with the screen's state as a class.
- `packopening.dfy` (module `PackOpening`): the reveal overlay's phase
  machine and its new/repeated flag.
- `album.dfy` (module `Album`): one department page: cards sorted by id, the
  owned count, the rounded progress and the per-card count.
- `book.dfy` (module `Book`): splitting into pages of six, the page list
  (cover, department pages, back cover, padding blank), and the two-page
  navigation as a class.
- `roster.dfy` (module `Roster`): the fixed starter cards, the fallback
  roster, the expansion of generated entries to 250 cards, and the merge of
  stored admin overrides. The expansion loop's catch is modelled twice: as
  written, and corrected (see "Findings"); the roster the rest of the model
  uses is the corrected one.
- `adminpanel.dfy` (module `AdminPanel`): the admin list filter, the image
  resize rule and the edit form as a class.
- `builtins.dfy` (module `Builtins`): sequence filtering, sub-sequences,
  distinctness, substring search, decimal rendering and rounding. These are
  shared helpers.

JavaScript behaviour is written out explicitly:

- `x || 0` on a missing map key becomes `GetOr`.
- `Math.round((a / b) * 100)` becomes the integer `(200a + b) / (2b)`, which
  rounds exact halves up as `Math.round` does for non-negative values.
- The falsy check `!user.lastPackOpened` treats both `null` and `0` as
  "never opened".
- Randomness (`Math.random` picks, fresh card power), the clock and the
  outcome of the roster generation request are parameters.

Where the written description of the app and the code disagree, the model
follows the code:

- The trade updater does not reject a bad selection. Ids without a spare
  copy are skipped and the gained card is still granted
  (`App.TradeSkipsMissingDuplicates`). It does not fail with an
  "invalid selection" error leaving the state unchanged.
- The daily-pack gate of the shipped build always answers yes. The 24-hour
  cooldown exists only as commented-out code. Both are kept as the
  `DailyPolicy` values `AlwaysAvailable` (the build) and `Cooldown(ms)`.
- Owning 5 of 10 cards unlocks `halfway_there` (at least half), besides
  `first_step` and, when the legendary card is among them, `legend_hunter`.

## Model

| member | source | states |
|---|---|---|
| Types.DepartmentsEnumerated | types.ts:2-11 | there are eight departments, listed without repeats in declaration order; each display value maps back to its department |
| Types.DepartmentValueInjective | types.ts:2-11 | two departments with the same display value are the same department |
| Types.DepartmentIndex | types.ts:2-11 | every department sits at its index in the declaration-order list |
| Types.RaritiesEnumerated | types.ts:13-18 | there are four rarities, listed without repeats |
| Types.RarityIndex | types.ts:13-18 | every rarity sits at its index in the declaration-order list |
| Types.DepartmentValue | types.ts:2-11 | the display string of each department, as in the enum (no contract of its own; `Types.DepartmentValueInjective` and `Types.DepartmentsEnumerated` state its properties) |
| Types.RarityValue | types.ts:13-18 | the display string of each rarity, as in the enum |
| Achievements.CatalogueIds | services/achievements.ts:4-82 | the catalogue's ids in order: first_step, the eight department completions, legend_hunter, halfway_there |
| Achievements.CatalogueIdsDistinct | services/achievements.ts:4-82 | the catalogue has 11 entries with distinct ids |
| Achievements.CatalogueRewards | services/achievements.ts:4-82 | the reward of each entry: 1 pack for first_step and halfway_there, 2 for each department completion, 3 for legend_hunter |
| Achievements.CatalogueRewardsPositive | services/achievements.ts:4-82 | every shipped entry rewards at least one pack |
| Achievements.ShippedRewardsPositive | services/achievements.ts:4-82 | the shipped catalogue satisfies the positive-reward condition used by the grant lemmas |
| Achievements.CatalogueCoversDepartments | services/achievements.ts:97-120 | each department has its completion entry, right after first_step in department order |
| Achievements.CardsOf | services/achievements.ts:138 | the department's cards are exactly the roster cards of that department, in roster order |
| Achievements.DeptComplete | services/achievements.ts:137-141 | `checkDeptComplete`: false for a department without cards, otherwise whether every card of it is owned (meaning proved by `Achievements.DeptCompleteMeaning`) |
| Achievements.DeptCompleteMeaning | services/achievements.ts:137-141 | a department is complete iff it has at least one card and every one of its cards is owned |
| Achievements.DepartmentRuleHolds | services/achievements.ts:97-120 | each department-completion id evaluates the completion test of its department |
| Achievements.DepartmentRule | services/achievements.ts:97-120 | the department each of the eight completion ids checks; none for any other id |
| Achievements.RuleHolds | services/achievements.ts:91-127 | the switch for one id: first_step on a non-empty collection, the department rules, legend_hunter on an owned legendary card, halfway_there on twice the owned set reaching the roster size, false for other ids (stated per case by the `...Rule` lemmas) |
| Achievements.EvaluateRule | services/achievements.ts:91-127 | the switch over an achievement id yields the rule of that id; an unknown id never unlocks |
| Achievements.CheckCatalogue | services/achievements.ts:84-135 | the loop over a catalogue returns the ids of entries not yet unlocked whose rule holds, in catalogue order |
| Achievements.CheckAchievements | services/achievements.ts:84-135 | checkAchievements over the shipped catalogue returns exactly the newly unlockable ids |
| Achievements.NewUnlocks | services/achievements.ts:84-135 | the specification of the check: the catalogue ids, in order, that are not unlocked and whose rule holds (its properties are the `NewUnlocks...` lemmas) |
| Achievements.NewUnlocksMember | services/achievements.ts:88-132 | an id is reported iff it is a catalogue id, not already unlocked, and its rule holds |
| Achievements.NewUnlocksFresh | services/achievements.ts:89 | no already unlocked id is reported again |
| Achievements.NewUnlocksOrdered | services/achievements.ts:88-134 | reported ids appear in catalogue order and are distinct when the catalogue ids are |
| Achievements.NewUnlocksIdempotent | services/achievements.ts:89-131 | after adding the reported ids to the unlocked list, the same check reports nothing |
| Achievements.FirstStepRule | services/achievements.ts:94-96 | first_step is reported iff it is not yet unlocked and the collection is non-empty |
| Achievements.LegendHunterRule | services/achievements.ts:121-123 | legend_hunter is reported iff it is not yet unlocked and some legendary roster card is owned |
| Achievements.HalfwayRule | services/achievements.ts:124-126 | halfway_there is reported iff it is not yet unlocked, the roster is non-empty, and at least half as many distinct ids are owned as there are roster cards |
| Achievements.DepartmentRuleReported | services/achievements.ts:97-120 | a department's completion entry is reported iff it is not yet unlocked and that department is complete |
| Achievements.RewardTotalBounds | App.tsx:56-60 | with positive rewards the pack total of the unlocked entries is never negative, and is at least one when any catalogue entry was unlocked |
| Achievements.FirstUnlockedEntry | App.tsx:56-69 | when something unlocks, the list of unlocked entries is non-empty and its first element (the toast) is a catalogue entry whose id was reported |
| App.InitialUser | App.tsx:17-29 | the fresh user state is consistent and holds no copies |
| App.AddCopy | App.tsx:110-116 | one drawn card adds exactly one copy of its id and changes no other id's copies; it keeps every owned id and adds only that id; it keeps the state consistent |
| App.AddCopyTotal | App.tsx:110-116 | one drawn card raises the total number of copies by one |
| App.FoldDraws | App.tsx:110-116 | the holdings after adding one copy per drawn id, in draw order (properties in `App.FoldDrawsCopies`, `App.FoldDrawsShape`, `App.FoldDrawsTotal`) |
| App.FoldDrawsCopies | App.tsx:106-125 | after a pack each id has its old copies plus the number of times it was drawn |
| App.FoldDrawsShape | App.tsx:106-125 | a pack keeps every owned id, owns every drawn id, adds no other id and keeps the state consistent |
| App.FoldDrawsTotal | App.tsx:106-125 | a pack raises the total number of copies by the pack size |
| App.DrawnWhileUnowned | App.tsx:110-116 | a card unowned before the pack ends up owned, with spare copies one fewer than its draws |
| App.DrawPack | App.tsx:96-101 | the pack has five cards, each the roster card at the given random index |
| App.FoldPack | App.tsx:106-117 | the forEach over the pack is the fold of one added copy per drawn card |
| App.OpenPack | App.tsx:87-126 | an empty roster, or no daily pack and no inventory, leaves the state unchanged with no pack; otherwise five roster cards are drawn and the state becomes the pack's successor state |
| App.AfterPack | App.tsx:106-125 | the state the pack updater returns: the folded holdings, the time stamped for a daily pack, one pack spent for an inventory pack (properties in `App.PackKeepsInvariant` and `App.PackCharging`) |
| App.PackKeepsInvariant | App.tsx:106-125 | on a consistent state a pack keeps the state consistent, adds one copy per drawn card, keeps owned ids, and adds only drawn ids |
| App.PackCharging | App.tsx:118-124 | a daily pack stamps the time and keeps the inventory; an inventory pack keeps the stamp and costs exactly one pack, never going below zero |
| App.BuildNeverCharges | App.tsx:157-158 | with the shipped always-open gate every pack is daily and the inventory never drops |
| App.CanOpenDailyPack | App.tsx:157-162 | the daily gate: always open in the shipped build; under the commented-out cooldown, open when never opened (null or 0) or when strictly more than the cooldown has passed (properties in `App.BuildNeverCharges`, `App.CooldownAfterDailyPack`, `App.CooldownMonotone`) |
| App.CooldownAfterDailyPack | App.tsx:157-162 | under a cooldown, after a daily pack the gate reopens exactly when strictly more than the cooldown has passed |
| App.CooldownMonotone | App.tsx:157-162 | once open, the gate stays open as time passes |
| App.SpendDuplicate | App.tsx:133-138 | one lost id with spare copies loses one copy (the entry is dropped at zero); an id without spare copies is skipped; no other id changes; positive counts stay positive |
| App.SpendAll | App.tsx:133-138 | the spare counts after spending each lost id in order (properties in `App.SpendAllPointwise`, `App.SpendAllTotal`) |
| App.SpendAllPointwise | App.tsx:130-138 | after the loop each id's spare count is its old count minus its occurrences in the lost list, floored at zero |
| App.SpendAllTotal | App.tsx:130-138 | when every listed copy is present, the total spare count drops by the number of lost ids |
| App.HandleTrade | App.tsx:128-154 | the trade updater computes the trade's successor state |
| App.AfterTrade | App.tsx:128-154 | the state the trade updater returns: lost spares spent, then one copy of the gained card added (properties in `App.TradeKeepsInvariant`, `App.TradeConservation`) |
| App.TradeKeepsInvariant | App.tsx:128-154 | on a consistent state a trade keeps it consistent, owns the gained card, keeps every owned id, and leaves uninvolved ids' copies alone |
| App.TradeConservation | App.tsx:128-154 | when all listed copies exist and the gained card is new, the gained id is appended and the total copies drop by the lost count minus one |
| App.TradeSkipsMissingDuplicates | App.tsx:133-138 | with one spare copy of card 1, trading [1, 1, 2] for card 3 spends one copy, skips the rest, and still grants card 3 |
| App.SumPacks | App.tsx:58-60 | the forEach sums the rewards of the unlocked entries |
| App.GrantAchievements | App.tsx:62-66 | the grant updater appends the new ids and adds the summed reward to the inventory |
| App.AfterGrant | App.tsx:62-66 | the granted state: the new ids appended and their summed reward added to the inventory |
| App.EffectState | App.tsx:51-72 | the state after the achievement effect: unchanged when unregistered, loading or nothing new unlocks, otherwise the granted state (properties in `App.EffectIdempotent`, `App.EffectMonotone`, `App.EffectRewards`) |
| App.AchievementEffect | App.tsx:51-72 | unregistered or loading: nothing happens; otherwise the newly unlocked ids are granted, and a toast shows the first of the newly unlocked catalogue entries, in catalogue order, exactly when there is one |
| App.EffectIdempotent | App.tsx:51-72 | running the effect again on its own result with the same collection and roster changes nothing |
| App.EffectMonotone | App.tsx:51-72 | with distinct ids and positive rewards the effect never removes an achievement or a pack, keeps the unlocked ids distinct, and leaves the holdings alone |
| App.EffectRewards | App.tsx:55-66 | with positive rewards an effect that changes the state adds at least one pack |
| App.ShippedCatalogueFits | services/achievements.ts:4-82 | the shipped catalogue has distinct ids and positive rewards |
| App.RegisterKeepsProgress | App.tsx:75-85 | registration records the user, sets the inventory to exactly one pack, and keeps collection, duplicates, achievements, timestamp and consistency |
| App.HandleRegister | App.tsx:75-85 | the registration updater: name and email recorded, registered, inventory set to one pack (properties in `App.RegisterKeepsProgress`) |
| App.CompletionBounds | App.tsx:164-166 | with distinct owned roster ids the completion lies in 0..100 and is the owned ratio rounded half up |
| App.CompletionPercentage | App.tsx:164-166 | the owned-entry count over the roster size as a rounded percentage, 0 for an empty roster (bounds in `App.CompletionBounds`) |
| TradeCenter.DuplicateCards | components/TradeCenter.tsx:24 | the duplicates list is exactly the roster cards with a positive spare count, in roster order |
| TradeCenter.HasSpare | components/TradeCenter.tsx:24 | the duplicates filter test: a spare count above zero, a missing entry counting as zero |
| TradeCenter.MissingCards | components/TradeCenter.tsx:38 | the missing list is exactly the roster cards whose id is not owned, in roster order |
| TradeCenter.NotOwned | components/TradeCenter.tsx:38 | the missing filter test: the id is not in the collection |
| TradeCenter.ToggleSelection | components/TradeCenter.tsx:26-34 | a selected id is removed; an unselected id is appended when fewer than three are selected and ignored otherwise |
| TradeCenter.ToggleKeepsSelectionOk | components/TradeCenter.tsx:26-34 | the selection stays at most three distinct ids |
| TradeCenter.ToggleTwice | components/TradeCenter.tsx:26-34 | selecting an unselected id while there is room and then toggling it again restores the selection |
| TradeCenter.BurnDecision | components/TradeCenter.tsx:36-50 | all owned: no trade; otherwise a selection of size other than three: no trade; otherwise the three selected ids are traded for the picked missing card, which is unowned |
| TradeCenter.TradeCenterView.constructor | components/TradeCenter.tsx:20-22 | the screen starts with an empty selection |
| TradeCenter.TradeCenterView.HandleSelectDupe | components/TradeCenter.tsx:26-34 | the selection becomes the toggled selection |
| TradeCenter.TradeCenterView.HandleBurnTrade | components/TradeCenter.tsx:36-50 | a trade is forwarded and the selection cleared exactly when the burn decision trades; otherwise nothing is forwarded and the selection stays |
| TradeCenter.BurnTradeNetEffect | components/TradeCenter.tsx:44-47 | three distinct ids with spare copies, traded on a consistent state, keep it consistent, append the new card and leave two copies fewer in total |
| PackOpening.GetCardCount | components/PackOpening.tsx:39-44 | the shown count is the number of copies held: one for an owned id plus its spare count |
| PackOpening.SummaryTiles | components/PackOpening.tsx:99-110 | one tile per drawn card in draw order, each with its copy count and marked new iff that count is one |
| PackOpening.NewFlagMeaning | components/PackOpening.tsx:60-63 | read after the pack, a card is flagged new iff it was not owned before and was drawn exactly once in the pack |
| PackOpening.IsNew | components/PackOpening.tsx:63 | a card is flagged new exactly when its copy count is one (meaning in `PackOpening.NewFlagMeaning`) |
| PackOpening.PackOpeningView.constructor | components/PackOpening.tsx:14-16 | the overlay starts idle at the first card |
| PackOpening.PackOpeningView.MountTimerFires | components/PackOpening.tsx:18-22 | the mount timer moves idle to shaking |
| PackOpening.PackOpeningView.ShakeTimerFires | components/PackOpening.tsx:24-29 | the shake timer moves shaking to revealing |
| PackOpening.PackOpeningView.HandleNextCard | components/PackOpening.tsx:31-37 | a tap advances to the next card, or from the last card to the summary; the phase never goes back |
| PackOpening.PackOpeningView.RevealedCard | components/PackOpening.tsx:60-63 | the revealed tile is the current card with its copy count, flagged new iff the count is one |
| Album.InsertById | components/AlbumPage.tsx:14 | inserting into a sorted list keeps it sorted and adds exactly that card |
| Album.SortById | components/AlbumPage.tsx:14 | the sort yields an id-ascending permutation of its input |
| Album.DeptCards | components/AlbumPage.tsx:14 | the page's cards are exactly the department's roster cards, sorted by id, with their multiplicities |
| Album.OwnedCount | components/AlbumPage.tsx:15 | the owned count is at most the page size, equals it iff every card is owned, and is 0 iff none is |
| Album.Progress | components/AlbumPage.tsx:16 | for a non-empty department the progress is in 0..100, is the owned share rounded half up, and is 100 when all are owned |
| Album.DisplayCountIsCopies | components/AlbumPage.tsx:70 | on a consistent state the count shown on an owned card is its number of copies |
| Album.DisplayCount | components/AlbumPage.tsx:70 | the shown count: spare count plus one when the spare entry is truthy, otherwise 1 (meaning in `Album.DisplayCountIsCopies`) |
| Album.Slots | components/AlbumPage.tsx:65-72 | one slot per card in order, owned iff its id is owned, showing the displayed count |
| Album.AlbumSlots | components/AlbumPage.tsx:65-72 | on a consistent state each slot shows a department card in id order, an owned card with its copy count, and an unowned card with count 1 |
| Book.ChunkArray | components/Book.tsx:12-18 | the chunking loop returns the chunks of the list |
| Book.Chunks | components/Book.tsx:12-18 | the chunks of a list: the first `size` elements, then the chunks of the rest (properties in the `Chunk...` lemmas) |
| Book.ChunksFlatten | components/Book.tsx:12-18 | concatenating the chunks gives back the list |
| Book.ChunkAt | components/Book.tsx:12-18 | chunk k is the slice from k*size to the lesser of (k+1)*size and the length |
| Book.ChunksCount | components/Book.tsx:12-18 | there are length/size chunks, rounded up |
| Book.ChunkShape | components/Book.tsx:12-18 | every chunk is non-empty and at most size long, and every chunk but the last is full |
| Book.PushChunkPages | components/Book.tsx:48-98 | the chunk loop appends one department page per chunk |
| Book.PushSections | components/Book.tsx:44-99 | the department loop appends each department's pages in order |
| Book.DeptSection | components/Book.tsx:45-98 | a department's pages: one per chunk of its id-sorted cards, numbered with the chunk count |
| Book.BuildPages | components/Book.tsx:27-115 | the page builder returns the page list of the book |
| Book.PageList | components/Book.tsx:27-115 | the book: the department sections in enum order, bound between the covers (properties in `Book.PagesWellFormed`, `Book.BookShowsEveryCardOnce`) |
| Book.Bind | components/Book.tsx:101-112 | cover, the given pages, back cover, and a blank page when the count is odd (properties in `Book.BindShape`) |
| Book.BindShape | components/Book.tsx:101-112 | the book starts with the cover, ends with the back cover or a blank after it, has an even page count of at least two, and has only department pages between |
| Book.DeptSectionCards | components/Book.tsx:45-46 | a department's pages show exactly its cards sorted by id |
| Book.BookShowsEveryCardOnce | components/Book.tsx:44-99 | the book shows every roster card exactly as often as it is in the roster |
| Book.DeptSectionWellFormed | components/Book.tsx:45-98 | each department page has 1 to 6 cards of its department sorted by id, a page number below its page count, and is full unless last |
| Book.SectionsWellFormed | components/Book.tsx:44-99 | every page of the department sections is a well-formed page of a listed department |
| Book.PagesWellFormed | components/Book.tsx:27-115 | the full book has the cover/back-cover shape and all its department pages are well formed |
| Book.SpreadOf | components/Book.tsx:170-190 | every page of an even-length book is shown on the left or right of some reachable even spread index |
| Book.SpreadAt | components/Book.tsx:170-190 | what an index shows: at 0 the cover alone; elsewhere the previous page or a blank on the left and the page at the index, if any, on the right |
| Book.BookView.constructor | components/Book.tsx:23-24 | the book opens at the cover, not turning |
| Book.BookView.TurnPage | components/Book.tsx:118-134 | ignored while turning; otherwise a turn starts forward below the last page or backward above the cover, and the index stays even within the book |
| Book.BookView.FlipTimerFires | components/Book.tsx:123-132 | the turn moves the index by two pages and ends |
| Roster.StarterCards | services/geminiService.ts:9-82 | the seven fixed cards have ids 1 to 7 and follow the department cycle from DIRECTION to IT |
| Roster.StarterCardRanks | services/geminiService.ts:9-82 | the fixed cards' rarities are legendary, epic, epic, rare, rare, common, common, and their powers are 99, 95, 92, 88, 85, 80, 78, falling strictly |
| Roster.StarterCardTexts | services/geminiService.ts:9-82 | card n has name "Nombre Tarjeta n", role "Puesto n", the placeholder image numbered n and the description numbered n |
| Roster.FallbackRarityTiers | services/geminiService.ts:94 | legendary iff the index is a multiple of 20, epic iff of 10 but not 20, rare iff of 5 but not 10, common otherwise |
| Roster.FallbackRarity | services/geminiService.ts:94 | the nested rarity ternary on the roster position (tiers in `Roster.FallbackRarityTiers`) |
| Roster.FallbackCard | services/geminiService.ts:84-99 | fallback card i at position i+7: id, numbered name, department-based role, department i+7 mod 8, tiered rarity, seeded image, fixed description, power from the module-load draws |
| Roster.FallbackRoster | services/geminiService.ts:84-99 | FALLBACK_ROSTER: the 243 fallback cards in order |
| Roster.DefaultRoster | services/geminiService.ts:105-107 | the fixed cards followed by FALLBACK_ROSTER (layout in `Roster.DefaultRosterLayout`) |
| Roster.DefaultRosterLayout | services/geminiService.ts:84-99 | the offline roster has 250 cards, card k with id k+1, department k mod 8, and the tiered rarity past the fixed cards |
| Roster.DefaultRosterCoversDepartments | services/geminiService.ts:84-99 | every department has a card in the offline roster |
| Roster.StripWhitespace | services/geminiService.ts:156 | removing whitespace keeps exactly the characters that are not JavaScript whitespace |
| Roster.StripWhitespaceKeepsOthers | services/geminiService.ts:156 | each whitespace character is deleted, and every other character is kept as often as it occurs and in its order (a subsequence with the same counts) |
| Roster.TemplateOf | services/geminiService.ts:144 | the template of slot i: generated entry i mod length, or fallback card i when the list is empty |
| Roster.ExpandedCard | services/geminiService.ts:141-157 | the card pushed for slot i: id i+8, clone name suffix and fresh power past the end of the list, image seeded by the whitespace-free name and id (properties in `Roster.GeneratedRosterCard`, `Roster.EmptyResponseClones`) |
| Roster.Expansion | services/geminiService.ts:138-158 | the cards of all 243 expansion slots |
| Roster.ThrowSlotFirst | services/geminiService.ts:138-158 | the loop throws at the slot `ThrowSlot` gives and at no earlier slot: the first slot that reads the malformed entry, which is that entry's index in the list |
| Roster.ExpandRoster | services/geminiService.ts:138-158 | the loop pushes the expansion's cards in order, one per slot, and throws exactly when it reaches a slot reading the malformed entry, having pushed the cards of the slots before it |
| Roster.RosterOf | services/geminiService.ts:101-166 | the intended roster of each outcome: fixed cards plus expansion for a list the loop completes, fixed cards plus fallback otherwise |
| Roster.RosterAsWritten | services/geminiService.ts:160-165 | the roster as the source's catch builds it: a throw inside the loop keeps the cards already pushed and appends the fallback cards |
| Roster.FetchCompanyRoster | services/geminiService.ts:101-166 | no key, a failure before the loop or a throw inside it gives the offline roster; a list the loop completes gives the fixed cards plus the expansion |
| Roster.RosterIds | services/geminiService.ts:101-166 | whatever the outcome, the roster has 250 cards and card k has id k+1 |
| Roster.RosterIdsDistinct | services/geminiService.ts:101-166 | no two roster cards share an id |
| Roster.ExpansionIds | services/geminiService.ts:141-149 | expansion slot i holds id i+8 |
| Roster.MalformedEntryRepeatsIds | services/geminiService.ts:160-165 | as written, a malformed entry at index 1..242 gives 250+index cards, the first expanded and the first fallback card both with id 8; the intended roster is the offline one |
| Roster.RosterAsWrittenAgrees | services/geminiService.ts:101-166 | unless the loop throws, the source's roster is the intended one |
| Roster.GeneratedRosterCard | services/geminiService.ts:141-157 | a generated slot takes its template cyclically; first-pass cards keep name and power; clones get the id suffix and a fresh power draw |
| Roster.EmptyResponseClones | services/geminiService.ts:144-156 | with an empty response each slot clones its offline card (id, role, department, rarity) with the id-suffixed name and a fresh power draw |
| Roster.ApplyPatch | services/geminiService.ts:177 | for each of the eight fields, a value present in the override wins and an absent one keeps the card's value |
| Roster.ApplyPatchLaws | services/geminiService.ts:177 | a complete override replaces the card, and applying an override twice equals applying it once |
| Roster.GetMergedRoster | services/geminiService.ts:169-185 | length kept; absent or unparsable overrides change nothing; otherwise a card with an override is patched and every other card stays |
| Roster.MergeIdempotent | services/geminiService.ts:169-185 | when every override keeps the id it is stored under, the merge keeps each card's id and merging twice equals merging once |
| AdminPanel.FilteredRoster | components/AdminPanel.tsx:102-106 | the list is the roster cards in order that match both the search and the department filter |
| AdminPanel.MatchesSearch | components/AdminPanel.tsx:103 | the lower-cased name contains the lower-cased term, or the decimal id contains the term as typed |
| AdminPanel.MatchesDept | components/AdminPanel.tsx:104 | the filter is ALL or equals the card's department value |
| AdminPanel.EmptySearchListsAll | components/AdminPanel.tsx:102-106 | an empty search with the ALL filter lists the whole roster |
| AdminPanel.IdSearchFinds | components/AdminPanel.tsx:103 | a card whose decimal id contains the term is listed when its department passes |
| AdminPanel.DeptFilterSelects | components/AdminPanel.tsx:104 | a department filter lists only that department; a filter that is neither ALL nor a department lists nothing |
| AdminPanel.ResizeDimensions | components/AdminPanel.tsx:41-48 | an image at most 500 wide is kept; a wider one gets width 500 and the proportional height rounded half up; the height never grows |
| AdminPanel.FindCard | components/AdminPanel.tsx:25 | the find returns the first roster card with the id, or none when no card has it |
| AdminPanel.AdminPanelView.constructor | components/AdminPanel.tsx:13-19 | the panel opens with nothing selected and an empty preview |
| AdminPanel.AdminPanelView.SelectCard | components/AdminPanel.tsx:23-31 | the clicked id becomes the selection; the effect, keyed on the selected id, runs only when that id changes: a new non-zero id found in the roster loads that card and its image, while re-selecting the current card (keeping an uploaded image), a zero id or an unknown id leaves the form and the preview unchanged |
| AdminPanel.AdminPanelView.ImageUploaded | components/AdminPanel.tsx:67-82 | with a form loaded the resized image replaces the form image and the preview; otherwise nothing changes |
| AdminPanel.AdminPanelView.HandleSave | components/AdminPanel.tsx:94-99 | the form is forwarded exactly when one is loaded |

## Left out

- The roster generation request: the API key, the model call, its prompt, and the JSON parse of the response. They become the parameter `ProviderOutcome`: no key, a failure before the loop, a parsed list whose entries follow the schema, or a parsed list with one entry the loop cannot read (`null`, or no string `name`).
- Roster.FetchCompanyRoster, Roster.RosterIds, Roster.RosterIdsDistinct: a parsed response that is not an array, an entry that is malformed in a way that does not throw (a missing role or description, a department or rarity outside the schema's enumerations, read through the `as` casts), and more than one malformed entry are not modelled; only the first malformed entry the loop reaches matters to the source.
- localStorage: loading and persisting the user, and reading the override store. The store's content is the parameter `StoredOverrides` (absent, unparsable, or parsed). Stored values that are not objects are not modelled.
- Randomness and time: `Math.random` picks, card power and `Date.now()` are parameters (`picks`, `pick`, `now`; `fallbackPower` for the draws made when FALLBACK_ROSTER is built, `clonePower` for the draws made for clones).
- Timers: setTimeout delays, the 5-second toast dismissal and timer cancellation on unmount. A timer firing is a method call.
- Rendering: JSX, CSS, Card.tsx, the mock "global market" view, the department icon tables and alert texts.
- The canvas image pipeline: file reading, drawing and JPEG encoding. Only the dimension rule (`ResizeDimensions`) is modelled.
- AdminPanel form edits other than the image (`handleInputChange` with `parseInt` on power) are not modelled.
- `toLowerCase` is the parameter `lower`; there is no Unicode case mapping.
- Closures reading `user` and updaters reading `prev` are modelled over one state. React state batching and stale closures are not captured.
- `App.AchievementEffect` and the grant lemmas are stated over any catalogue `cat`. `App.ShippedCatalogueFits` discharges their conditions for the shipped one.
- `Album.Progress` requires a non-empty department. For an empty department the source computes `0/0` (NaN), which has no integer model.
- PackOpening.PackOpeningView.RevealedCard: requires a non-empty pack. On an empty pack the source would read `undefined`.
- The PackOpening methods `MountTimerFires`, `ShakeTimerFires` and `HandleNextCard` require the phase in which their timer or tap can occur.
- The application shell renders PackOpening without `userCollection` and `userDuplicates`. The model passes both in as if they were supplied.
- Roster.MergeIdempotent: stated for overrides that do not change a card's id. An override that rewrites the id could make a second merge pick a different override.
- Floating point: ratios such as `ownedSet.size / roster.length >= 0.5` and `Math.round` are restated as exact integer comparisons for non-negative operands.
- App.CompletionPercentage, Album.Progress: the source computes `Math.round((a / b) * 100)` in binary floating point, where the division and the product each round. When the exact percentage ends in .5, the product can fall just below the half. For 29 of 200, it gives 14.499999999999998, which rounds to 14, while the exact model gives 15. The model rounds the exact quotient.

## Findings

| source | as written | input that shows it | evidently intended | confidence | as-written member | corrected member |
|---|---|---|---|---|---|---|
| services/geminiService.ts:160-165 | when an entry read inside the expansion loop throws, the catch returns `[...finalRoster, ...FALLBACK_ROSTER]`, and `finalRoster` already holds the fixed cards and the cards pushed before the throw | a parsed list of at least two entries whose entry 1 is `null`: 251 cards, with id 8 on both the first expanded card and the first fallback card | the offline roster, the fixed cards followed by FALLBACK_ROSTER, with 250 distinct ids | not executed; the input needs a response that breaks the response schema | Roster.RosterAsWritten, Roster.MalformedEntryRepeatsIds | Roster.RosterOf, Roster.FetchCompanyRoster, Roster.RosterIdsDistinct |
