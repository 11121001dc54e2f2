/** The flip-book view of the album: the cards of each department split into
    pages of six, bracketed by a cover and a back cover and padded to an even
    number of pages, and the two-page spread the reader turns through. */
module Book {
  import opened Types
  import opened Builtins
  import opened Achievements
  import opened Album

  const CARDS_PER_PAGE: nat := 6

  function Min(a: int, b: int): int
  {
    if a <= b then a else b
  }

  /** `chunkArray`: consecutive slices of `size` elements, the last one cut at
      the end of the input. */
  function Chunks<T>(arr: seq<T>, size: nat): seq<seq<T>>
    requires size > 0
    decreases |arr|
  {
    if arr == [] then []
    else [arr[..Min(size, |arr|)]] + Chunks(arr[Min(size, |arr|)..], size)
  }

  /** The concatenation of a list of lists. */
  function Flatten<T>(ss: seq<seq<T>>): seq<T>
  {
    if ss == [] then [] else ss[0] + Flatten(ss[1..])
  }

  /** `chunkArray` keeps every element, in order. */
  lemma {:induction false} ChunksFlatten<T>(arr: seq<T>, size: nat)
    requires size > 0
    ensures Flatten(Chunks(arr, size)) == arr
    decreases |arr|
  {
    if arr != [] {
      var m := Min(size, |arr|);
      ChunksFlatten(arr[m..], size);
      assert arr == arr[..m] + arr[m..];
    }
  }

  /** Where chunk `k` starts: `size` added `k` times. */
  function Offset(k: nat, size: nat): nat
  {
    if k == 0 then 0 else Offset(k - 1, size) + size
  }

  lemma {:induction false} OffsetIsProduct(k: nat, size: nat)
    ensures Offset(k, size) == k * size
  {
    if k > 0 {
      OffsetIsProduct(k - 1, size);
      assert (k - 1) * size + size == k * size;
    }
  }

  /** Chunk `k` is the slice that starts at `k * size` and holds `size`
      elements, or fewer at the end of the input. */
  lemma ChunkAt<T>(arr: seq<T>, size: nat, k: nat)
    requires size > 0 && k < |Chunks(arr, size)|
    ensures k * size < |arr|
    ensures Chunks(arr, size)[k] == arr[k * size .. Min(k * size + size, |arr|)]
  {
    ChunkAtOffset(arr, size, k);
    OffsetIsProduct(k, size);
  }

  lemma {:induction false} ChunkAtOffset<T>(arr: seq<T>, size: nat, k: nat)
    requires size > 0 && k < |Chunks(arr, size)|
    ensures Offset(k, size) < |arr|
    ensures Chunks(arr, size)[k] == arr[Offset(k, size) .. Min(Offset(k, size) + size, |arr|)]
    decreases |arr|
  {
    var m := Min(size, |arr|);
    var rest := arr[m..];
    assert Chunks(arr, size) == [arr[..m]] + Chunks(rest, size);
    if k > 0 {
      assert Chunks(arr, size)[k] == Chunks(rest, size)[k - 1];
      ChunkAtOffset(rest, size, k - 1);
      assert m == size;
      var a := Offset(k - 1, size);
      var e := Min(a + size, |rest|);
      assert Offset(k, size) == a + size;
      assert e + size == Min(Offset(k, size) + size, |arr|);
      SuffixSlice(arr, size, a, e);
    }
  }

  /** A slice of a suffix is a slice of the whole, shifted. */
  lemma SuffixSlice<T>(arr: seq<T>, m: nat, a: nat, e: nat)
    requires m <= |arr| && a <= e <= |arr| - m
    ensures arr[m..][a..e] == arr[m + a .. m + e]
  {
  }

  /** `chunkArray` yields `ceil(|arr| / size)` chunks. */
  lemma {:induction false} ChunksCount<T>(arr: seq<T>, size: nat)
    requires size > 0
    ensures |Chunks(arr, size)| == (|arr| + size - 1) / size
    decreases |arr|
  {
    if arr == [] {
      DivBounds(size - 1, size, 0, 1);
    } else if |arr| <= size {
      DivBounds(|arr| + size - 1, size, 1, 2);
    } else {
      var rest := arr[size..];
      assert Chunks(arr, size) == [arr[..size]] + Chunks(rest, size);
      ChunksCount(rest, size);
      DivStep(|rest| + size - 1, size);
      assert |arr| + size - 1 == (|rest| + size - 1) + size;
    }
  }

  /** Every chunk is non-empty and holds at most `size` elements; every chunk
      but the last holds exactly `size`. */
  lemma ChunkShape<T>(arr: seq<T>, size: nat, k: nat)
    requires size > 0 && k < |Chunks(arr, size)|
    ensures 0 < |Chunks(arr, size)[k]| <= size
    ensures k + 1 < |Chunks(arr, size)| ==> |Chunks(arr, size)[k]| == size
  {
    ChunkAtOffset(arr, size, k);
    if k + 1 < |Chunks(arr, size)| {
      ChunkAtOffset(arr, size, k + 1);
    }
  }

  /** The loop of `chunkArray`: `arr.slice(i, i + size)` pushed for
      `i = 0, size, 2 * size, ...` while `i < arr.length`. */
  method ChunkArray<T>(arr: seq<T>, size: nat) returns (res: seq<seq<T>>)
    requires size > 0
    ensures res == Chunks(arr, size)
  {
    res := [];
    var i := 0;
    while i < |arr|
      invariant 0 <= i
      invariant res + Chunks(arr[Min(i, |arr|)..], size) == Chunks(arr, size)
    {
      ChunksFrom(arr, size, i);
      res := res + [arr[i .. Min(i + size, |arr|)]];
      i := i + size;
    }
    assert arr[Min(i, |arr|)..] == [];
  }

  /** The chunks of a suffix: its first chunk, then the chunks after it. */
  lemma ChunksFrom<T>(arr: seq<T>, size: nat, i: nat)
    requires size > 0 && i < |arr|
    ensures Chunks(arr[i..], size) ==
      [arr[i .. Min(i + size, |arr|)]] + Chunks(arr[Min(i + size, |arr|)..], size)
  {
    var rest := arr[i..];
    var m := Min(size, |rest|);
    assert rest[..m] == arr[i .. Min(i + size, |arr|)];
    assert rest[m..] == arr[Min(i + size, |arr|)..];
  }

  /** One page of the book. A department page carries its place among the
      department's pages and the slots of its cards. */
  datatype Page =
    | Cover(owner: string)
    | DeptPage(dept: Department, pageIdx: nat, pageCount: nat, slots: seq<Slot>)
    | BackCover
    | Blank

  /** The pages made from a department's chunks, numbered from `first`. */
  function ChunkPages(dept: Department, chunks: seq<seq<Card>>, first: nat, count: nat,
                      ownedIds: seq<int>, duplicates: map<int, int>): seq<Page>
  {
    seq(|chunks|, k requires 0 <= k < |chunks| =>
      DeptPage(dept, first + k, count, Slots(chunks[k], ownedIds, duplicates)))
  }

  /** The pages of one department: its sorted cards, six to a page. */
  function DeptSection(roster: seq<Card>, dept: Department, ownedIds: seq<int>,
                       duplicates: map<int, int>): seq<Page>
  {
    var chunks := Chunks(DeptCards(roster, dept), CARDS_PER_PAGE);
    ChunkPages(dept, chunks, 0, |chunks|, ownedIds, duplicates)
  }

  /** The pages of each department, taken from the current roster and user. */
  function SectionOf(roster: seq<Card>, ownedIds: seq<int>, duplicates: map<int, int>): Department -> seq<Page>
  {
    (dept: Department) => DeptSection(roster, dept, ownedIds, duplicates)
  }

  /** The department pages, department after department in the given order. */
  function Sections(depts: seq<Department>, section: Department -> seq<Page>): seq<Page>
  {
    if depts == [] then []
    else section(depts[0]) + Sections(depts[1..], section)
  }

  /** `pages`: the cover, the departments in enumeration order, the back cover,
      and one blank page when that count is odd. */
  function PageList(owner: string, roster: seq<Card>, ownedIds: seq<int>,
                    duplicates: map<int, int>): seq<Page>
  {
    Bind(owner, Sections(ALL_DEPARTMENTS, SectionOf(roster, ownedIds, duplicates)))
  }

  /** The department pages between the covers, padded to an even count. */
  function Bind(owner: string, sections: seq<Page>): seq<Page>
  {
    var body := [Cover(owner)] + sections + [BackCover];
    if |body| % 2 != 0 then body + [Blank] else body
  }

  lemma {:induction false} SectionsSnoc(depts: seq<Department>, dept: Department,
                                        section: Department -> seq<Page>)
    ensures Sections(depts + [dept], section) == Sections(depts, section) + section(dept)
  {
    if depts == [] {
      assert [dept][1..] == [];
    } else {
      assert (depts + [dept])[1..] == depts[1..] + [dept];
      SectionsSnoc(depts[1..], dept, section);
    }
  }

  /** `chunks.forEach(...)`: one page pushed per chunk, numbered from 0. */
  method PushChunkPages(pages: seq<Page>, dept: Department, chunks: seq<seq<Card>>,
                        ownedIds: seq<int>, duplicates: map<int, int>) returns (r: seq<Page>)
    ensures r == pages + ChunkPages(dept, chunks, 0, |chunks|, ownedIds, duplicates)
  {
    ghost var section := ChunkPages(dept, chunks, 0, |chunks|, ownedIds, duplicates);
    r := pages;
    var k := 0;
    while k < |chunks|
      invariant 0 <= k <= |chunks|
      invariant r == pages + section[..k]
    {
      var page := DeptPage(dept, k, |chunks|, Slots(chunks[k], ownedIds, duplicates));
      assert section[..k + 1] == section[..k] + [page];
      r := r + [page];
      k := k + 1;
    }
    assert section[..k] == section;
  }

  /** `Object.values(Department).forEach(...)`: each department's pages pushed
      in turn. */
  method PushSections(pages: seq<Page>, roster: seq<Card>, depts: seq<Department>,
                      ownedIds: seq<int>, duplicates: map<int, int>) returns (r: seq<Page>)
    ensures r == pages + Sections(depts, SectionOf(roster, ownedIds, duplicates))
  {
    ghost var section := SectionOf(roster, ownedIds, duplicates);
    r := pages;
    var d := 0;
    while d < |depts|
      invariant 0 <= d <= |depts|
      invariant r == pages + Sections(depts[..d], section)
    {
      var dept := depts[d];
      var chunks := ChunkArray(DeptCards(roster, dept), CARDS_PER_PAGE);
      PushSectionsStep(r, pages, depts, d, section);
      ghost var before := r;
      r := PushChunkPages(r, dept, chunks, ownedIds, duplicates);
      assert r == before + section(dept);
      d := d + 1;
    }
    assert depts[..d] == depts;
  }

  lemma PushSectionsStep(r: seq<Page>, pages: seq<Page>, depts: seq<Department>, d: nat,
                          section: Department -> seq<Page>)
    requires d < |depts|
    requires r == pages + Sections(depts[..d], section)
    ensures r + section(depts[d]) == pages + Sections(depts[..d + 1], section)
  {
    SectionsSnoc(depts[..d], depts[d], section);
    PrefixStep(depts, d);
  }

  /** The page list of the book: the cover, the department pages, the back
      cover and, when the count is odd, a blank page. */
  method BuildPages(owner: string, roster: seq<Card>, ownedIds: seq<int>,
                    duplicates: map<int, int>) returns (pages: seq<Page>)
    ensures pages == PageList(owner, roster, ownedIds, duplicates)
  {
    pages := PushSections([Cover(owner)], roster, ALL_DEPARTMENTS, ownedIds, duplicates);
    pages := pages + [BackCover];
    if |pages| % 2 != 0 {
      pages := pages + [Blank];
    }
  }

  /** The book opens on the cover, closes on the back cover (followed by at
      most one blank page) and always has an even number of pages; every page
      between the covers is a department page. */
  lemma {:induction false} BindShape(owner: string, sections: seq<Page>)
    requires forall p :: p in sections ==> p.DeptPage?
    ensures var pages := Bind(owner, sections);
      |pages| >= 2 && |pages| % 2 == 0 &&
      pages[0] == Cover(owner) &&
      (pages[|pages| - 1] == BackCover ||
       (pages[|pages| - 1] == Blank && pages[|pages| - 2] == BackCover)) &&
      (forall p :: p in pages && p.DeptPage? ==> p in sections)
  {
    var body := [Cover(owner)] + sections + [BackCover];
    assert forall p :: p in body ==> p == Cover(owner) || p in sections || p == BackCover;
  }

  /** The cards shown on a list of slots. */
  function SlotCards(slots: seq<Slot>): (r: seq<Card>)
    ensures |r| == |slots| && forall i :: 0 <= i < |r| ==> r[i] == slots[i].card
  {
    seq(|slots|, i requires 0 <= i < |slots| => slots[i].card)
  }

  /** The cards shown on a list of pages, page after page. */
  function PageCards(pages: seq<Page>): seq<Card>
  {
    if pages == [] then []
    else (if pages[0].DeptPage? then SlotCards(pages[0].slots) else []) + PageCards(pages[1..])
  }

  lemma {:induction false} PageCardsAppend(a: seq<Page>, b: seq<Page>)
    ensures PageCards(a + b) == PageCards(a) + PageCards(b)
  {
    if a == [] {
      assert a + b == b;
    } else {
      assert (a + b)[1..] == a[1..] + b;
      PageCardsAppend(a[1..], b);
    }
  }

  lemma {:induction false} ChunkPagesCards(dept: Department, chunks: seq<seq<Card>>, first: nat, count: nat,
                                           ownedIds: seq<int>, duplicates: map<int, int>)
    ensures PageCards(ChunkPages(dept, chunks, first, count, ownedIds, duplicates)) == Flatten(chunks)
  {
    var pages := ChunkPages(dept, chunks, first, count, ownedIds, duplicates);
    if chunks != [] {
      assert pages[1..] == ChunkPages(dept, chunks[1..], first + 1, count, ownedIds, duplicates);
      ChunkPagesCards(dept, chunks[1..], first + 1, count, ownedIds, duplicates);
      assert SlotCards(Slots(chunks[0], ownedIds, duplicates)) == chunks[0];
    }
  }

  /** A department's pages show its sorted cards, each exactly once and in order. */
  lemma DeptSectionCards(roster: seq<Card>, dept: Department, ownedIds: seq<int>, duplicates: map<int, int>)
    ensures PageCards(DeptSection(roster, dept, ownedIds, duplicates)) == DeptCards(roster, dept)
  {
    var chunks := Chunks(DeptCards(roster, dept), CARDS_PER_PAGE);
    ChunkPagesCards(dept, chunks, 0, |chunks|, ownedIds, duplicates);
    ChunksFlatten(DeptCards(roster, dept), CARDS_PER_PAGE);
  }

  /** A card appears on the pages of a list of distinct departments as often
      as in the roster when its department is listed, and otherwise never. */
  lemma {:induction false} SectionsCount(roster: seq<Card>, depts: seq<Department>, ownedIds: seq<int>,
                                         duplicates: map<int, int>, c: Card)
    requires NoDup(depts)
    ensures multiset(PageCards(Sections(depts, SectionOf(roster, ownedIds, duplicates))))[c]
         == if c.department in depts then multiset(roster)[c] else 0
  {
    if depts != [] {
      var dept := depts[0];
      var section := SectionOf(roster, ownedIds, duplicates);
      assert section(dept) == DeptSection(roster, dept, ownedIds, duplicates);
      PageCardsAppend(section(dept), Sections(depts[1..], section));
      DeptSectionCards(roster, dept, ownedIds, duplicates);
      FilterMultiplicity(roster, InDept(dept), c);
      NoDupTail(depts);
      NoDupHead(depts);
      SectionsCount(roster, depts[1..], ownedIds, duplicates, c);
      assert c.department in depts <==> c.department == dept || c.department in depts[1..];
    }
  }

  /** The covers and the padding page show no cards. */
  lemma BindCards(owner: string, sections: seq<Page>)
    ensures PageCards(Bind(owner, sections)) == PageCards(sections)
  {
    var body := [Cover(owner)] + sections + [BackCover];
    PageCardsAppend([Cover(owner)], sections);
    PageCardsAppend([Cover(owner)] + sections, [BackCover]);
    PageCardsAppend(body, [Blank]);
  }

  /** The book shows every roster card exactly once. */
  lemma BookShowsEveryCardOnce(owner: string, roster: seq<Card>, ownedIds: seq<int>, duplicates: map<int, int>)
    ensures multiset(PageCards(PageList(owner, roster, ownedIds, duplicates))) == multiset(roster)
  {
    var sections := Sections(ALL_DEPARTMENTS, SectionOf(roster, ownedIds, duplicates));
    BindCards(owner, sections);
    DepartmentsEnumerated();
    assert NoDup(ALL_DEPARTMENTS);
    forall d: Department ensures d in ALL_DEPARTMENTS {
      assert ALL_DEPARTMENTS[DepartmentIndex(d)] == d;
    }
    SectionsCover(roster, ALL_DEPARTMENTS, ownedIds, duplicates);
  }

  /** The sections of a list naming every department once show the roster. */
  lemma SectionsCover(roster: seq<Card>, depts: seq<Department>, ownedIds: seq<int>,
                      duplicates: map<int, int>)
    requires NoDup(depts) && forall d: Department :: d in depts
    ensures multiset(PageCards(Sections(depts, SectionOf(roster, ownedIds, duplicates)))) == multiset(roster)
  {
    forall c: Card
      ensures multiset(PageCards(Sections(depts, SectionOf(roster, ownedIds, duplicates))))[c]
           == multiset(roster)[c]
    {
      SectionsCount(roster, depts, ownedIds, duplicates, c);
    }
  }

  /** What a well-formed department page looks like: its number is below the
      department's page count, it holds one to six cards of its department in
      ascending id order, and every page but the department's last is full. */
  predicate WellFormedPage(p: Page)
    requires p.DeptPage?
  {
    p.pageIdx < p.pageCount &&
    0 < |p.slots| <= CARDS_PER_PAGE &&
    (p.pageIdx + 1 < p.pageCount ==> |p.slots| == CARDS_PER_PAGE) &&
    SortedById(SlotCards(p.slots)) &&
    forall i :: 0 <= i < |p.slots| ==> p.slots[i].card.department == p.dept
  }

  /** A slice of an id-sorted list is sorted. */
  lemma SortedSlice(s: seq<Card>, a: nat, b: nat)
    requires SortedById(s) && a <= b <= |s|
    ensures SortedById(s[a..b])
  {
    var t := s[a..b];
    forall i, j | 0 <= i < j < |t| ensures t[i].id <= t[j].id {
      assert t[i] == s[a + i] && t[j] == s[a + j];
    }
  }

  /** Page `k` cut from a sorted list of one department's cards is well formed. */
  lemma ChunkPageWellFormed(dept: Department, cards: seq<Card>, ownedIds: seq<int>,
                            duplicates: map<int, int>, k: nat)
    requires SortedById(cards) && forall c :: c in cards ==> c.department == dept
    requires k < |Chunks(cards, CARDS_PER_PAGE)|
    ensures var chunks := Chunks(cards, CARDS_PER_PAGE);
      var p := ChunkPages(dept, chunks, 0, |chunks|, ownedIds, duplicates)[k];
      p.DeptPage? && p.dept == dept && WellFormedPage(p)
  {
    var chunks := Chunks(cards, CARDS_PER_PAGE);
    var p := ChunkPages(dept, chunks, 0, |chunks|, ownedIds, duplicates)[k];
    ChunkShape(cards, CARDS_PER_PAGE, k);
    ChunkSorted(dept, cards, k);
    var chunk := chunks[k];
    assert p.slots == Slots(chunk, ownedIds, duplicates);
    assert SlotCards(p.slots) == chunk;
    forall i | 0 <= i < |p.slots| ensures p.slots[i].card.department == dept {
      assert p.slots[i].card == chunk[i];
    }
  }

  /** A chunk of a sorted list of one department's cards is sorted and holds
      only that department. */
  lemma ChunkSorted(dept: Department, cards: seq<Card>, k: nat)
    requires SortedById(cards) && forall c :: c in cards ==> c.department == dept
    requires k < |Chunks(cards, CARDS_PER_PAGE)|
    ensures SortedById(Chunks(cards, CARDS_PER_PAGE)[k])
    ensures forall i :: 0 <= i < |Chunks(cards, CARDS_PER_PAGE)[k]| ==>
      Chunks(cards, CARDS_PER_PAGE)[k][i].department == dept
  {
    ChunkAtOffset(cards, CARDS_PER_PAGE, k);
    var lo := Offset(k, CARDS_PER_PAGE);
    var hi := Min(lo + CARDS_PER_PAGE, |cards|);
    var chunk := Chunks(cards, CARDS_PER_PAGE)[k];
    SortedSlice(cards, lo, hi);
    forall i | 0 <= i < |chunk| ensures chunk[i].department == dept {
      assert chunk[i] == cards[lo + i];
    }
  }

  lemma DeptSectionWellFormed(roster: seq<Card>, dept: Department, ownedIds: seq<int>,
                              duplicates: map<int, int>, p: Page)
    requires p in DeptSection(roster, dept, ownedIds, duplicates)
    ensures p.DeptPage? && p.dept == dept && WellFormedPage(p)
  {
    var cards := DeptCards(roster, dept);
    var chunks := Chunks(cards, CARDS_PER_PAGE);
    var pages := ChunkPages(dept, chunks, 0, |chunks|, ownedIds, duplicates);
    assert pages == DeptSection(roster, dept, ownedIds, duplicates);
    var k :| 0 <= k < |pages| && pages[k] == p;
    ChunkPageWellFormed(dept, cards, ownedIds, duplicates, k);
  }

  lemma {:induction false} SectionsWellFormed(roster: seq<Card>, depts: seq<Department>, ownedIds: seq<int>,
                                              duplicates: map<int, int>, p: Page)
    requires p in Sections(depts, SectionOf(roster, ownedIds, duplicates))
    ensures p.DeptPage? && p.dept in depts && WellFormedPage(p)
  {
    assert SectionOf(roster, ownedIds, duplicates)(depts[0]) == DeptSection(roster, depts[0], ownedIds, duplicates);
    if p in DeptSection(roster, depts[0], ownedIds, duplicates) {
      DeptSectionWellFormed(roster, depts[0], ownedIds, duplicates, p);
    } else {
      SectionsWellFormed(roster, depts[1..], ownedIds, duplicates, p);
    }
  }

  /** A bound book: it opens on the cover, closes on the back cover (followed
      by at most one blank page), has an even number of pages, and every
      department page in it is well formed. */
  predicate BoundBook(owner: string, pages: seq<Page>)
  {
    |pages| >= 2 && |pages| % 2 == 0 &&
    pages[0] == Cover(owner) &&
    (pages[|pages| - 1] == BackCover ||
     (pages[|pages| - 1] == Blank && pages[|pages| - 2] == BackCover)) &&
    (forall p :: p in pages && p.DeptPage? ==> WellFormedPage(p))
  }

  /** The album's pages form a bound book. */
  lemma PagesWellFormed(owner: string, roster: seq<Card>, ownedIds: seq<int>, duplicates: map<int, int>)
    ensures BoundBook(owner, PageList(owner, roster, ownedIds, duplicates))
  {
    AllSectionsWellFormed(roster, ALL_DEPARTMENTS, ownedIds, duplicates);
    BindWellFormed(owner, Sections(ALL_DEPARTMENTS, SectionOf(roster, ownedIds, duplicates)));
  }

  /** Every page of the sections of a list of departments is well-formed. */
  lemma AllSectionsWellFormed(roster: seq<Card>, depts: seq<Department>, ownedIds: seq<int>,
                              duplicates: map<int, int>)
    ensures forall p :: p in Sections(depts, SectionOf(roster, ownedIds, duplicates)) ==>
      p.DeptPage? && WellFormedPage(p)
  {
    forall p | p in Sections(depts, SectionOf(roster, ownedIds, duplicates))
      ensures p.DeptPage? && WellFormedPage(p)
    {
      SectionsWellFormed(roster, depts, ownedIds, duplicates, p);
    }
  }

  /** Well-formed department pages bound between the covers make a bound book. */
  lemma BindWellFormed(owner: string, sections: seq<Page>)
    requires forall p :: p in sections ==> p.DeptPage? && WellFormedPage(p)
    ensures BoundBook(owner, Bind(owner, sections))
  {
    BindShape(owner, sections);
  }

  datatype Direction = Next | Prev

  /** What the open book shows. */
  datatype Spread = Spread(left: Option<Page>, right: Option<Page>)

  /** The spread at an index: at 0 the cover alone; elsewhere the page before
      the index on the left (a blank sheet when there is none) and the page at
      the index on the right (nothing past the end). */
  function SpreadAt(pages: seq<Page>, index: int): Spread
  {
    var left := if index == 0 then None
                else if 0 <= index - 1 < |pages| then Some(pages[index - 1])
                else Some(Blank);
    var right := if 0 <= index < |pages| then Some(pages[index]) else None;
    Spread(left, right)
  }

  /** Every page of an even-length book is shown at some even index the reader
      can reach, the last index being the page count itself. */
  function SpreadOf(pages: seq<Page>, p: nat): (i: nat)
    requires |pages| % 2 == 0 && p < |pages|
    ensures i % 2 == 0 && i <= |pages|
    ensures SpreadAt(pages, i).left == Some(pages[p]) || SpreadAt(pages, i).right == Some(pages[p])
  {
    if p % 2 == 0 then p else p + 1
  }

  /** The book's navigation state: the index of the right-hand page of the
      spread, and the page turn waiting for its 600 ms timer. */
  class BookView {
    const pageCount: nat
    var currentPageIndex: int
    var isFlipping: bool
    var pendingStep: int

    /** The index stays even and within `0 .. pageCount`, also after the
        pending turn. */
    predicate Valid()
      reads this
    {
      pageCount % 2 == 0 &&
      0 <= currentPageIndex <= pageCount && currentPageIndex % 2 == 0 &&
      (isFlipping ==>
        (pendingStep == 2 || pendingStep == -2) &&
        0 <= currentPageIndex + pendingStep <= pageCount)
    }

    constructor(pages: seq<Page>)
      requires |pages| % 2 == 0
      ensures Valid()
      ensures pageCount == |pages| && currentPageIndex == 0 && !isFlipping
    {
      pageCount := |pages|;
      currentPageIndex := 0;
      isFlipping := false;
      pendingStep := 0;
    }

    /** `turnPage`: ignored while a turn is running; otherwise starts a turn
        forward when the index is below the last page, or backward when it is
        above the cover. */
    method TurnPage(direction: Direction)
      requires Valid()
      modifies this
      ensures Valid()
      ensures currentPageIndex == old(currentPageIndex)
      ensures old(isFlipping) ==> isFlipping && pendingStep == old(pendingStep)
      ensures !old(isFlipping) ==>
        (isFlipping <==>
          (direction == Next && old(currentPageIndex) < pageCount - 1) ||
          (direction == Prev && old(currentPageIndex) > 0))
      ensures !old(isFlipping) && isFlipping ==>
        pendingStep == if direction == Next then 2 else -2
    {
      if isFlipping {
        return;
      }
      if direction == Next && currentPageIndex < pageCount - 1 {
        isFlipping := true;
        pendingStep := 2;
      } else if direction == Prev && currentPageIndex > 0 {
        isFlipping := true;
        pendingStep := -2;
      }
    }

    /** The turn's timer: the index moves two pages and the turn ends. */
    method FlipTimerFires()
      requires Valid() && isFlipping
      modifies this
      ensures Valid() && !isFlipping
      ensures currentPageIndex == old(currentPageIndex) + old(pendingStep)
    {
      currentPageIndex := currentPageIndex + pendingStep;
      isFlipping := false;
    }
  }
}
