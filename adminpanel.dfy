/** The admin panel: the searchable, department-filtered card list, the image
    resize rule, and the edit form that is loaded by selecting a card and
    forwarded on save. */
module AdminPanel {
  import opened Types
  import opened Builtins

  /** The department filter value that lets every department through. */
  const ALL_FILTER: string := "ALL"

  const MAX_WIDTH: nat := 500

  /** The search test of one card: the lower-cased name contains the
      lower-cased term, or the decimal id contains the term as typed. */
  predicate MatchesSearch(card: Card, searchTerm: string, lower: string -> string)
  {
    IsInfix(lower(searchTerm), lower(card.name)) || IsInfix(searchTerm, IntToString(card.id))
  }

  /** The department test: the `ALL` filter, or the card's department value. */
  predicate MatchesDept(card: Card, filterDept: string)
  {
    filterDept == ALL_FILTER || DepartmentValue(card.department) == filterDept
  }

  function ListFilter(searchTerm: string, filterDept: string, lower: string -> string): Card -> bool
  {
    (card: Card) => MatchesSearch(card, searchTerm, lower) && MatchesDept(card, filterDept)
  }

  /** `filteredRoster`, with `toLowerCase` as the parameter `lower`. */
  function FilteredRoster(roster: seq<Card>, searchTerm: string, filterDept: string,
                          lower: string -> string): (r: seq<Card>)
    ensures IsSubseq(r, roster)
    ensures forall c :: c in r <==>
      c in roster && MatchesSearch(c, searchTerm, lower) && MatchesDept(c, filterDept)
  {
    FilterIsSubseq(roster, ListFilter(searchTerm, filterDept, lower));
    Filter(roster, ListFilter(searchTerm, filterDept, lower))
  }

  /** With an empty term and the `ALL` filter the whole roster is listed. */
  lemma EmptySearchListsAll(roster: seq<Card>, lower: string -> string)
    ensures FilteredRoster(roster, "", ALL_FILTER, lower) == roster
  {
    var p := ListFilter("", ALL_FILTER, lower);
    forall c | c in roster ensures p(c) {
      EmptyIsInfix(IntToString(c.id));
    }
    FilterKeepsAll(roster, p);
  }

  /** A card whose decimal id contains the term is listed, whatever its name,
      when its department passes the filter. */
  lemma IdSearchFinds(roster: seq<Card>, searchTerm: string, filterDept: string,
                      lower: string -> string, c: Card)
    requires c in roster && IsInfix(searchTerm, IntToString(c.id)) && MatchesDept(c, filterDept)
    ensures c in FilteredRoster(roster, searchTerm, filterDept, lower)
  {
  }

  /** A department filter lists only that department's cards; a filter that
      is neither `ALL` nor a department value lists nothing. */
  lemma DeptFilterSelects(roster: seq<Card>, searchTerm: string, lower: string -> string, d: Department)
    ensures forall c :: c in FilteredRoster(roster, searchTerm, DepartmentValue(d), lower) ==>
      c.department == d
    ensures forall v :: v != ALL_FILTER && DepartmentOfValue(v).None? ==>
      FilteredRoster(roster, searchTerm, v, lower) == []
  {
    forall c | c in FilteredRoster(roster, searchTerm, DepartmentValue(d), lower)
      ensures c.department == d
    {
      DepartmentValueInjective(c.department, d);
    }
    DepartmentsEnumerated();
  }

  /** The dimension rule of `resizeImage`: an image wider than 500 pixels is
      scaled to width 500 with the height rounded to the nearest pixel (halves
      up); a narrower image keeps its size. */
  method ResizeDimensions(imgWidth: nat, imgHeight: nat) returns (width: nat, height: nat)
    ensures imgWidth <= MAX_WIDTH ==> width == imgWidth && height == imgHeight
    ensures imgWidth > MAX_WIDTH ==>
      width == MAX_WIDTH &&
      2 * imgWidth * height <= 2 * MAX_WIDTH * imgHeight + imgWidth < 2 * imgWidth * height + 2 * imgWidth
    ensures height <= imgHeight
  {
    width := imgWidth;
    height := imgHeight;
    if width > MAX_WIDTH {
      height := (2 * imgHeight * MAX_WIDTH + width) / (2 * width);
      assert 2 * MAX_WIDTH * imgHeight + imgWidth < 2 * imgWidth * imgHeight + 2 * imgWidth by {
        MulMono(2 * imgHeight, MAX_WIDTH, imgWidth);
      }
      DivBounds(2 * imgHeight * MAX_WIDTH + width, 2 * width, height, height + 1);
      if height > imgHeight {
        MulMono(2 * imgWidth, imgHeight + 1, height);
      }
      width := MAX_WIDTH;
    }
  }

  /** `roster.find(c => c.id === id)`. */
  function FindCard(roster: seq<Card>, id: int): (r: Option<Card>)
    ensures r.Some? ==> r.value in roster && r.value.id == id
    ensures r.None? ==> forall c :: c in roster ==> c.id != id
    ensures r.Some? ==>
      exists k :: 0 <= k < |roster| && roster[k] == r.value && forall j :: 0 <= j < k ==> roster[j].id != id
  {
    if roster == [] then None
    else if roster[0].id == id then Some(roster[0])
    else
      var r := FindCard(roster[1..], id);
      assert forall c :: c in roster ==> c == roster[0] || c in roster[1..];
      if r.Some? then
        var k :| 0 <= k < |roster[1..]| && roster[1..][k] == r.value &&
          forall j :: 0 <= j < k ==> roster[1..][j].id != id;
        assert roster[k + 1] == r.value;
        r
      else r
  }

  /** The panel's editing state. */
  class AdminPanelView {
    const roster: seq<Card>
    var selectedCardId: Option<int>
    var editForm: Option<Card>
    var imagePreview: string

    /** A loaded form edits a roster card (its id is a roster id) and the
        preview shows the form's image. */
    predicate Valid()
      reads this
    {
      editForm.Some? ==>
        (exists c :: c in roster && c.id == editForm.value.id) &&
        imagePreview == editForm.value.imageUrl
    }

    /** The panel opens with nothing selected. */
    constructor(roster: seq<Card>)
      ensures Valid()
      ensures this.roster == roster
      ensures selectedCardId.None? && editForm.None? && imagePreview == ""
    {
      this.roster := roster;
      selectedCardId := None;
      editForm := None;
      imagePreview := "";
    }

    /** Selecting a card, then the selection effect, which runs only when the
        selected id changes: a new non-zero id found in the roster loads that
        card into the form and its image into the preview; re-selecting the
        current id, or an id that is zero or not in the roster, leaves the form
        and the preview as they were. */
    method SelectCard(id: int)
      requires Valid()
      modifies this
      ensures Valid()
      ensures selectedCardId == Some(id)
      ensures old(selectedCardId) == Some(id) ==>
        editForm == old(editForm) && imagePreview == old(imagePreview)
      ensures old(selectedCardId) != Some(id) && id != 0 && FindCard(roster, id).Some? ==>
        editForm == FindCard(roster, id) && imagePreview == FindCard(roster, id).value.imageUrl
      ensures !(id != 0 && FindCard(roster, id).Some?) ==>
        editForm == old(editForm) && imagePreview == old(imagePreview)
    {
      var changed := selectedCardId != Some(id);
      selectedCardId := Some(id);
      if changed && id != 0 {
        var card := FindCard(roster, id);
        if card.Some? {
          editForm := card;
          imagePreview := card.value.imageUrl;
        }
      }
    }

    /** A resized image replaces the form's image when a form is loaded. */
    method ImageUploaded(dataUrl: string)
      requires Valid()
      modifies this
      ensures Valid()
      ensures old(editForm).Some? ==>
        editForm == Some(old(editForm).value.(imageUrl := dataUrl)) && imagePreview == dataUrl
      ensures old(editForm).None? ==> editForm.None? && imagePreview == old(imagePreview)
      ensures selectedCardId == old(selectedCardId)
    {
      if editForm.Some? {
        imagePreview := dataUrl;
        editForm := Some(editForm.value.(imageUrl := dataUrl));
      }
    }

    /** `handleSave`: the form is forwarded exactly when one is loaded. */
    method HandleSave() returns (saved: Option<Card>)
      ensures saved.Some? <==> editForm.Some?
      ensures saved.Some? ==> saved.value == editForm.value
    {
      saved := editForm;
    }
  }
}
