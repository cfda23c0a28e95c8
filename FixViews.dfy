/**
 * The fix views: the filtered list of bugs shown on the fixes page, the form
 * that records a fix and updates its bug's status, and the bug pre-filled
 * into that form.
 */
module FixViews {
  import opened Wrappers
  import opened Seqs
  import opened Text
  import opened Identifiers
  import opened Models

  // ---------------------------------------------------- successful_fixed_list

  /** What the fixes page shows; `fixes` is every stored fix. */
  datatype FixedList = FixedList(
    bugs: seq<Bug>,
    fixes: seq<Fix>,
    categories: seq<Category>,
    currentCategory: string,
    currentStatus: string,
    currentSearch: string)

  /**
   * The status filters turn the query set into a plain list, which has no
   * `filter` method: a search on top of one of them fails.
   */
  datatype ListError = FilterOnPlainList

  /** Whether at least one stored fix refers to the bug with key `pk`. */
  predicate HasFix(fixes: seq<Fix>, pk: int) {
    exists i | 0 <= i < |fixes| :: fixes[i].bugPk == pk
  }

  function CategoryIs(category: string): Bug -> bool {
    (b: Bug) => b.category.Value() == category
  }

  function Fixed(fixes: seq<Fix>): Bug -> bool {
    (b: Bug) => HasFix(fixes, b.pk)
  }

  function NotFixed(fixes: seq<Fix>): Bug -> bool {
    (b: Bug) => !HasFix(fixes, b.pk)
  }

  /** A case-insensitive substring match on the title (ASCII letters only). */
  function TitleContains(search: string): Bug -> bool {
    (b: Bug) => Contains(Lower(b.title), Lower(search))
  }

  /** The bugs of one category, or all of them for the empty category. */
  function InCategory(bugs: seq<Bug>, category: string): seq<Bug> {
    if category == "" then bugs else Filter(bugs, CategoryIs(category))
  }

  predicate StatusFilters(status: string) {
    status == "fixed" || status == "not_fixed"
  }

  /** The category-filtered bugs after the status filter, before the search. */
  function WithStatus(bugs: seq<Bug>, fixes: seq<Fix>, category: string, status: string): seq<Bug> {
    var inCategory := InCategory(bugs, category);
    if status == "fixed" then Filter(inCategory, Fixed(fixes))
    else if status == "not_fixed" then Filter(inCategory, NotFixed(fixes))
    else inCategory
  }

  /**
   * The page `successful_fixed_list` evidently means to show: the bugs of the
   * category, then those with (or without) a fix, then those whose title holds
   * the search text.
   */
  function FilteredList(bugs: seq<Bug>, fixes: seq<Fix>, category: string, status: string, search: string)
    : (r: FixedList)
    ensures r.fixes == fixes && r.categories == Categories
    ensures r.currentCategory == category && r.currentStatus == status && r.currentSearch == search
    ensures |r.bugs| <= |bugs|
  {
    var shown := WithStatus(bugs, fixes, category, status);
    var searched := if search != "" then Filter(shown, TitleContains(search)) else shown;
    FixedList(searched, fixes, Categories, category, status, search)
  }

  /**
   * `successful_fixed_list` as written; the three parameters are the query
   * parameters, "" when absent. A search after a status filter fails, since
   * the status filters leave a plain list; otherwise the page is the filtered
   * list.
   */
  function SuccessfulFixedList(bugs: seq<Bug>, fixes: seq<Fix>, category: string, status: string, search: string)
    : (r: Result<FixedList, ListError>)
    ensures r.Err? <==> StatusFilters(status) && search != ""
    ensures r.Ok? ==> r.value == FilteredList(bugs, fixes, category, status, search)
  {
    if search != "" && StatusFilters(status) then Err(FilterOnPlainList)
    else Ok(FilteredList(bugs, fixes, category, status, search))
  }

  /**
   * Each shown bug passes every filter that was asked for, and each bug that
   * passes them all is shown.
   */
  lemma ListShowsExactlyMatches(bugs: seq<Bug>, fixes: seq<Fix>, category: string, status: string, search: string, b: Bug)
    ensures b in FilteredList(bugs, fixes, category, status, search).bugs <==>
      && b in bugs
      && (category != "" ==> b.category.Value() == category)
      && (status == "fixed" ==> HasFix(fixes, b.pk))
      && (status == "not_fixed" ==> !HasFix(fixes, b.pk))
      && (search != "" ==> Contains(Lower(b.title), Lower(search)))
  {
    var inCategory := InCategory(bugs, category);
    assert b in inCategory <==> b in bugs && (category != "" ==> b.category.Value() == category);
    var shown := WithStatus(bugs, fixes, category, status);
    assert b in shown <==> && b in inCategory
                           && (status == "fixed" ==> HasFix(fixes, b.pk))
                           && (status == "not_fixed" ==> !HasFix(fixes, b.pk));
  }

  /**
   * Every filter of the page keeps the stored order: the bugs shown for two
   * consecutive parts of the table are those shown for each part, in turn.
   */
  lemma FilteredListKeepsOrder(a: seq<Bug>, b: seq<Bug>, fixes: seq<Fix>, category: string, status: string, search: string)
    ensures FilteredList(a + b, fixes, category, status, search).bugs ==
      FilteredList(a, fixes, category, status, search).bugs + FilteredList(b, fixes, category, status, search).bugs
  {
    FilterConcat(a, b, CategoryIs(category));
    var ca, cb := InCategory(a, category), InCategory(b, category);
    FilterConcat(ca, cb, Fixed(fixes));
    FilterConcat(ca, cb, NotFixed(fixes));
    FilterConcat(WithStatus(a, fixes, category, status), WithStatus(b, fixes, category, status), TitleContains(search));
  }

  /**
   * "fixed" and "not_fixed" split the bugs of a category in two; each keeps
   * stored order by `FilteredListKeepsOrder`.
   */
  lemma FixedAndNotFixedPartition(bugs: seq<Bug>, fixes: seq<Fix>, category: string)
    ensures var fixed := SuccessfulFixedList(bugs, fixes, category, "fixed", "");
      var notFixed := SuccessfulFixedList(bugs, fixes, category, "not_fixed", "");
      && fixed.Ok? && notFixed.Ok?
      && multiset(fixed.value.bugs) + multiset(notFixed.value.bugs) == multiset(InCategory(bugs, category))
      && |fixed.value.bugs| + |notFixed.value.bugs| == |InCategory(bugs, category)|
  {
    FilterPartition(InCategory(bugs, category), Fixed(fixes), NotFixed(fixes));
  }

  /** With no filter at all every stored bug is shown, in stored order. */
  lemma NoFilterShowsAll(bugs: seq<Bug>, fixes: seq<Fix>)
    ensures SuccessfulFixedList(bugs, fixes, "", "", "") == Ok(FixedList(bugs, fixes, Categories, "", "", ""))
  {
  }

  /** A category that names no choice shows nothing. */
  lemma UnknownCategoryShowsNothing(bugs: seq<Bug>, fixes: seq<Fix>, category: string, status: string, search: string)
    requires category != "" && ParseCategory(category).None?
    ensures FilteredList(bugs, fixes, category, status, search).bugs == []
  {
    forall c: Category ensures c.Value() != category {
      ChoicesRoundTrip(Low, c, Open);
    }
    FilterDropsAll(bugs, CategoryIs(category));
    var shown := WithStatus(bugs, fixes, category, status);
    assert shown == [];
  }

  // -------------------------------------------------- successful_fixed_create

  /** The cleaned data of the fix form; `bugPk` is the selected bug's key. */
  datatype FixForm = FixForm(
    bugPk: int,
    description: string,
    status: Status,
    fullName: string,
    email: string,
    phone: string,
    evidenceMedia: Option<FileToken>,
    evidenceCode: Option<FileToken>)

  /**
   * The fix the form builds before it is saved: the form's fields, key and
   * timestamp, the category at its default and no number yet.
   */
  function FormFix(form: FixForm, pk: int, now: int): (f: Fix)
    ensures f.bugPk == form.bugPk && f.description == form.description && f.phone == form.phone
    ensures f.fullName == Some(form.fullName) && f.email == Some(form.email)
    ensures f.evidenceMedia == form.evidenceMedia && f.evidenceCode == form.evidenceCode
    ensures f.fixedAt == now && Blank(f.number) && f.category == DefaultCategory
  {
    NewFix(pk, form.bugPk, form.description, now, form.phone)
      .(fullName := Some(form.fullName), email := Some(form.email),
        evidenceMedia := form.evidenceMedia, evidenceCode := form.evidenceCode)
  }

  /**
   * A POST to `successful_fixed_create`. `isValid` is the form's verdict; the
   * bug field only accepts the key of a stored bug. On success the selected
   * bug takes the submitted status and the new fix, numbered and carrying
   * that bug's category, is appended.
   */
  method SuccessfulFixedCreate(store: Store, form: FixForm, isValid: bool, now: int) returns (created: Option<Fix>)
    requires store.Valid()
    requires isValid ==> Free(FixPrefix, Map(store.fixes, FixNumber)) != {}
    modifies store
    ensures store.Valid()
    ensures store.media == old(store.media) && store.codeFiles == old(store.codeFiles)
    ensures store.websites == old(store.websites)
    ensures created.Some? <==> isValid && Lookup(old(store.bugs), BugPk, form.bugPk).Some?
    ensures created.None? ==> store.bugs == old(store.bugs) && store.fixes == old(store.fixes)
    ensures created.Some? ==>
      var bug := Lookup(old(store.bugs), BugPk, form.bugPk).value;
      var fix := created.value;
      && store.bugs == Put(old(store.bugs), bug.(status := form.status), BugPk)
      && Lookup(store.bugs, BugPk, form.bugPk) == Some(bug.(status := form.status))
      && fix.category == bug.category
      && fix == FormFix(form, fix.pk, now).(category := bug.category, number := fix.number)
      && fix.number.Some? && ParseTag(FixPrefix, fix.number.value).Some?
      && ParseTag(FixPrefix, fix.number.value).value in old(Free(FixPrefix, Map(store.fixes, FixNumber)))
      && store.fixes == old(store.fixes) + [fix]
  {
    if !isValid {
      return None;
    }
    var found := Lookup(store.bugs, BugPk, form.bugPk);
    if found.None? {
      return None;
    }
    var i :| 0 <= i < |store.bugs| && store.bugs[i] == found.value;
    var bug := found.value.(status := form.status);
    OwnValueNotHeld(store.bugs, i, bug, BugPk, BugNumber);
    PutLookup(store.bugs, bug, BugPk, form.bugPk);
    var savedBug := store.SaveBug(bug);
    var fix := FormFix(form, NextKey(store.fixes, FixPk), now);
    var savedFix := store.SaveFix(fix);
    created := Some(savedFix.value);
  }

  /**
   * A GET to `successful_fixed_create` with the `bug` parameter: the stored
   * bug it names, or nothing (and no error) when it names none.
   */
  function FixPrefill(bugs: seq<Bug>, bugParam: Option<int>): (r: Option<Bug>)
    ensures r.Some? ==> bugParam.Some? && r.value in bugs && r.value.pk == bugParam.value
    ensures r.None? ==> bugParam.None? || forall i :: 0 <= i < |bugs| ==> bugs[i].pk != bugParam.value
  {
    if bugParam.None? then None else Lookup(bugs, BugPk, bugParam.value)
  }
}
