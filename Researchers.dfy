/**
 * The hall of researchers: `researcher_list` puts one Reporter row per bug
 * and then one Fixer row per fix in a list, keeps the rows that pass the role,
 * bug-type and search filters, numbers the survivors 1..N and collects their
 * bug types for the filter drop-down; `researcher_detail` shows one reporter
 * or fixer.
 */
module Researchers {
  import opened Wrappers
  import opened Seqs
  import opened Text
  import opened Models

  const ReporterRole: string := "Reporter"
  const FixerRole: string := "Fixer"

  /** One row of the list; `sno` is unset until the survivors are numbered. */
  datatype Entry = Entry(
    sno: Option<nat>,
    splfId: string,
    bugType: string,
    role: string,
    fullName: Option<string>,
    email: Option<string>,
    phone: string,
    bugPk: Option<int>,
    fixPk: Option<int>,
    bugTitle: string)

  /** What the list page shows, with the filters echoed back. */
  datatype Page = Page(
    researchers: seq<Entry>,
    filterCategory: string,
    filterBugType: string,
    searchQuery: string,
    bugTypes: seq<string>,
    categories: seq<string>)

  function ReporterEntry(b: Bug): Entry {
    Entry(None, "", b.category.Value(), ReporterRole, b.fullName, b.email, b.phone, Some(b.pk), None, b.title)
  }

  function FixerEntry(f: Fix, bugs: seq<Bug>): Entry {
    var bug := BugOf(f, bugs);
    Entry(None, f.number.GetOr(""), f.category.Value(), FixerRole, f.fullName, f.email, f.phone,
      if bug.Some? then Some(bug.value.pk) else None, Some(f.pk),
      if bug.Some? then bug.value.title else "")
  }

  function Reporters(bugs: seq<Bug>): (es: seq<Entry>)
    ensures |es| == |bugs|
  {
    seq(|bugs|, i requires 0 <= i < |bugs| => ReporterEntry(bugs[i]))
  }

  function Fixers(fixes: seq<Fix>, bugs: seq<Bug>): (es: seq<Entry>)
    ensures |es| == |fixes|
  {
    seq(|fixes|, i requires 0 <= i < |fixes| => FixerEntry(fixes[i], bugs))
  }

  /** Every row before filtering: the reporters in bug order, then the fixers in fix order. */
  function Collected(bugs: seq<Bug>, fixes: seq<Fix>): seq<Entry> {
    Reporters(bugs) + Fixers(fixes, bugs)
  }

  // ---------------------------------------------------------------- filters

  /** `e['category'].lower() == filter_category.lower()`. */
  function RoleMatches(role: string): Entry -> bool {
    (e: Entry) => Lower(e.role) == Lower(role)
  }

  /** `(e['bug_type'] or '').lower() == filter_bug_type.lower()`. */
  function BugTypeMatches(bugType: string): Entry -> bool {
    (e: Entry) => Lower(e.bugType) == Lower(bugType)
  }

  /** The text the search looks in: every shown field lowered and run together. */
  function Haystack(e: Entry): string {
    Lower(e.fullName.GetOr("")) + Lower(e.email.GetOr("")) + Lower(e.phone) + Lower(e.splfId)
      + Lower(e.bugType) + Lower(e.role) + Lower(e.bugTitle)
  }

  /** `query in haystack`. */
  function SearchMatches(query: string): Entry -> bool {
    (e: Entry) => Contains(Haystack(e), query)
  }

  /** Each filter applies only when its parameter is non-empty. */
  function ByRole(es: seq<Entry>, role: string): seq<Entry> {
    if role == "" then es else Filter(es, RoleMatches(role))
  }

  function ByBugType(es: seq<Entry>, bugType: string): seq<Entry> {
    if bugType == "" then es else Filter(es, BugTypeMatches(bugType))
  }

  function BySearch(es: seq<Entry>, query: string): seq<Entry> {
    if query == "" then es else Filter(es, SearchMatches(query))
  }

  /** `search_query`: the raw parameter stripped and lowered. */
  function NormalizedQuery(search: string): string {
    Lower(Strip(search))
  }

  /** The rows that survive all three filters, before numbering. */
  function Listed(bugs: seq<Bug>, fixes: seq<Fix>, category: string, bugType: string, search: string): seq<Entry> {
    BySearch(ByBugType(ByRole(Collected(bugs, fixes), category), bugType), NormalizedQuery(search))
  }

  /** Row k gets serial number k + 1; nothing else changes. */
  function Numbered(es: seq<Entry>): (r: seq<Entry>)
    ensures |r| == |es|
  {
    seq(|es|, k requires 0 <= k < |es| => es[k].(sno := Some(k + 1)))
  }

  /** `sorted(set(e['bug_type'] for e in entries if e['bug_type']))`. */
  function BugTypes(es: seq<Entry>): (r: seq<string>)
    ensures StrictlySorted(r)
    ensures forall i :: 0 <= i < |r| ==> r[i] != "" && exists j :: 0 <= j < |es| && es[j].bugType == r[i]
    ensures forall j :: 0 <= j < |es| && es[j].bugType != "" ==> es[j].bugType in r
    decreases |es|
  {
    if es == [] then []
    else
      var rest := BugTypes(es[1..]);
      if es[0].bugType != "" then InsertSorted(es[0].bugType, rest) else rest
  }

  // ---------------------------------------------------------------- the view

  /** The two loops of `researcher_list` that build the unfiltered rows. */
  method CollectEntries(bugs: seq<Bug>, fixes: seq<Fix>) returns (entries: seq<Entry>)
    ensures entries == Collected(bugs, fixes)
  {
    entries := [];
    for i := 0 to |bugs|
      invariant entries == Reporters(bugs[..i])
    {
      assert Reporters(bugs[..i + 1]) == Reporters(bugs[..i]) + [ReporterEntry(bugs[i])];
      entries := entries + [ReporterEntry(bugs[i])];
    }
    assert bugs[..|bugs|] == bugs;
    for i := 0 to |fixes|
      invariant entries == Reporters(bugs) + Fixers(fixes[..i], bugs)
    {
      assert Fixers(fixes[..i + 1], bugs) == Fixers(fixes[..i], bugs) + [FixerEntry(fixes[i], bugs)];
      entries := entries + [FixerEntry(fixes[i], bugs)];
    }
    assert fixes[..|fixes|] == fixes;
  }

  /** The loop of `researcher_list` that sets each surviving row's `sno` in place. */
  method AssignSerials(es: seq<Entry>) returns (entries: seq<Entry>)
    ensures entries == Numbered(es)
  {
    entries := es;
    for i := 0 to |entries|
      invariant |entries| == |es|
      invariant forall k :: 0 <= k < i ==> entries[k] == es[k].(sno := Some(k + 1))
      invariant forall k :: i <= k < |entries| ==> entries[k] == es[k]
    {
      entries := entries[i := entries[i].(sno := Some(i + 1))];
    }
  }

  /** `researcher_list`. */
  method ResearcherList(bugs: seq<Bug>, fixes: seq<Fix>, category: string, bugType: string, search: string)
    returns (page: Page)
    ensures page.researchers == Numbered(Listed(bugs, fixes, category, bugType, search))
    ensures page.bugTypes == BugTypes(page.researchers)
    ensures page.categories == [ReporterRole, FixerRole]
    ensures page.filterCategory == category && page.filterBugType == bugType
    ensures page.searchQuery == NormalizedQuery(search)
  {
    var query := Lower(Strip(search));
    var entries := CollectEntries(bugs, fixes);
    if category != "" {
      entries := Filter(entries, RoleMatches(category));
    }
    if bugType != "" {
      entries := Filter(entries, BugTypeMatches(bugType));
    }
    if query != "" {
      entries := Filter(entries, SearchMatches(query));
    }
    entries := AssignSerials(entries);
    page := Page(entries, category, bugType, query, BugTypes(entries), [ReporterRole, FixerRole]);
  }

  // ---------------------------------------------------------------- properties of the list

  /**
   * Before any filter there is one row per bug and per fix: the reporters first,
   * in bug order, with no fix number, then the fixers, in fix order, with their
   * fix's number or ''.
   */
  lemma CollectedShape(bugs: seq<Bug>, fixes: seq<Fix>)
    ensures |Collected(bugs, fixes)| == |bugs| + |fixes|
    ensures forall i :: 0 <= i < |bugs| ==>
      var e := Collected(bugs, fixes)[i];
      e.role == ReporterRole && e.splfId == "" && e.bugPk == Some(bugs[i].pk) && e.fixPk.None?
    ensures forall j :: 0 <= j < |fixes| ==>
      var e := Collected(bugs, fixes)[|bugs| + j];
      e.role == FixerRole && e.splfId == fixes[j].number.GetOr("") && e.fixPk == Some(fixes[j].pk)
  {
  }

  /** Every filter keeps the relative order of the rows it retains. */
  lemma FiltersKeepOrder(a: seq<Entry>, b: seq<Entry>, category: string, bugType: string, query: string)
    ensures ByRole(a + b, category) == ByRole(a, category) + ByRole(b, category)
    ensures ByBugType(a + b, bugType) == ByBugType(a, bugType) + ByBugType(b, bugType)
    ensures BySearch(a + b, query) == BySearch(a, query) + BySearch(b, query)
  {
    FilterConcat(a, b, RoleMatches(category));
    FilterConcat(a, b, BugTypeMatches(bugType));
    FilterConcat(a, b, SearchMatches(query));
  }

  /**
   * The role filter is case-insensitive: any spelling of "reporter" keeps exactly
   * the bug-derived rows, any spelling of "fixer" exactly the fix-derived rows,
   * and any other non-empty role keeps none.
   */
  lemma RoleFilterSplits(bugs: seq<Bug>, fixes: seq<Fix>, category: string)
    ensures Lower(category) == "reporter" ==> ByRole(Collected(bugs, fixes), category) == Reporters(bugs)
    ensures Lower(category) == "fixer" ==> ByRole(Collected(bugs, fixes), category) == Fixers(fixes, bugs)
    ensures category != "" && Lower(category) != "reporter" && Lower(category) != "fixer" ==>
      ByRole(Collected(bugs, fixes), category) == []
  {
    var p := RoleMatches(category);
    var rs, fs := Reporters(bugs), Fixers(fixes, bugs);
    assert Lower(ReporterRole) == "reporter";
    assert Lower(FixerRole) == "fixer";
    if category != "" {
      FilterConcat(rs, fs, p);
      if Lower(category) == "reporter" {
        FilterKeepsAll(rs, p);
        FilterDropsAll(fs, p);
      } else if Lower(category) == "fixer" {
        FilterDropsAll(rs, p);
        FilterKeepsAll(fs, p);
      } else {
        FilterDropsAll(rs, p);
        FilterDropsAll(fs, p);
      }
    }
  }

  /** So filtering on role "reporter" leaves as many rows as there are bugs. */
  lemma ReporterCount(bugs: seq<Bug>, fixes: seq<Fix>)
    ensures |Listed(bugs, fixes, "reporter", "", "")| == |bugs|
  {
    RoleFilterSplits(bugs, fixes, "reporter");
    assert Lower("reporter") == "reporter";
    assert NormalizedQuery("") == "";
  }

  /**
   * A row survives a non-empty search exactly when the query occurs in its
   * fields run together; the query may span two fields. An empty query, or
   * one of whitespace only, keeps every row.
   */
  lemma SearchSurvivors(es: seq<Entry>, search: string)
    ensures var q := NormalizedQuery(search);
      q != "" ==> forall i :: 0 <= i < |es| ==>
        (es[i] in BySearch(es, q) <==> Contains(Haystack(es[i]), q))
    ensures AllSpace(search) ==> BySearch(es, NormalizedQuery(search)) == es
  {
    var q := NormalizedQuery(search);
    if q != "" {
      forall i | 0 <= i < |es| ensures es[i] in BySearch(es, q) ==> Contains(Haystack(es[i]), q) {
        if es[i] in BySearch(es, q) {
          var r := BySearch(es, q);
          var k :| 0 <= k < |r| && r[k] == es[i];
        }
      }
    }
    StripBlank(search);
  }

  /** The haystack is the fields run together and then lowered: lowering each field first changes nothing. */
  lemma HaystackLowersJoinedFields(e: Entry)
    ensures Haystack(e) ==
      Lower(e.fullName.GetOr("") + e.email.GetOr("") + e.phone + e.splfId + e.bugType + e.role + e.bugTitle)
  {
    var n, m, p, s := e.fullName.GetOr(""), e.email.GetOr(""), e.phone, e.splfId;
    LowerConcat(n, m);
    LowerConcat(n + m, p);
    LowerConcat(n + m + p, s);
    LowerConcat(n + m + p + s, e.bugType);
    LowerConcat(n + m + p + s + e.bugType, e.role);
    LowerConcat(n + m + p + s + e.bugType + e.role, e.bugTitle);
  }

  /** Each of seven strings run together occurs in the result. */
  lemma PartsOccur(n: string, m: string, p: string, s: string, y: string, r: string, ti: string)
    ensures var h := n + m + p + s + y + r + ti;
      && Contains(h, n) && Contains(h, m) && Contains(h, p) && Contains(h, s)
      && Contains(h, y) && Contains(h, r) && Contains(h, ti)
  {
    var h := n + m + p + s + y + r + ti;
    assert OccursAt(h, n, 0);
    assert OccursAt(h, m, |n|);
    assert OccursAt(h, p, |n + m|);
    assert OccursAt(h, s, |n + m + p|);
    assert OccursAt(h, y, |n + m + p + s|);
    assert OccursAt(h, r, |n + m + p + s + y|);
    assert OccursAt(h, ti, |n + m + p + s + y + r|);
  }

  /** Any one lowered field of a row, used as the query, finds that row. */
  lemma SearchFindsEachField(e: Entry)
    ensures Contains(Haystack(e), Lower(e.fullName.GetOr("")))
    ensures Contains(Haystack(e), Lower(e.email.GetOr("")))
    ensures Contains(Haystack(e), Lower(e.phone))
    ensures Contains(Haystack(e), Lower(e.splfId))
    ensures Contains(Haystack(e), Lower(e.bugType))
    ensures Contains(Haystack(e), Lower(e.role))
    ensures Contains(Haystack(e), Lower(e.bugTitle))
  {
    PartsOccur(Lower(e.fullName.GetOr("")), Lower(e.email.GetOr("")), Lower(e.phone), Lower(e.splfId),
      Lower(e.bugType), Lower(e.role), Lower(e.bugTitle));
  }

  /** The echoed query is already lower case. */
  lemma QueryIsLowerCase(search: string)
    ensures Lower(NormalizedQuery(search)) == NormalizedQuery(search)
  {
    LowerIdempotent(Strip(search));
  }

  /** An entry whose name ends in "ab" and whose email starts with "cd" matches the query "bc". */
  lemma SearchSpansFields(e: Entry)
    requires e.fullName == Some("xab") && e.email == Some("cdy")
    ensures Contains(Haystack(e), "bc")
  {
    var h := Haystack(e);
    assert Lower("xab") == "xab" && Lower("cdy") == "cdy";
    assert h[2] == 'b' && h[3] == 'c';
    assert h[2..4] == "bc";
    assert OccursAt(h, "bc", 2);
  }

  /** After numbering, the serial numbers are 1, 2, ..., N in list order, and nothing else changed. */
  lemma NumberedInOrder(es: seq<Entry>)
    ensures forall k :: 0 <= k < |Numbered(es)| ==> Numbered(es)[k].sno == Some(k + 1)
    ensures forall k :: 0 <= k < |es| ==> Numbered(es)[k].(sno := es[k].sno) == es[k]
  {
  }

  // ---------------------------------------------------------------- the detail view

  /** One researcher as the detail page shows them. */
  datatype Researcher = Researcher(
    splfId: Option<string>,
    bugType: string,
    role: string,
    fullName: Option<string>,
    email: Option<string>,
    phone: string,
    bug: Option<Bug>,
    fix: Option<Fix>)

  /** Http404 and its message. */
  datatype NotFound = NotFound(message: string)

  /** `researcher_detail`: the role argument is compared case-insensitively. */
  function ResearcherDetail(bugs: seq<Bug>, fixes: seq<Fix>, category: string, objPk: int): (r: Result<Researcher, NotFound>)
    ensures Lower(category) == "reporter" ==>
      && (r.Err? <==> Lookup(bugs, BugPk, objPk).None?)
      && (r.Err? ==> r.error == NotFound("Bug not found"))
      && (r.Ok? ==> r.value.bug == Lookup(bugs, BugPk, objPk) && r.value.fix.None? && r.value.splfId == Some(""))
    ensures Lower(category) == "fixer" ==>
      && (r.Err? <==> Lookup(fixes, FixPk, objPk).None?)
      && (r.Err? ==> r.error == NotFound("Fix not found"))
      && (r.Ok? ==> r.value.fix == Lookup(fixes, FixPk, objPk) && r.value.splfId == r.value.fix.value.number
                    && r.value.bug == BugOf(r.value.fix.value, bugs))
    ensures Lower(category) != "reporter" && Lower(category) != "fixer" ==> r == Err(NotFound("Invalid category"))
  {
    if Lower(category) == "reporter" then
      match Lookup(bugs, BugPk, objPk)
      case None => Err(NotFound("Bug not found"))
      case Some(b) =>
        Ok(Researcher(Some(""), b.category.Value(), ReporterRole, b.fullName, b.email, b.phone, Some(b), None))
    else if Lower(category) == "fixer" then
      match Lookup(fixes, FixPk, objPk)
      case None => Err(NotFound("Fix not found"))
      case Some(f) =>
        Ok(Researcher(f.number, f.category.Value(), FixerRole, f.fullName, f.email, f.phone, BugOf(f, bugs), Some(f)))
    else
      Err(NotFound("Invalid category"))
  }

  /** The person-level fields of a row and of a detail page agree. */
  predicate SamePerson(e: Entry, d: Researcher) {
    && e.bugType == d.bugType && e.role == d.role
    && e.fullName == d.fullName && e.email == d.email && e.phone == d.phone
    && e.splfId == d.splfId.GetOr("")
  }

  /**
   * Following a row of the list to its detail page (by bug key for a reporter,
   * by fix key for a fixer) finds the same person, when keys are unique.
   */
  lemma DetailMatchesList(bugs: seq<Bug>, fixes: seq<Fix>, i: nat)
    requires Unique(bugs, BugPk) && Unique(fixes, FixPk)
    requires i < |bugs| + |fixes|
    ensures var e := Collected(bugs, fixes)[i];
      if i < |bugs| then
        var d := ResearcherDetail(bugs, fixes, "reporter", bugs[i].pk);
        d.Ok? && SamePerson(e, d.value) && d.value.bug == Some(bugs[i])
      else
        var d := ResearcherDetail(bugs, fixes, "fixer", fixes[i - |bugs|].pk);
        d.Ok? && SamePerson(e, d.value) && d.value.fix == Some(fixes[i - |bugs|])
  {
    assert Lower("reporter") == "reporter" && Lower("fixer") == "fixer";
    if i < |bugs| {
      LookupUnique(bugs, BugPk, bugs[i].pk);
    } else {
      LookupUnique(fixes, FixPk, fixes[i - |bugs|].pk);
    }
  }
}
