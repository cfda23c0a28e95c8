/**
 * The tracker's records and the rules their `save` applies before writing
 * them: a bug gets a number "SPLB" + 1000..9999 and a fix a number
 * "SPLF" + 1000..9999, each drawn once among the numbers no record of its kind
 * holds and never changed afterwards; a fix copies its bug's category on every
 * save. The database is the `Store`, one sequence per table.
 */
module Models {
  import opened Wrappers
  import opened Seqs
  import opened Identifiers

  // ---------------------------------------------------------------- choices

  datatype Severity = Low | Medium | High | Critical {
    /** The value stored in the `severity` column. */
    function Value(): string {
      match this
      case Low => "low"
      case Medium => "medium"
      case High => "high"
      case Critical => "critical"
    }
  }

  datatype Category = Ui | Backend | Performance | Security | Other {
    /** The value stored in a `category` column. */
    function Value(): string {
      match this
      case Ui => "ui"
      case Backend => "backend"
      case Performance => "performance"
      case Security => "security"
      case Other => "other"
    }
  }

  datatype Status = Open | InProgress | Resolved | Closed {
    /** The value stored in the `status` column. */
    function Value(): string {
      match this
      case Open => "open"
      case InProgress => "in_progress"
      case Resolved => "resolved"
      case Closed => "closed"
    }
  }

  /** The choice lists, in their declared order. */
  const Severities: seq<Severity> := [Low, Medium, High, Critical]
  const Categories: seq<Category> := [Ui, Backend, Performance, Security, Other]
  const Statuses: seq<Status> := [Open, InProgress, Resolved, Closed]

  /** A choice field accepts exactly the listed values, each naming one choice. */
  function ParseSeverity(s: string): (r: Option<Severity>)
    ensures r.Some? <==> s in ["low", "medium", "high", "critical"]
    ensures r.Some? ==> r.value.Value() == s
  {
    if s == "low" then Some(Low)
    else if s == "medium" then Some(Medium)
    else if s == "high" then Some(High)
    else if s == "critical" then Some(Critical)
    else None
  }

  function ParseCategory(s: string): (r: Option<Category>)
    ensures r.Some? <==> s in ["ui", "backend", "performance", "security", "other"]
    ensures r.Some? ==> r.value.Value() == s
  {
    if s == "ui" then Some(Ui)
    else if s == "backend" then Some(Backend)
    else if s == "performance" then Some(Performance)
    else if s == "security" then Some(Security)
    else if s == "other" then Some(Other)
    else None
  }

  function ParseStatus(s: string): (r: Option<Status>)
    ensures r.Some? <==> s in ["open", "in_progress", "resolved", "closed"]
    ensures r.Some? ==> r.value.Value() == s
  {
    if s == "open" then Some(Open)
    else if s == "in_progress" then Some(InProgress)
    else if s == "resolved" then Some(Resolved)
    else if s == "closed" then Some(Closed)
    else None
  }

  /** Every choice's stored value is accepted back as that choice, and the lists name every choice once. */
  lemma ChoicesRoundTrip(v: Severity, c: Category, t: Status)
    ensures ParseSeverity(v.Value()) == Some(v) && v in Severities
    ensures ParseCategory(c.Value()) == Some(c) && c in Categories
    ensures ParseStatus(t.Value()) == Some(t) && t in Statuses
    ensures forall i, j :: 0 <= i < j < |Categories| ==> Categories[i].Value() != Categories[j].Value()
  {
  }

  const DefaultCategory: Category := Other
  const DefaultStatus: Status := Open

  // ---------------------------------------------------------------- records

  /** An uploaded file; only its identity matters here. */
  type FileToken = string

  /** A defect report. Timestamps are integer seconds; `pk` is the primary key. */
  datatype Bug = Bug(
    pk: int,
    title: string,
    description: string,
    severity: Severity,
    category: Category,
    status: Status,
    createdAt: int,
    fullName: Option<string>,
    email: Option<string>,
    phone: string,
    number: Option<string>,
    logs: string,
    toolsUsed: string)

  /** A fix submitted for the bug whose key is `bugPk`. */
  datatype Fix = Fix(
    pk: int,
    bugPk: int,
    number: Option<string>,
    description: string,
    fixedAt: int,
    evidenceMedia: Option<FileToken>,
    evidenceCode: Option<FileToken>,
    category: Category,
    fullName: Option<string>,
    email: Option<string>,
    phone: string)

  /** A media or code file attached to a bug. */
  datatype Attachment = Attachment(bugPk: int, file: FileToken, uploadedAt: int)

  /** A website associated with a bug. */
  datatype Website = Website(bugPk: int, url: string)

  function BugPk(b: Bug): int { b.pk }
  function BugNumber(b: Bug): Option<string> { b.number }
  function FixPk(f: Fix): int { f.pk }
  function FixNumber(f: Fix): Option<string> { f.number }

  /** `not self.splab_number`: no number yet, or the empty string. */
  predicate Blank(number: Option<string>) {
    number.None? || number.value == ""
  }

  /** A bug as the model class builds it when only the required fields are given. */
  function NewBug(pk: int, title: string, description: string, severity: Severity, phone: string, createdAt: int): (b: Bug)
    ensures b.category.Value() == "other" && b.status.Value() == "open"
    ensures Blank(b.number) && b.fullName.None? && b.email.None?
  {
    Bug(pk, title, description, severity, DefaultCategory, DefaultStatus, createdAt, None, None, phone, None, "", "")
  }

  /** A fix as the model class builds it: category at its default until `save` copies the bug's. */
  function NewFix(pk: int, bugPk: int, description: string, fixedAt: int, phone: string): (f: Fix)
    ensures f.category.Value() == "other" && Blank(f.number)
  {
    Fix(pk, bugPk, None, description, fixedAt, None, None, DefaultCategory, None, None, phone)
  }

  /** The bug a fix refers to, if it is stored. */
  function BugOf(f: Fix, bugs: seq<Bug>): Option<Bug> {
    Lookup(bugs, BugPk, f.bugPk)
  }

  /** What `save` leaves in a fix's category: its bug's category, or its own when the bug is absent. */
  function MirroredCategory(f: Fix, bugs: seq<Bug>): Category {
    match BugOf(f, bugs)
    case Some(b) => b.category
    case None => f.category
  }

  /**
   * Saving a stored bug again, unchanged, is accepted and changes nothing: its
   * number is kept and no other bug holds it.
   */
  lemma ResaveBugChangesNothing(bugs: seq<Bug>, b: Bug)
    requires Unique(bugs, BugPk) && Unique(bugs, BugNumber) && b in bugs
    ensures !HeldByOther(bugs, b, BugPk, BugNumber)
    ensures Put(bugs, b, BugPk) == bugs
  {
    var i :| 0 <= i < |bugs| && bugs[i] == b;
    OwnValueNotHeld(bugs, i, b, BugPk, BugNumber);
    PutStored(bugs, b, BugPk);
  }

  /** The same for a fix whose category already mirrors its bug's. */
  lemma ResaveFixChangesNothing(fixes: seq<Fix>, bugs: seq<Bug>, f: Fix)
    requires Unique(fixes, FixPk) && Unique(fixes, FixNumber) && f in fixes
    requires f.category == MirroredCategory(f, bugs)
    ensures !HeldByOther(fixes, f, FixPk, FixNumber)
    ensures Put(fixes, f.(category := MirroredCategory(f, bugs)), FixPk) == fixes
  {
    var i :| 0 <= i < |fixes| && fixes[i] == f;
    OwnValueNotHeld(fixes, i, f, FixPk, FixNumber);
    PutStored(fixes, f, FixPk);
  }

  datatype SaveError = DuplicateNumber

  // ---------------------------------------------------------------- store

  class Store {
    var bugs: seq<Bug>
    var fixes: seq<Fix>
    var media: seq<Attachment>
    var codeFiles: seq<Attachment>
    var websites: seq<Website>

    /**
     * What the tables keep: primary keys and record numbers are unique
     * (`unique=True`), and every stored record has a number, since every
     * write goes through `save`.
     */
    ghost predicate Valid()
      reads this
    {
      && Unique(bugs, BugPk) && Unique(bugs, BugNumber)
      && (forall i :: 0 <= i < |bugs| ==> !Blank(bugs[i].number))
      && Unique(fixes, FixPk) && Unique(fixes, FixNumber)
      && (forall i :: 0 <= i < |fixes| ==> !Blank(fixes[i].number))
    }

    constructor ()
      ensures Valid()
      ensures bugs == [] && fixes == [] && media == [] && codeFiles == [] && websites == []
    {
      bugs, fixes, media, codeFiles, websites := [], [], [], [], [];
    }

    /** `Bug.save`. */
    method SaveBug(b: Bug) returns (r: Result<Bug, SaveError>)
      requires Valid()
      requires Blank(b.number) ==> Free(BugPrefix, Map(bugs, BugNumber)) != {}
      modifies this
      ensures Valid()
      ensures fixes == old(fixes) && media == old(media) && codeFiles == old(codeFiles) && websites == old(websites)
      // a blank number is replaced by SPLB + a suffix no stored bug used
      ensures Blank(b.number) ==> (
        && r.Ok? && r.value.number.Some?
        && var n := ParseTag(BugPrefix, r.value.number.value);
           n.Some? && n.value in old(Free(BugPrefix, Map(bugs, BugNumber))))
      // a number already set is kept; the write fails only if another bug holds it
      ensures !Blank(b.number) ==> (r.Ok? <==> !HeldByOther(old(bugs), b, BugPk, BugNumber))
      ensures !Blank(b.number) && r.Ok? ==> r.value == b
      // nothing but the number is touched before the write
      ensures r.Ok? ==> r.value == b.(number := r.value.number)
      ensures r.Ok? ==> bugs == Put(old(bugs), r.value, BugPk)
      ensures r.Err? ==> bugs == old(bugs)
    {
      var saved := b;
      if Blank(b.number) {
        var n :| n in Free(BugPrefix, Map(bugs, BugNumber));
        FreeMeansUnused(BugPrefix, Map(bugs, BugNumber), n);
        TagRoundTrip(BugPrefix, n);
        saved := b.(number := Some(Tag(BugPrefix, n)));
        assert forall i :: 0 <= i < |bugs| ==> BugNumber(bugs[i]) == Map(bugs, BugNumber)[i];
      }
      if HeldByOther(bugs, saved, BugPk, BugNumber) {
        r := Err(DuplicateNumber);
      } else {
        PutKeepsUnique(bugs, saved, BugPk, BugNumber);
        PutKeepsUnique(bugs, saved, BugPk, BugPk);
        PutMembers(bugs, saved, BugPk);
        bugs := Put(bugs, saved, BugPk);
        r := Ok(saved);
      }
    }

    /** `SuccessfulFixed.save`. */
    method SaveFix(f: Fix) returns (r: Result<Fix, SaveError>)
      requires Valid()
      requires Blank(f.number) ==> Free(FixPrefix, Map(fixes, FixNumber)) != {}
      modifies this
      ensures Valid()
      ensures bugs == old(bugs) && media == old(media) && codeFiles == old(codeFiles) && websites == old(websites)
      // the category is re-copied from the bug on every save
      ensures r.Ok? ==> r.value.category == MirroredCategory(f, bugs)
      // a blank number is replaced by SPLF + a suffix no stored fix used
      ensures Blank(f.number) ==> (
        && r.Ok? && r.value.number.Some?
        && var n := ParseTag(FixPrefix, r.value.number.value);
           n.Some? && n.value in old(Free(FixPrefix, Map(fixes, FixNumber))))
      // a number already set is kept; the write fails only if another fix holds it
      ensures !Blank(f.number) ==> (r.Ok? <==> !HeldByOther(old(fixes), f, FixPk, FixNumber))
      ensures !Blank(f.number) && r.Ok? ==> r.value.number == f.number
      // nothing but the category and the number is touched before the write
      ensures r.Ok? ==> r.value == f.(category := r.value.category, number := r.value.number)
      ensures r.Ok? ==> fixes == Put(old(fixes), r.value, FixPk)
      ensures r.Err? ==> fixes == old(fixes)
    {
      var saved := f.(category := MirroredCategory(f, bugs));
      if Blank(f.number) {
        var n :| n in Free(FixPrefix, Map(fixes, FixNumber));
        FreeMeansUnused(FixPrefix, Map(fixes, FixNumber), n);
        TagRoundTrip(FixPrefix, n);
        saved := saved.(number := Some(Tag(FixPrefix, n)));
        assert forall i :: 0 <= i < |fixes| ==> FixNumber(fixes[i]) == Map(fixes, FixNumber)[i];
      }
      if HeldByOther(fixes, saved, FixPk, FixNumber) {
        r := Err(DuplicateNumber);
      } else {
        PutKeepsUnique(fixes, saved, FixPk, FixNumber);
        PutKeepsUnique(fixes, saved, FixPk, FixPk);
        PutMembers(fixes, saved, FixPk);
        fixes := Put(fixes, saved, FixPk);
        r := Ok(saved);
      }
    }
  }
}
