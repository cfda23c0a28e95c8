/**
 * The combined report form: one POST creates a bug, one attachment row per
 * uploaded media or code file, and one website row per non-blank line of
 * the websites text.
 */
module Submission {
  import opened Wrappers
  import opened Seqs
  import opened Text
  import opened Identifiers
  import opened Models

  /** The cleaned data of the combined form. */
  datatype BugForm = BugForm(
    title: string,
    description: string,
    severity: Severity,
    category: Category,
    status: Status,
    logs: string,
    toolsUsed: string,
    websites: string,
    fullName: string,
    email: string,
    phone: string)

  /** The bug the form creates, with key `pk` and created at `now`, before `save` numbers it. */
  function FormBug(form: BugForm, pk: int, now: int): (b: Bug)
    ensures b.pk == pk && b.createdAt == now && Blank(b.number)
    ensures b.title == form.title && b.description == form.description && b.severity == form.severity
    ensures b.category == form.category && b.status == form.status
    ensures b.logs == form.logs && b.toolsUsed == form.toolsUsed
    ensures b.fullName == Some(form.fullName) && b.email == Some(form.email) && b.phone == form.phone
  {
    NewBug(pk, form.title, form.description, form.severity, form.phone, now)
      .(category := form.category, status := form.status, logs := form.logs, toolsUsed := form.toolsUsed,
        fullName := Some(form.fullName), email := Some(form.email))
  }

  /** One attachment row per uploaded file, in upload order. */
  function Attachments(bugPk: int, files: seq<FileToken>, now: int): (r: seq<Attachment>)
    ensures |r| == |files|
    ensures forall i :: 0 <= i < |r| ==> r[i].bugPk == bugPk && r[i].file == files[i] && r[i].uploadedAt == now
  {
    seq(|files|, i requires 0 <= i < |files| => Attachment(bugPk, files[i], now))
  }

  /** One website row per url, in order. */
  function Websites(bugPk: int, urls: seq<string>): (r: seq<Website>)
    ensures |r| == |urls|
    ensures forall i :: 0 <= i < |r| ==> r[i].bugPk == bugPk && r[i].url == urls[i]
  {
    seq(|urls|, i requires 0 <= i < |urls| => Website(bugPk, urls[i]))
  }

  predicate IsNonEmpty(s: string) {
    s != ""
  }

  /** A line with a character other than whitespace. */
  predicate HasText(s: string) {
    !AllSpace(s)
  }

  /** The urls the websites text yields: each line stripped, blank ones dropped. */
  function WebsiteUrls(text: string): seq<string> {
    if text == "" then [] else Urls(SplitLines(text))
  }

  lemma {:induction false} StrippedNonBlankCount(lines: seq<string>)
    ensures |Filter(Map(lines, Strip), IsNonEmpty)| == |Filter(lines, HasText)|
    decreases |lines|
  {
    if lines != [] {
      var m := Map(lines, Strip);
      var first := if Strip(lines[0]) != "" then 1 else 0;
      assert |Filter(m, IsNonEmpty)| == first + |Filter(Map(lines[1..], Strip), IsNonEmpty)| by {
        assert m[0] == Strip(lines[0]);
        assert m[1..] == Map(lines[1..], Strip);
      }
      assert first == if HasText(lines[0]) then 1 else 0 by {
        StripBlank(lines[0]);
      }
      StrippedNonBlankCount(lines[1..]);
    }
  }

  /** Stripping a line keeps it on one line and leaves nothing more to strip. */
  lemma StrippedLine(l: string)
    requires NoLineBreak(l)
    ensures Strip(Strip(l)) == Strip(l) && NoLineBreak(Strip(l))
  {
    StripIdempotent(l);
    StripSlice(l);
    var i, r := |l| - |StripStart(l)|, Strip(l);
    assert forall c :: 0 <= c < |r| ==> r[c] == l[i + c];
  }

  /** Every url is non-empty, stripped and on one line. */
  lemma UrlsAreClean(text: string)
    ensures forall i :: 0 <= i < |WebsiteUrls(text)| ==>
      && WebsiteUrls(text)[i] != ""
      && Strip(WebsiteUrls(text)[i]) == WebsiteUrls(text)[i]
      && NoLineBreak(WebsiteUrls(text)[i])
  {
    if text != "" {
      var lines := SplitLines(text);
      var stripped := Map(lines, Strip);
      var urls := Filter(stripped, IsNonEmpty);
      UrlsAreStrippedLines(lines);
      SplitLinesHaveNoBreaks(text);
      forall i | 0 <= i < |urls|
        ensures urls[i] != "" && Strip(urls[i]) == urls[i] && NoLineBreak(urls[i])
      {
        var j :| 0 <= j < |stripped| && stripped[j] == urls[i];
        StrippedLine(lines[j]);
      }
    }
  }

  /** There is one url per line of the text that is not blank. */
  lemma OneUrlPerNonBlankLine(text: string)
    ensures |WebsiteUrls(text)| == |Filter(SplitLines(text), HasText)|
  {
    if text != "" {
      UrlsAreStrippedLines(SplitLines(text));
      StrippedNonBlankCount(SplitLines(text));
    }
  }

  /** Each line that is not blank gives its stripped self as a url. */
  lemma NonBlankLinesKept(text: string)
    ensures forall j :: 0 <= j < |SplitLines(text)| && HasText(SplitLines(text)[j]) ==>
      Strip(SplitLines(text)[j]) in WebsiteUrls(text)
  {
    var lines := SplitLines(text);
    if text != "" {
      UrlsAreStrippedLines(lines);
      var stripped := Map(lines, Strip);
      forall j | 0 <= j < |lines| && HasText(lines[j])
        ensures Strip(lines[j]) in Filter(stripped, IsNonEmpty)
      {
        StripBlank(lines[j]);
        assert stripped[j] == Strip(lines[j]);
      }
    }
  }

  lemma TrimmedLine(s: string)
    requires s != [] && !IsSpace(s[0]) && !IsSpace(s[|s| - 1])
    ensures Strip(s) == s
  {
    assert StripStart(s) == s;
    assert StripEnd(s) == s;
  }

  /**
   * `WebsiteUrls` drops a trailing blank line: two urls and a blank line give
   * two urls. (The form strips its text, so `CombinedCreate` sees the text of
   * `TwoUrlsOnTwoLines` instead.)
   */
  lemma TwoUrlsAndABlankLine(a: string, b: string)
    requires a != [] && !IsSpace(a[0]) && !IsSpace(a[|a| - 1]) && NoLineBreak(a)
    requires b != [] && !IsSpace(b[0]) && !IsSpace(b[|b| - 1]) && NoLineBreak(b)
    ensures WebsiteUrls(a + "\n" + b + "\n\n") == [a, b]
  {
    TwoLinesAndABlankLine(a, b);
    UrlsOfTwoLinesAndABlankLine(a, b);
  }

  /** The stripped text of two urls on their own lines makes two website rows. */
  lemma TwoUrlsOnTwoLines(a: string, b: string)
    requires a != [] && !IsSpace(a[0]) && !IsSpace(a[|a| - 1]) && NoLineBreak(a)
    requires b != [] && !IsSpace(b[0]) && !IsSpace(b[|b| - 1]) && NoLineBreak(b)
    ensures WebsiteUrls(a + "\n" + b) == [a, b]
  {
    TwoLines(a, b);
    TrimmedLine(a);
    TrimmedLine(b);
    var none: seq<string> := [];
    assert [a] == none + [a] && [a, b] == [a] + [b];
    UrlsSnoc(none, a);
    UrlsSnoc([a], b);
  }

  lemma TwoLines(a: string, b: string)
    requires NoLineBreak(a) && NoLineBreak(b) && b != []
    ensures SplitLines(a + "\n" + b) == [a, b]
  {
    var s := a + "\n" + b;
    LineEndAfterLine(a, b);
    assert s[|a|] == '\n';
    SplitAtNewline(s, |a|);
    assert s[..|a|] == a && s[|a| + 1..] == b;
    LineEndSpec(b);
    if LineEnd(b) < |b| {
      assert !IsLineBreak(b[LineEnd(b)]);
      assert false;
    }
  }

  lemma TwoLinesAndABlankLine(a: string, b: string)
    requires NoLineBreak(a) && NoLineBreak(b)
    ensures SplitLines(a + "\n" + b + "\n\n") == [a, b, ""]
  {
    var lines := [a, b, ""];
    assert JoinLines(lines) == a + "\n" + b + "\n\n" by {
      assert JoinLines(lines[2..]) == "\n";
      assert JoinLines(lines[1..]) == b + "\n\n";
    }
    SplitJoinLines(lines);
  }

  lemma UrlsOfTwoLinesAndABlankLine(a: string, b: string)
    requires a != [] && !IsSpace(a[0]) && !IsSpace(a[|a| - 1])
    requires b != [] && !IsSpace(b[0]) && !IsSpace(b[|b| - 1])
    ensures Urls([a, b, ""]) == [a, b]
  {
    TrimmedLine(a);
    TrimmedLine(b);
    var none: seq<string> := [];
    assert [a] == none + [a] && [a, b] == [a] + [b] && [a, b, ""] == [a, b] + [""];
    UrlsSnoc(none, a);
    UrlsSnoc([a], b);
    UrlsSnoc([a, b], "");
    assert Strip("") == "";
  }

  /** The urls in the order the website loop finds them, one line at a time. */
  function Urls(lines: seq<string>): seq<string>
    decreases |lines|
  {
    if lines == [] then []
    else
      var url := Strip(lines[|lines| - 1]);
      Urls(lines[..|lines| - 1]) + if url != "" then [url] else []
  }

  /** One more line adds its stripped self, unless that is empty. */
  lemma UrlsSnoc(lines: seq<string>, line: string)
    ensures Urls(lines + [line]) == Urls(lines) + if Strip(line) != "" then [Strip(line)] else []
  {
    assert (lines + [line])[..|lines|] == lines;
  }

  lemma UrlsOfPrefix(lines: seq<string>, i: nat)
    requires i < |lines|
    ensures Urls(lines[..i + 1]) == Urls(lines[..i]) + if Strip(lines[i]) != "" then [Strip(lines[i])] else []
  {
    assert lines[..i + 1] == lines[..i] + [lines[i]];
    UrlsSnoc(lines[..i], lines[i]);
  }

  /** The loop finds exactly the stripped lines that are not empty, in order. */
  lemma {:induction false} UrlsAreStrippedLines(lines: seq<string>)
    ensures Urls(lines) == Filter(Map(lines, Strip), IsNonEmpty)
    decreases |lines|
  {
    if lines != [] {
      var init, last := lines[..|lines| - 1], lines[|lines| - 1];
      var url := Strip(last);
      assert lines == init + [last];
      calc {
        Filter(Map(lines, Strip), IsNonEmpty);
      == { MapSnoc(init, last, Strip); }
        Filter(Map(init, Strip) + [url], IsNonEmpty);
      == { FilterConcat(Map(init, Strip), [url], IsNonEmpty); }
        Filter(Map(init, Strip), IsNonEmpty) + Filter([url], IsNonEmpty);
      == { UrlsAreStrippedLines(init); assert [url][1..] == []; }
        Urls(init) + if url != "" then [url] else [];
      == { UrlsSnoc(init, last); }
        Urls(lines);
      }
    }
  }

  lemma WebsitesSnoc(bugPk: int, urls: seq<string>, url: string)
    ensures Websites(bugPk, urls + [url]) == Websites(bugPk, urls) + [Website(bugPk, url)]
  {
  }

  /** The website loop: one row per line of `lines` that is not blank, holding the stripped line. */
  method AddWebsites(store: Store, bugPk: int, lines: seq<string>)
    modifies store
    ensures store.websites == old(store.websites) + Websites(bugPk, Urls(lines))
    ensures store.bugs == old(store.bugs) && store.fixes == old(store.fixes)
    ensures store.media == old(store.media) && store.codeFiles == old(store.codeFiles)
  {
    for i := 0 to |lines|
      invariant store.bugs == old(store.bugs) && store.fixes == old(store.fixes)
      invariant store.media == old(store.media) && store.codeFiles == old(store.codeFiles)
      invariant store.websites == old(store.websites) + Websites(bugPk, Urls(lines[..i]))
    {
      var url := Strip(lines[i]);
      ghost var found := Urls(lines[..i]);
      UrlsOfPrefix(lines, i);
      if url != "" {
        WebsitesSnoc(bugPk, found, url);
        store.websites := store.websites + [Website(bugPk, url)];
        assert store.websites == old(store.websites) + (Websites(bugPk, found) + [Website(bugPk, url)]);
      } else {
        assert found + [] == found;
      }
    }
    assert lines[..|lines|] == lines;
  }

  lemma AttachmentsOfPrefix(bugPk: int, files: seq<FileToken>, now: int, i: nat)
    requires i < |files|
    ensures Attachments(bugPk, files[..i + 1], now) == Attachments(bugPk, files[..i], now) + [Attachment(bugPk, files[i], now)]
  {
  }

  /** The media loop: one attachment row per uploaded media file. */
  method AddMedia(store: Store, bugPk: int, files: seq<FileToken>, now: int)
    modifies store
    ensures store.media == old(store.media) + Attachments(bugPk, files, now)
    ensures store.bugs == old(store.bugs) && store.fixes == old(store.fixes)
    ensures store.codeFiles == old(store.codeFiles) && store.websites == old(store.websites)
  {
    for i := 0 to |files|
      invariant store.bugs == old(store.bugs) && store.fixes == old(store.fixes)
      invariant store.codeFiles == old(store.codeFiles) && store.websites == old(store.websites)
      invariant store.media == old(store.media) + Attachments(bugPk, files[..i], now)
    {
      AttachmentsOfPrefix(bugPk, files, now, i);
      store.media := store.media + [Attachment(bugPk, files[i], now)];
    }
    assert files[..|files|] == files;
  }

  /** The code-file loop: one attachment row per uploaded code file. */
  method AddCodeFiles(store: Store, bugPk: int, files: seq<FileToken>, now: int)
    modifies store
    ensures store.codeFiles == old(store.codeFiles) + Attachments(bugPk, files, now)
    ensures store.bugs == old(store.bugs) && store.fixes == old(store.fixes)
    ensures store.media == old(store.media) && store.websites == old(store.websites)
  {
    for i := 0 to |files|
      invariant store.bugs == old(store.bugs) && store.fixes == old(store.fixes)
      invariant store.media == old(store.media) && store.websites == old(store.websites)
      invariant store.codeFiles == old(store.codeFiles) + Attachments(bugPk, files[..i], now)
    {
      AttachmentsOfPrefix(bugPk, files, now, i);
      store.codeFiles := store.codeFiles + [Attachment(bugPk, files[i], now)];
    }
    assert files[..|files|] == files;
  }

  /**
   * A POST to `combined_create`. `isValid` is the form's verdict; `mediaFiles`
   * and `codeFiles` are the uploads in order. A valid form creates the bug
   * under a fresh key and a fresh SPLB number, then its attachment and
   * website rows; an invalid one changes nothing.
   */
  method CombinedCreate(store: Store, form: BugForm, isValid: bool,
                        mediaFiles: seq<FileToken>, codeFiles: seq<FileToken>, now: int)
    returns (created: Option<Bug>)
    requires store.Valid()
    requires isValid ==> Free(BugPrefix, Map(store.bugs, BugNumber)) != {}
    modifies store
    ensures store.Valid()
    ensures created.Some? <==> isValid
    ensures store.fixes == old(store.fixes)
    ensures !isValid ==> && store.bugs == old(store.bugs) && store.media == old(store.media)
                         && store.codeFiles == old(store.codeFiles) && store.websites == old(store.websites)
    ensures created.Some? ==>
      var b := created.value;
      && (forall i :: 0 <= i < |old(store.bugs)| ==> old(store.bugs)[i].pk < b.pk)
      && b == FormBug(form, b.pk, now).(number := b.number)
      && b.number.Some? && ParseTag(BugPrefix, b.number.value).Some?
      && ParseTag(BugPrefix, b.number.value).value in old(Free(BugPrefix, Map(store.bugs, BugNumber)))
      && store.bugs == old(store.bugs) + [b]
      && store.media == old(store.media) + Attachments(b.pk, mediaFiles, now)
      && store.codeFiles == old(store.codeFiles) + Attachments(b.pk, codeFiles, now)
      && store.websites == old(store.websites) + Websites(b.pk, WebsiteUrls(form.websites))
  {
    if !isValid {
      return None;
    }
    var saved := store.SaveBug(FormBug(form, NextKey(store.bugs, BugPk), now));
    var bug := saved.value;
    AddMedia(store, bug.pk, mediaFiles, now);
    AddCodeFiles(store, bug.pk, codeFiles, now);
    if form.websites != "" {
      AddWebsites(store, bug.pk, SplitLines(form.websites));
    }
    created := Some(bug);
  }
}
