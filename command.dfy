/**
 * The `parse-email` console command.
 *
 * `handle` searches the inbox for mails from Asana, stops when the search
 * finds none, and otherwise hands every mail id, in search order, to
 * `parseEmail`. `parseEmail` prints the subject, extracts the task id from
 * the HTML body, looks the task up and passes the mail to
 * `processEmailForCompletedTask` (which prints one line) when the task is
 * completed or can no longer be read.
 *
 * The mailbox and the HTTP client are oracles: `fetch` gives the mail for
 * an id, `lookup` what the request on a URL comes to. The console output
 * is the sequence of lines printed; the mails selected for
 * `processEmailForCompletedTask` are the observable decision.
 */
module ParseEmailCommand {
  import opened Wrappers
  import opened TaskIdExtraction
  import opened AsanaLookup

  /** A mail id as the mailbox search returns it. */
  type MailId = int

  /** The parts of a fetched mail the command reads: the decoded subject and the HTML body. */
  datatype Mail = Mail(subject: string, textHtml: string)

  /** The only thing `processEmailForCompletedTask` does: print this line. */
  const SinkLine: string := "doing something with this email"

  /** Printed when the body holds no task id. */
  const NoTaskIdLine: string := "no task id found"

  /** Printed by `die` when the search finds no mail. */
  const EmptyMailboxMessage: string := "Mailbox is empty"

  /**
   * What handling one mail comes to: the URL requested (None when none was),
   * whether the mail was passed to `processEmailForCompletedTask`, whether
   * an uncaught failure escaped, and the lines printed.
   */
  datatype MailOutcome = MailOutcome(request: Option<string>, selected: bool, escapes: bool, output: seq<string>)

  /** How a run ends: `die` on an empty search, all ids handled, or an uncaught failure on one mail. */
  datatype RunEnd = EmptyMailbox | Finished | Uncaught(at: MailId)

  /** The state of a run: how it ended so far, the ids handled and selected, in order, and the lines printed. */
  datatype RunState = RunState(end: RunEnd, handled: seq<MailId>, selected: seq<MailId>, output: seq<string>)

  /** The number of times line occurs in lines. */
  function Occurrences(lines: seq<string>, line: string): nat
    decreases |lines|
  {
    if lines == [] then 0
    else Occurrences(lines[..|lines| - 1], line) + (if lines[|lines| - 1] == line then 1 else 0)
  }

  /** a is a subsequence of b: b with some elements left out, the rest in order. */
  predicate IsSubsequence(a: seq<MailId>, b: seq<MailId>)
    decreases |b|
  {
    if a == [] then true
    else if b == [] then false
    else (a[|a| - 1] == b[|b| - 1] && IsSubsequence(a[..|a| - 1], b[..|b| - 1]))
         || IsSubsequence(a, b[..|b| - 1])
  }

  predicate NoDuplicates(s: seq<MailId>)
  {
    forall i, j :: 0 <= i < j < |s| ==> s[i] != s[j]
  }

  /** The handling of one mail by `parseEmail`; ParseEmailDecision states what it decides. */
  function ParseEmail(mail: Mail, lookup: string -> LookupResult): MailOutcome
  {
    var header := ["", "Subject: " + mail.subject];
    match ExtractTaskId(mail.textHtml)
    case None => MailOutcome(None, false, false, header + [NoTaskIdLine])
    case Some(taskId) =>
      var url := TaskUrl(taskId);
      var res := Resolve(lookup(url));
      MailOutcome(Some(url), res.selected, res.escapes,
                  header + res.notes + (if res.selected then [SinkLine] else []))
  }

  /**
   * What `parseEmail` decides: no request exactly when the body has no task
   * id, otherwise the task URL of the extracted id; the mail is selected
   * exactly on a client error or a completed task, never together with an
   * uncaught failure; the output starts with the empty line and the subject,
   * and ends with the sink line when the mail is selected.
   */
  lemma ParseEmailDecision(mail: Mail, lookup: string -> LookupResult)
    ensures var m := ParseEmail(mail, lookup);
      && (m.request.None? <==> NoMatch(mail.textHtml))
      && (m.request.Some? ==> ExtractTaskId(mail.textHtml).Some?
                              && m.request.value == TaskUrl(ExtractTaskId(mail.textHtml).value))
      && (m.selected <==> m.request.Some? && (lookup(m.request.value).ClientError? || lookup(m.request.value) == Success(true)))
      && (m.escapes <==> m.request.Some? && lookup(m.request.value).OtherFailure?)
      && (m.selected ==> !m.escapes)
      && |m.output| >= 2 && m.output[..2] == ["", "Subject: " + mail.subject]
      && (m.request.None? ==> m.output[2..] == [NoTaskIdLine])
      && (m.selected ==> m.output[|m.output| - 1] == SinkLine)
  {
  }

  /** The run after the mail id is handled on top of `before`. */
  function Step(before: RunState, id: MailId, fetch: MailId -> Mail, lookup: string -> LookupResult): RunState
  {
    var m := ParseEmail(fetch(id), lookup);
    RunState(if m.escapes then Uncaught(id) else Finished,
             before.handled + [id],
             before.selected + (if m.selected then [id] else []),
             before.output + m.output)
  }

  /** The `foreach` of `handle`: the ids handled one by one, up to the first uncaught failure. */
  function HandleAll(ids: seq<MailId>, fetch: MailId -> Mail, lookup: string -> LookupResult): RunState
    decreases |ids|
  {
    if ids == [] then RunState(Finished, [], [], [])
    else
      var before := HandleAll(ids[..|ids| - 1], fetch, lookup);
      if before.end.Uncaught? then before else Step(before, ids[|ids| - 1], fetch, lookup)
  }

  /** The whole of `handle` after the search returned ids. */
  function Run(ids: seq<MailId>, fetch: MailId -> Mail, lookup: string -> LookupResult): RunState
  {
    if ids == [] then RunState(EmptyMailbox, [], [], [EmptyMailboxMessage])
    else HandleAll(ids, fetch, lookup)
  }

  /** `handle`: the empty check, then the loop over the ids in search order. */
  method Handle(ids: seq<MailId>, fetch: MailId -> Mail, lookup: string -> LookupResult) returns (r: RunState)
    ensures r == Run(ids, fetch, lookup)
  {
    if ids == [] {
      return RunState(EmptyMailbox, [], [], [EmptyMailboxMessage]);
    }
    var handled: seq<MailId> := [];
    var selected: seq<MailId> := [];
    var output: seq<string> := [];
    var i := 0;
    while i < |ids|
      invariant 0 <= i <= |ids|
      invariant HandleAll(ids[..i], fetch, lookup) == RunState(Finished, handled, selected, output)
    {
      var id := ids[i];
      var m := ParseEmail(fetch(id), lookup);
      handled := handled + [id];
      if m.selected {
        selected := selected + [id];
      }
      output := output + m.output;
      HandleAllExtend(ids, i, fetch, lookup);
      i := i + 1;
      if m.escapes {
        UncaughtEndsRun(ids, i, fetch, lookup);
        return RunState(Uncaught(id), handled, selected, output);
      }
    }
    assert ids[..i] == ids;
    r := RunState(Finished, handled, selected, output);
  }

  /** Handling one more id of the search result is one Step on top of the run so far. */
  lemma HandleAllExtend(ids: seq<MailId>, i: nat, fetch: MailId -> Mail, lookup: string -> LookupResult)
    requires i < |ids| && !HandleAll(ids[..i], fetch, lookup).end.Uncaught?
    ensures HandleAll(ids[..i + 1], fetch, lookup) == Step(HandleAll(ids[..i], fetch, lookup), ids[i], fetch, lookup)
  {
    assert ids[..i + 1][..i] == ids[..i];
  }

  /** Once a failure escapes, the ids after it are never handled. */
  lemma {:induction false} UncaughtEndsRun(ids: seq<MailId>, i: nat, fetch: MailId -> Mail, lookup: string -> LookupResult)
    requires i <= |ids|
    requires HandleAll(ids[..i], fetch, lookup).end.Uncaught?
    ensures HandleAll(ids, fetch, lookup) == HandleAll(ids[..i], fetch, lookup)
    decreases |ids| - i
  {
    if i == |ids| {
      assert ids[..i] == ids;
    } else {
      var init := ids[..|ids| - 1];
      assert init[..i] == ids[..i];
      UncaughtEndsRun(init, i, fetch, lookup);
    }
  }

  lemma OccurrencesAppend(a: seq<string>, b: seq<string>, line: string)
    ensures Occurrences(a + b, line) == Occurrences(a, line) + Occurrences(b, line)
    decreases |b|
  {
    if b != [] {
      assert (a + b)[..|a + b| - 1] == a + b[..|b| - 1];
      OccurrencesAppend(a, b[..|b| - 1], line);
    } else {
      assert a + b == a;
    }
  }

  /** A mail reaches `processEmailForCompletedTask` at most once: the sink line is printed once when selected, never otherwise. */
  lemma SinkLineOncePerSelection(mail: Mail, lookup: string -> LookupResult)
    ensures Occurrences(ParseEmail(mail, lookup).output, SinkLine)
            == if ParseEmail(mail, lookup).selected then 1 else 0
  {
    var m := ParseEmail(mail, lookup);
    var header := ["", "Subject: " + mail.subject];
    assert ("Subject: " + mail.subject)[0] != SinkLine[0];
    assert Occurrences(header, SinkLine) == 0 by {
      assert header[..1] == [""];
      assert [""][..0] == [];
    }
    match ExtractTaskId(mail.textHtml)
    case None =>
      OccurrencesAppend(header, [NoTaskIdLine], SinkLine);
      assert [NoTaskIdLine][..0] == [];
    case Some(taskId) =>
      var res := Resolve(lookup(TaskUrl(taskId)));
      var tail: seq<string> := if res.selected then [SinkLine] else [];
      assert Occurrences(res.notes, SinkLine) == 0 by {
        if res.notes != [] {
          assert res.notes[..0] == [];
        }
      }
      assert Occurrences(tail, SinkLine) == if res.selected then 1 else 0 by {
        if res.selected {
          assert tail[..0] == [];
        }
      }
      OccurrencesAppend(header, res.notes, SinkLine);
      OccurrencesAppend(header + res.notes, tail, SinkLine);
  }

  /** A mail without a task id is never looked up: its handling does not depend on the lookup at all. */
  lemma NoTaskIdIgnoresLookup(mail: Mail, lookup1: string -> LookupResult, lookup2: string -> LookupResult)
    requires NoMatch(mail.textHtml)
    ensures ParseEmail(mail, lookup1) == ParseEmail(mail, lookup2)
    ensures !ParseEmail(mail, lookup1).selected && !ParseEmail(mail, lookup1).escapes
  {
  }

  /** The ids are handled in search order: the handled ids are a prefix of the search result. */
  lemma {:induction false} HandledInSearchOrder(ids: seq<MailId>, fetch: MailId -> Mail, lookup: string -> LookupResult)
    ensures var r := HandleAll(ids, fetch, lookup);
      |r.handled| <= |ids| && r.handled == ids[..|r.handled|]
    decreases |ids|
  {
    if ids != [] {
      var init := ids[..|ids| - 1];
      var before := HandleAll(init, fetch, lookup);
      if before.end.Uncaught? {
        assert HandleAll(ids, fetch, lookup) == before;
        HandledInSearchOrder(init, fetch, lookup);
        assert init[..|before.handled|] == ids[..|before.handled|];
      } else {
        assert HandleAll(ids, fetch, lookup).handled == before.handled + [ids[|ids| - 1]];
        HandledUpToEnd(init, fetch, lookup);
        assert before.handled + [ids[|ids| - 1]] == ids;
        assert ids[..|ids|] == ids;
      }
    }
  }

  /**
   * A run that finished handled every id; one that did not ended on the last
   * id it handled.
   */
  lemma {:induction false} HandledUpToEnd(ids: seq<MailId>, fetch: MailId -> Mail, lookup: string -> LookupResult)
    ensures var r := HandleAll(ids, fetch, lookup);
      && !r.end.EmptyMailbox?
      && (r.end.Finished? ==> r.handled == ids)
      && (r.end.Uncaught? ==> r.handled != [] && r.end.at == r.handled[|r.handled| - 1])
    decreases |ids|
  {
    if ids != [] {
      var init := ids[..|ids| - 1];
      HandledUpToEnd(init, fetch, lookup);
      var before := HandleAll(init, fetch, lookup);
      if !before.end.Uncaught? {
        assert before.handled + [ids[|ids| - 1]] == ids;
      }
    }
  }

  /** Only the last handled mail can be one whose failure escaped, and it is one exactly when the run did not finish. */
  lemma {:induction false} EscapesOnlyAtEnd(ids: seq<MailId>, k: nat, fetch: MailId -> Mail, lookup: string -> LookupResult)
    requires k < |HandleAll(ids, fetch, lookup).handled|
    ensures var r := HandleAll(ids, fetch, lookup);
      ParseEmail(fetch(r.handled[k]), lookup).escapes <==> r.end.Uncaught? && k == |r.handled| - 1
    decreases |ids|
  {
    var init := ids[..|ids| - 1];
    var before := HandleAll(init, fetch, lookup);
    if !before.end.Uncaught? && k < |before.handled| {
      EscapesOnlyAtEnd(init, k, fetch, lookup);
      assert HandleAll(ids, fetch, lookup).handled[k] == before.handled[k];
    } else if before.end.Uncaught? {
      EscapesOnlyAtEnd(init, k, fetch, lookup);
    }
  }

  /** The selected ids are an in-order subsequence of the handled ids. */
  lemma {:induction false} SelectedAreSubsequence(ids: seq<MailId>, fetch: MailId -> Mail, lookup: string -> LookupResult)
    ensures IsSubsequence(HandleAll(ids, fetch, lookup).selected, HandleAll(ids, fetch, lookup).handled)
    decreases |ids|
  {
    if ids != [] {
      var init := ids[..|ids| - 1];
      SelectedAreSubsequence(init, fetch, lookup);
      var before := HandleAll(init, fetch, lookup);
      if !before.end.Uncaught? {
        var id := ids[|ids| - 1];
        var r := Step(before, id, fetch, lookup);
        assert r.handled[..|r.handled| - 1] == before.handled;
        if ParseEmail(fetch(id), lookup).selected {
          assert r.selected[..|r.selected| - 1] == before.selected;
        } else {
          assert r.selected == before.selected;
        }
      }
    }
  }

  /** An id is selected exactly when it was handled and its mail is selected. */
  lemma {:induction false} SelectedExactlyWhenCompleted(ids: seq<MailId>, fetch: MailId -> Mail, lookup: string -> LookupResult)
    ensures var r := HandleAll(ids, fetch, lookup);
      forall x :: x in r.selected <==> x in r.handled && ParseEmail(fetch(x), lookup).selected
    decreases |ids|
  {
    if ids != [] {
      var init := ids[..|ids| - 1];
      SelectedExactlyWhenCompleted(init, fetch, lookup);
    }
  }

  /** With a search result free of duplicates, no id is selected twice. */
  lemma {:induction false} SelectedOnce(ids: seq<MailId>, fetch: MailId -> Mail, lookup: string -> LookupResult)
    requires NoDuplicates(ids)
    ensures NoDuplicates(HandleAll(ids, fetch, lookup).selected)
    decreases |ids|
  {
    if ids != [] {
      var init := ids[..|ids| - 1];
      SelectedOnce(init, fetch, lookup);
      HandledInSearchOrder(init, fetch, lookup);
      SelectedExactlyWhenCompleted(init, fetch, lookup);
    }
  }

  /** Every selection prints the sink line exactly once, and nothing else prints it. */
  lemma {:induction false} SinkLinesCountSelections(ids: seq<MailId>, fetch: MailId -> Mail, lookup: string -> LookupResult)
    ensures Occurrences(HandleAll(ids, fetch, lookup).output, SinkLine) == |HandleAll(ids, fetch, lookup).selected|
    decreases |ids|
  {
    if ids != [] {
      var init := ids[..|ids| - 1];
      SinkLinesCountSelections(init, fetch, lookup);
      var before := HandleAll(init, fetch, lookup);
      if !before.end.Uncaught? {
        var id := ids[|ids| - 1];
        SinkLineOncePerSelection(fetch(id), lookup);
        OccurrencesAppend(before.output, ParseEmail(fetch(id), lookup).output, SinkLine);
      }
    }
  }

  /** An empty search stops the run: nothing is handled or selected, and "Mailbox is empty" is printed. */
  lemma EmptySearchStops(ids: seq<MailId>, fetch: MailId -> Mail, lookup: string -> LookupResult)
    ensures Run(ids, fetch, lookup).end.EmptyMailbox? <==> ids == []
    ensures ids == [] ==> Run(ids, fetch, lookup) == RunState(EmptyMailbox, [], [], [EmptyMailboxMessage])
  {
    if ids != [] {
      HandledUpToEnd(ids, fetch, lookup);
    }
  }

  /**
   * A non-empty search finishes exactly when no mail fails uncaught, and then
   * every id was handled once, in search order.
   */
  lemma FinishesExactlyWithoutUncaught(ids: seq<MailId>, fetch: MailId -> Mail, lookup: string -> LookupResult)
    ensures Run(ids, fetch, lookup).end.Finished?
            <==> ids != [] && forall k :: 0 <= k < |ids| ==> !ParseEmail(fetch(ids[k]), lookup).escapes
    ensures Run(ids, fetch, lookup).end.Finished? ==> Run(ids, fetch, lookup).handled == ids
  {
    if ids != [] {
      HandledInSearchOrder(ids, fetch, lookup);
      HandledUpToEnd(ids, fetch, lookup);
      var r := HandleAll(ids, fetch, lookup);
      forall k | 0 <= k < |r.handled| {
        EscapesOnlyAtEnd(ids, k, fetch, lookup);
      }
      if r.end.Uncaught? {
        var k := |r.handled| - 1;
        assert ids[k] == r.handled[k];
      }
    }
  }

  /** A subsequence of a prefix of b is a subsequence of b. */
  lemma {:induction false} SubsequenceOfPrefix(a: seq<MailId>, b: seq<MailId>, n: nat)
    requires n <= |b| && IsSubsequence(a, b[..n])
    ensures IsSubsequence(a, b)
    decreases |b| - n
  {
    if n == |b| {
      assert b[..n] == b;
    } else {
      assert b[..n + 1][..n] == b[..n];
      SubsequenceOfPrefix(a, b, n + 1);
    }
  }

  /**
   * The selected ids of a run are an in-order subsequence of the search
   * result (and of the prefix of it that was handled), and the sink line is printed once per selected id.
   */
  lemma RunSelection(ids: seq<MailId>, fetch: MailId -> Mail, lookup: string -> LookupResult)
    ensures var r := Run(ids, fetch, lookup);
      && |r.handled| <= |ids| && r.handled == ids[..|r.handled|]
      && IsSubsequence(r.selected, r.handled)
      && IsSubsequence(r.selected, ids)
      && Occurrences(r.output, SinkLine) == |r.selected|
  {
    if ids != [] {
      HandledInSearchOrder(ids, fetch, lookup);
      SelectedAreSubsequence(ids, fetch, lookup);
      SinkLinesCountSelections(ids, fetch, lookup);
      var r := HandleAll(ids, fetch, lookup);
      SubsequenceOfPrefix(r.selected, ids, |r.handled|);
    } else {
      assert [EmptyMailboxMessage][..0] == [];
    }
  }

  /**
   * A notification whose script block carries the task id 987654321 is
   * selected exactly when the lookup reports the task completed.
   */
  lemma CompletedTaskExample(subject: string, lookup: string -> LookupResult, completed: bool)
    requires lookup(TasksEndpoint + "987654321") == Success(completed)
    ensures var m := ParseEmail(Mail(subject, "{" + Marker + "987654321" + "', name: 'x'}"), lookup);
      m.request == Some(TasksEndpoint + "987654321") && (m.selected <==> completed) && !m.escapes
  {
    assert AllDigits("987654321");
    ParseEmailDecision(Mail(subject, "{" + Marker + "987654321" + "', name: 'x'}"), lookup);
    ExtractEmbedded("{", "987654321", "', name: 'x'}");
  }
}
