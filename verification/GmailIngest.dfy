/** The Gmail ingest job of one tenant, jobs run one at a time: which messages are recorded, whose body
    is stored, and which are delivered to the agent. Gmail, the database and the agent may fail anywhere. */
module GmailIngest {
  import opened Prelude
  import opened JsText

  type Id = string
  type Headers = string

  const MAX_DEPTH := 5
  const BODY_LIMIT := 2000

  // ---- The stored text ----

  /** A MIME part; `data` is its decoded content. */
  datatype Part = Part(mimeType: string, data: Option<string>, parts: seq<Part>)

  function ExtractPlainText(p: Part, depth: nat): string
    decreases MAX_DEPTH + 1 - depth, 0
  {
    if depth > MAX_DEPTH then ""
    else if p.mimeType == "text/plain" && p.data.Some? then p.data.value
    else FirstText(p.parts, depth + 1)
  }

  function FirstText(parts: seq<Part>, depth: nat): string
    decreases MAX_DEPTH + 1 - depth, 1 + |parts|
  {
    if parts == [] then ""
    else
      var text := ExtractPlainText(parts[0], depth);
      if text != "" then text else FirstText(parts[1..], depth)
  }

  /** The text/plain contents down to depth five, in document order. */
  function PlainTexts(p: Part, depth: nat): seq<string>
    decreases MAX_DEPTH + 1 - depth, 0
  {
    if depth > MAX_DEPTH then []
    else if p.mimeType == "text/plain" && p.data.Some? then [p.data.value]
    else PlainTextsOf(p.parts, depth + 1)
  }

  function PlainTextsOf(parts: seq<Part>, depth: nat): seq<string>
    decreases MAX_DEPTH + 1 - depth, 1 + |parts|
  {
    if parts == [] then [] else PlainTexts(parts[0], depth) + PlainTextsOf(parts[1..], depth)
  }

  function FirstNonEmpty(texts: seq<string>): string {
    if texts == [] then "" else if texts[0] != "" then texts[0] else FirstNonEmpty(texts[1..])
  }

  lemma {:induction false} FirstOfConcat(a: seq<string>, b: seq<string>)
    ensures FirstNonEmpty(a + b) == if FirstNonEmpty(a) != "" then FirstNonEmpty(a) else FirstNonEmpty(b)
  {
    if a == [] {
      assert a + b == b;
    } else {
      FirstOfConcat(a[1..], b);
      assert (a + b)[1..] == a[1..] + b;
    }
  }

  /** The early exits of the walk skip nothing: it finds the first text/plain content that is not empty. */
  lemma {:induction false} ExtractsFirstPlainText(p: Part, depth: nat)
    ensures ExtractPlainText(p, depth) == FirstNonEmpty(PlainTexts(p, depth))
    decreases MAX_DEPTH + 1 - depth, 0
  {
    if depth <= MAX_DEPTH && !(p.mimeType == "text/plain" && p.data.Some?) {
      ExtractsFirstOf(p.parts, depth + 1);
    }
  }

  lemma {:induction false} ExtractsFirstOf(parts: seq<Part>, depth: nat)
    ensures FirstText(parts, depth) == FirstNonEmpty(PlainTextsOf(parts, depth))
    decreases MAX_DEPTH + 1 - depth, 1 + |parts|
  {
    if parts != [] {
      ExtractsFirstPlainText(parts[0], depth);
      ExtractsFirstOf(parts[1..], depth);
      FirstOfConcat(PlainTexts(parts[0], depth), PlainTextsOf(parts[1..], depth));
    }
  }

  function StoredBody(text: string): Option<string> {
    var body := Trim(text[..if |text| < BODY_LIMIT then |text| else BODY_LIMIT]);
    if body == "" then None else Some(body)
  }

  // ---- The stored text, in words ----

  /** The content of the text/plain part that a path of child numbers leads to, unless the part lies inside another one. */
  function TextAt(p: Part, path: seq<nat>): Option<string>
    decreases |path|
  {
    if p.mimeType == "text/plain" && p.data.Some? then if path == [] then p.data else None
    else if path != [] && path[0] < |p.parts| then TextAt(p.parts[path[0]], path[1..])
    else None
  }

  lemma {:induction false} TextOfChild(parts: seq<Part>, depth: nat, text: string, from: nat) returns (i: nat)
    requires from <= |parts| && text in PlainTextsOf(parts[from..], depth)
    ensures i < |parts| && text in PlainTexts(parts[i], depth)
    decreases |parts| - from
  {
    assert from < |parts|;
    assert parts[from..][1..] == parts[from + 1..];
    if text in PlainTexts(parts[from], depth) {
      i := from;
    } else {
      i := TextOfChild(parts, depth, text, from + 1);
    }
  }

  lemma {:induction false} ChildText(parts: seq<Part>, depth: nat, text: string, i: nat)
    requires i < |parts| && text in PlainTexts(parts[i], depth)
    ensures text in PlainTextsOf(parts, depth)
    decreases |parts|
  {
    if i > 0 {
      assert parts[1..][i - 1] == parts[i];
      ChildText(parts[1..], depth, text, i - 1);
    }
  }

  lemma {:induction false} TextHasPath(p: Part, depth: nat, text: string) returns (path: seq<nat>)
    requires depth <= 6 && text in PlainTexts(p, depth)
    ensures |path| + depth <= 5 && TextAt(p, path) == Some(text)
    decreases 6 - depth
  {
    if p.mimeType == "text/plain" && p.data.Some? {
      path := [];
    } else {
      var i := TextOfChild(p.parts, depth + 1, text, 0);
      var below := TextHasPath(p.parts[i], depth + 1, text);
      path := [i] + below;
      assert path[1..] == below;
    }
  }

  lemma {:induction false} PathHasText(p: Part, depth: nat, text: string, path: seq<nat>)
    requires |path| + depth <= 5 && TextAt(p, path) == Some(text)
    ensures text in PlainTexts(p, depth)
    decreases |path|
  {
    if !(p.mimeType == "text/plain" && p.data.Some?) {
      PathHasText(p.parts[path[0]], depth + 1, text, path[1..]);
      hide PlainTextsOf;
      ChildText(p.parts, depth + 1, text, path[0]);
    }
  }

  /** The listed texts are exactly the contents of the text/plain parts at most five levels below the message. */
  lemma TextsAreParts(p: Part, text: string)
    ensures text in PlainTexts(p, 0) <==> exists path :: |path| <= 5 && TextAt(p, path) == Some(text)
  {
    hide PlainTexts, TextAt;
    if text in PlainTexts(p, 0) {
      var path := TextHasPath(p, 0, text);
    }
    forall path | |path| <= 5 && TextAt(p, path) == Some(text) ensures text in PlainTexts(p, 0) {
      PathHasText(p, 0, text, path);
    }
  }

  lemma {:induction false} FirstIsOneOf(texts: seq<string>)
    ensures FirstNonEmpty(texts) == "" ==> forall t :: t in texts ==> t == ""
    ensures FirstNonEmpty(texts) != "" ==> FirstNonEmpty(texts) in texts
  {
    if texts != [] {
      assert texts == [texts[0]] + texts[1..];
      FirstIsOneOf(texts[1..]);
    }
  }

  /** The text of a message is the content of one of its text/plain parts down to five levels, and empty only when each of
      them is empty. */
  lemma MessageText(p: Part)
    ensures ExtractPlainText(p, 0) == "" ==> forall path :: |path| <= 5 && TextAt(p, path).Some? ==> TextAt(p, path) == Some("")
    ensures ExtractPlainText(p, 0) != "" ==> exists path :: |path| <= 5 && TextAt(p, path) == Some(ExtractPlainText(p, 0))
  {
    ExtractsFirstPlainText(p, 0);
    FirstIsOneOf(PlainTexts(p, 0));
    forall path | |path| <= 5 && TextAt(p, path).Some? ensures TextAt(p, path).value in PlainTexts(p, 0) {
      TextsAreParts(p, TextAt(p, path).value);
    }
    TextsAreParts(p, ExtractPlainText(p, 0));
  }

  lemma TrimmedPrefix(text: string, n: nat) returns (i: nat, j: nat)
    requires n <= |text|
    ensures i <= j <= n && Trim(text[..n]) == text[i..j]
    ensures forall k :: 0 <= k < i ==> IsWhitespace(text[k])
    ensures forall k :: j <= k < n ==> IsWhitespace(text[k])
    ensures i < j ==> !IsWhitespace(text[i]) && !IsWhitespace(text[j - 1])
  {
    hide Trim, IsWhitespace;
    var head := text[..n];
    i, j := TrimmedBetween(head);
    forall k | 0 <= k < n ensures head[k] == text[k] {
    }
    assert head[i..j] == text[i..j];
  }

  /** What is stored of a text: of its first two thousand characters the part between the white space at the ends, or nothing
      exactly when they are all white space. */
  lemma StoredInWords(text: string) returns (i: nat, j: nat)
    ensures i <= j <= |text| && j <= 2000
    ensures StoredBody(text) == if i == j then None else Some(text[i..j])
    ensures forall k :: 0 <= k < i ==> IsWhitespace(text[k])
    ensures forall k :: j <= k < |text| && k < 2000 ==> IsWhitespace(text[k])
    ensures i < j ==> !IsWhitespace(text[i]) && !IsWhitespace(text[j - 1])
    ensures i == j ==> forall k :: 0 <= k < |text| && k < 2000 ==> IsWhitespace(text[k])
  {
    var n := if |text| < 2000 then |text| else 2000;
    hide Trim, IsWhitespace;
    i, j := TrimmedPrefix(text, n);
    assert text[i..j] == "" <==> i == j;
  }

  // ---- The job ----

  datatype Verdict = Ignored | Ingest

  datatype Email = Email(row: nat, headers: Headers, verdict: Verdict, body: Option<string>, labelled: bool)

  /** One call of the agent; one that raised an error did not deliver. */
  datatype Dispatch = Dispatch(row: nat, id: Id, body: Option<string>, delivered: bool)

  /** What the outside world answers while one message is processed; a `false` or `None` raises an error,
      except that a failing label is ignored. */
  datatype Answers = Answers(
    lookup: bool, metadata: Option<Headers>, full: Option<Part>, insert: bool, labelled: bool, dispatch: bool)

  datatype Outcome = Done | Raised

  /** What it answers to the job itself. */
  datatype JobAnswers = JobAnswers(
    token: bool, historyRead: bool, history: Option<seq<seq<Id>>>, contacts: bool, advance: bool)

  datatype JobOutcome = NoToken | HistoryFailed | JobFailed | Finished

  /** The agent is told the row and the body that are stored. */
  predicate IsOfRow(emails: map<Id, Email>, d: Dispatch) {
    d.id in emails && emails[d.id].row == d.row && emails[d.id].body == d.body && emails[d.id].verdict == Ingest
  }

  predicate Called(dispatched: seq<Dispatch>, id: Id) {
    exists k :: 0 <= k < |dispatched| && dispatched[k].id == id
  }

  /** A body is stored only where the filter said so, and the agent is called for exactly the wanted rows, once
      each, with what is stored. */
  ghost predicate Consistent(classify: Headers -> Verdict, emails: map<Id, Email>, dispatched: seq<Dispatch>) {
    && (forall id :: id in emails ==>
          && emails[id].verdict == classify(emails[id].headers)
          && (emails[id].body.Some? ==> emails[id].verdict == Ingest))
    && (forall i, j :: 0 <= i < j < |dispatched| ==> dispatched[i].id != dispatched[j].id)
    && (forall d :: d in dispatched ==> IsOfRow(emails, d))
    && (forall id :: id in emails && emails[id].verdict == Ingest ==> Called(dispatched, id))
  }

  predicate Records(classify: Headers -> Verdict, known: bool, a: Answers) {
    !known && a.lookup && a.metadata.Some? && a.insert && (classify(a.metadata.value) == Ingest ==> a.full.Some?)
  }

  function Recorded(classify: Headers -> Verdict, row: nat, a: Answers): Email
    requires Records(classify, false, a)
  {
    var verdict := classify(a.metadata.value);
    if verdict == Ignored then Email(row, a.metadata.value, verdict, None, false)
    else Email(row, a.metadata.value, verdict, StoredBody(ExtractPlainText(a.full.value, 0)), a.labelled)
  }

  /** The call for a recorded message, if it is wanted. */
  function CallFor(id: Id, e: Email, delivered: bool): seq<Dispatch> {
    if e.verdict == Ingest then [Dispatch(e.row, id, e.body, delivered)] else []
  }

  lemma RecordingKeeps(classify: Headers -> Verdict, emails: map<Id, Email>, dispatched: seq<Dispatch>,
                       row: nat, id: Id, a: Answers)
    requires Consistent(classify, emails, dispatched) && Records(classify, id in emails, a)
    ensures Consistent(classify, emails[id := Recorded(classify, row, a)],
                       dispatched + CallFor(id, Recorded(classify, row, a), a.dispatch))
  {
    hide Consistent, Recorded;
    RecordedVerdict(classify, row, a);
    AddEmail(classify, emails, dispatched, id, Recorded(classify, row, a), a.dispatch);
  }

  lemma AddEmail(classify: Headers -> Verdict, emails: map<Id, Email>, dispatched: seq<Dispatch>, id: Id, e: Email, ok: bool)
    requires Consistent(classify, emails, dispatched) && id !in emails
    requires e.verdict == classify(e.headers) && (e.body.Some? ==> e.verdict == Ingest)
    ensures Consistent(classify, emails[id := e], dispatched + CallFor(id, e, ok))
  {
    var emails', dispatched' := emails[id := e], dispatched + CallFor(id, e, ok);
    forall d | d in dispatched ensures d.id != id && IsOfRow(emails', d) {
      assert IsOfRow(emails, d);
    }
    assert forall k :: 0 <= k < |dispatched| ==> dispatched[k] in dispatched;
    assert e.verdict == Ingest ==> IsOfRow(emails', Dispatch(e.row, id, e.body, ok)) && dispatched'[|dispatched|].id == id;
    forall other | other in emails' && emails'[other].verdict == Ingest ensures Called(dispatched', other) {
      if other != id {
        assert Called(dispatched, other);
        var k :| 0 <= k < |dispatched| && dispatched[k].id == other;
        assert dispatched'[k].id == other;
      }
    }
  }

  lemma RecordedVerdict(classify: Headers -> Verdict, row: nat, a: Answers)
    requires Records(classify, false, a)
    ensures var e := Recorded(classify, row, a);
      e.verdict == classify(e.headers) && (e.body.Some? ==> e.verdict == Ingest)
  {
  }

  /** The row of a message: its headers, the verdict of the filter on them, and of wanted messages the stored text and
      whether the label was set. */
  lemma RecordedInWords(classify: Headers -> Verdict, row: nat, a: Answers)
    requires Records(classify, false, a)
    ensures a.lookup && a.insert && a.metadata.Some? && (classify(a.metadata.value) == Ingest ==> a.full.Some?)
    ensures Recorded(classify, row, a) ==
      if classify(a.metadata.value) == Ignored then Email(row, a.metadata.value, Ignored, None, false)
      else Email(row, a.metadata.value, Ingest, StoredBody(FirstNonEmpty(PlainTexts(a.full.value, 0))), a.labelled)
  {
    if classify(a.metadata.value) == Ingest {
      ExtractsFirstPlainText(a.full.value, 0);
    }
  }

  predicate CalledSince(dispatched: seq<Dispatch>, from: nat, id: Id) {
    exists k :: from <= k < |dispatched| && dispatched[k].id == id
  }

  /** Rows stay as they are, and of the messages of the window the agent is called for exactly those that get
      a row and are wanted. */
  ghost predicate Extends(emails: map<Id, Email>, dispatched: seq<Dispatch>,
                          emails': map<Id, Email>, dispatched': seq<Dispatch>, window: set<Id>)
  {
    && (forall id :: id in emails ==> id in emails' && emails'[id] == emails[id])
    && dispatched <= dispatched'
    && (forall k :: |dispatched| <= k < |dispatched'| ==> dispatched'[k].id !in emails && dispatched'[k].id in window)
    && (forall id :: id in emails' && id !in emails && emails'[id].verdict == Ingest ==>
          CalledSince(dispatched', |dispatched|, id))
  }

  /** The ids of the messages added in the history answer. */
  function Window(history: Option<seq<seq<Id>>>): set<Id> {
    match history
    case None => {}
    case Some(records) => set k, id | 0 <= k < |records| && id in records[k] :: id
  }

  // ---- The job as a function ----

  datatype Tables = Tables(emails: map<Id, Email>, historyId: Option<string>, dispatched: seq<Dispatch>, nextRow: nat)

  function ProcessOne(classify: Headers -> Verdict, t: Tables, id: Id, a: Answers): Tables {
    if id in t.emails || !a.lookup || a.metadata.None? then t
    else if Records(classify, false, a) then
      var e := Recorded(classify, t.nextRow, a);
      t.(emails := t.emails[id := e], dispatched := t.dispatched + CallFor(id, e, a.dispatch), nextRow := t.nextRow + 1)
    else t.(nextRow := t.nextRow + 1)
  }

  function ProcessAll(classify: Headers -> Verdict, t: Tables, ids: seq<Id>, answers: Id -> Answers): Tables {
    if ids == [] then t
    else ProcessOne(classify, ProcessAll(classify, t, Front(ids), answers), Last(ids), answers(Last(ids)))
  }

  /** Set.add on an insertion-ordered set. */
  function AddNew(ids: seq<Id>, added: seq<Id>): seq<Id> {
    if added == [] then ids
    else
      var before := AddNew(ids, Front(added));
      if Last(added) in before then before else before + [Last(added)]
  }

  function UniqueIds(history: seq<seq<Id>>): seq<Id> {
    if history == [] then [] else AddNew(UniqueIds(Front(history)), Last(history))
  }

  datatype Job = Job(newHistoryId: string, job: JobAnswers, answers: Id -> Answers)

  function RunJob(classify: Headers -> Verdict, t: Tables, j: Job): (Tables, JobOutcome) {
    if !j.job.token then (t, NoToken)
    else if !j.job.historyRead then (t, JobFailed)
    else if t.historyId.None? then
      if j.job.advance then (t.(historyId := Some(j.newHistoryId)), Finished) else (t, JobFailed)
    else if j.job.history.None? then (t, HistoryFailed)
    else
      var ids := UniqueIds(j.job.history.value);
      if ids != [] && !j.job.contacts then (t, JobFailed)
      else
        var done := ProcessAll(classify, t, ids, j.answers);
        if j.job.advance then (done.(historyId := Some(j.newHistoryId)), Finished) else (done, JobFailed)
  }

  class TenantMailbox {
    const classify: Headers -> Verdict
    var emails: map<Id, Email>
    var historyId: Option<string>
    var dispatched: seq<Dispatch>
    var nextRow: nat

    ghost function State(): Tables
      reads this
    {
      Tables(emails, historyId, dispatched, nextRow)
    }

    ghost predicate Valid()
      reads this
    {
      Consistent(classify, emails, dispatched)
    }

    constructor (classify: Headers -> Verdict)
      ensures Valid() && this.classify == classify
      ensures emails == map[] && historyId == None && dispatched == []
    {
      this.classify := classify;
      emails, historyId, dispatched, nextRow := map[], None, [], 0;
    }

    /** INSERT .. ON CONFLICT DO NOTHING. */
    method InsertEmail(id: Id, e: Email)
      modifies this`emails
      ensures emails == if id in old(emails) then old(emails) else old(emails)[id := e]
    {
      if id !in emails {
        emails := emails[id := e];
      }
    }

    /** The agent is called exactly when this call records the message as wanted. If that call of the agent
        raises, the message is recorded all the same. */
    method ProcessMessage(id: Id, a: Answers) returns (outcome: Outcome)
      requires Valid()
      modifies this`emails, this`dispatched, this`nextRow
      ensures Valid()
      ensures !Records(classify, id in old(emails), a) ==> emails == old(emails) && dispatched == old(dispatched)
      ensures Records(classify, id in old(emails), a) ==>
        var e := Recorded(classify, old(nextRow), a);
        emails == old(emails)[id := e] && dispatched == old(dispatched) + CallFor(id, e, a.dispatch)
      ensures State() == ProcessOne(classify, old(State()), id, a)
      ensures outcome == Done ==> id in emails
      ensures outcome == Raised <==>
        !a.lookup || (id !in old(emails) && (!Records(classify, false, a) || (emails[id].verdict == Ingest && !a.dispatch)))
    {
      hide Consistent, StoredBody, ExtractPlainText;
      if !a.lookup {
        return Raised;
      }
      if id in emails {
        return Done;
      }
      if a.metadata.None? {
        return Raised;
      }
      var headers := a.metadata.value;
      var verdict := classify(headers);
      var row := nextRow;
      nextRow := nextRow + 1;
      if verdict == Ignored {
        if !a.insert {
          return Raised;
        }
        RecordingKeeps(classify, emails, dispatched, row, id, a);
        assert dispatched + [] == dispatched;
        InsertEmail(id, Email(row, headers, verdict, None, false));
        return Done;
      }
      if a.full.None? {
        return Raised;
      }
      var body := StoredBody(ExtractPlainText(a.full.value, 0));
      if !a.insert {
        return Raised;
      }
      RecordingKeeps(classify, emails, dispatched, row, id, a);
      InsertEmail(id, Email(row, headers, verdict, body, false));
      if a.labelled {
        emails := emails[id := emails[id].(labelled := true)];
      }
      dispatched := dispatched + [Dispatch(row, id, body, a.dispatch)];
      assert emails == old(emails)[id := Recorded(classify, row, a)];
      outcome := if a.dispatch then Done else Raised;
    }

    /** The distinct ids of the history, in order of appearance. */
    method CollectIds(history: seq<seq<Id>>) returns (ids: seq<Id>)
      ensures ids == UniqueIds(history) && NoDuplicates(ids)
      ensures (set id | id in ids) == Window(Some(history))
    {
      ids := [];
      for k := 0 to |history|
        invariant ids == UniqueIds(history[..k]) && NoDuplicates(ids)
        invariant forall id :: id in ids <==> exists h :: 0 <= h < k && id in history[h]
      {
        var added := history[k];
        ghost var before := ids;
        assert Front(history[..k + 1]) == history[..k];
        for m := 0 to |added|
          invariant ids == AddNew(before, added[..m]) && NoDuplicates(ids)
          invariant forall id :: id in ids <==> (exists h :: 0 <= h < k && id in history[h]) || id in added[..m]
        {
          assert Front(added[..m + 1]) == added[..m];
          if added[m] !in ids {
            ids := ids + [added[m]];
          }
        }
        assert added[..|added|] == added;
      }
      assert history[..|history|] == history;
    }

    /** One message after the other; an error is logged and the next message follows. */
    method ProcessMessages(ids: seq<Id>, ghost window: set<Id>, answers: Id -> Answers)
      requires Valid() && NoDuplicates(ids) && forall k :: 0 <= k < |ids| ==> ids[k] in window
      modifies this`emails, this`dispatched, this`nextRow
      ensures Valid()
      ensures State() == ProcessAll(classify, old(State()), ids, answers)
      ensures Extends(old(emails), old(dispatched), emails, dispatched, window)
      ensures forall m :: 0 <= m < |ids| ==>
        (ids[m] in emails <==> ids[m] in old(emails) || Records(classify, false, answers(ids[m])))
    {
      hide Consistent, Extends, Records, Recorded, ProcessOne;
      NothingChanged(emails, dispatched, window);
      for k := 0 to |ids|
        invariant Valid()
        invariant State() == ProcessAll(classify, old(State()), ids[..k], answers)
        invariant Extends(old(emails), old(dispatched), emails, dispatched, window)
        invariant forall m :: 0 <= m < |ids| ==>
          (ids[m] in emails <==> ids[m] in old(emails) || (m < k && Records(classify, false, answers(ids[m]))))
      {
        assert Front(ids[..k + 1]) == ids[..k];
        ghost var emailsBefore, dispatchedBefore, row := emails, dispatched, nextRow;
        var _ := ProcessMessage(ids[k], answers(ids[k]));
        OneMessageExtends(classify, old(emails), old(dispatched), emailsBefore, dispatchedBefore, window, ids[k], row, answers(ids[k]));
      }
      assert ids[..|ids|] == ids;
    }

    /** A job that finishes has recorded every message of its history window, but for those whose processing
        raised an error before the insert. Rows are never changed; the agent is called once for each message that
        this job records and wants, and for no other. */
    method IngestForTenant(newHistoryId: string, job: JobAnswers, answers: Id -> Answers)
      returns (outcome: JobOutcome)
      requires Valid()
      modifies this
      ensures Valid()
      ensures (State(), outcome) == RunJob(classify, old(State()), Job(newHistoryId, job, answers))
      ensures outcome == NoToken <==> !job.token
      ensures outcome == HistoryFailed <==> job.token && job.historyRead && old(historyId).Some? && job.history.None?
      ensures outcome == Finished <==>
        && job.token && job.historyRead && job.advance
        && (old(historyId).Some? ==> job.history.Some? && (job.contacts || Window(job.history) == {}))
      ensures Extends(old(emails), old(dispatched), emails, dispatched, Window(job.history))
      ensures historyId == if outcome == Finished then Some(newHistoryId) else old(historyId)
      ensures outcome == Finished && old(historyId).Some? ==>
        && job.history.Some?
        && forall id :: id in Window(job.history) ==>
            (id in emails <==> id in old(emails) || Records(classify, false, answers(id)))
      ensures old(historyId).None? || outcome == NoToken || outcome == HistoryFailed ==>
        emails == old(emails) && dispatched == old(dispatched)
    {
      assert ProcessAll(classify, State(), [], answers) == State();
      hide Consistent, Extends, Window, Records, Recorded, ProcessAll, UniqueIds;
      NothingChanged(emails, dispatched, Window(job.history));
      if !job.token {
        return NoToken;
      }
      if !job.historyRead {
        return JobFailed;
      }
      if historyId.None? {
        if !job.advance {
          return JobFailed;
        }
        historyId := Some(newHistoryId);
        return Finished;
      }
      if job.history.None? {
        return HistoryFailed;
      }
      var ids := CollectIds(job.history.value);
      assert forall k :: 0 <= k < |ids| ==> ids[k] in Window(job.history) by {
        assert forall k :: 0 <= k < |ids| ==> ids[k] in (set id | id in ids);
      }
      assert ids == [] ==> Window(job.history) == {};
      if ids != [] {
        assert ids[0] in Window(job.history);
        if !job.contacts {
          return JobFailed;
        }
        ProcessMessages(ids, Window(job.history), answers);
      }
      if !job.advance {
        return JobFailed;
      }
      historyId := Some(newHistoryId);
      outcome := Finished;
    }
  }

  lemma NothingChanged(emails: map<Id, Email>, dispatched: seq<Dispatch>, window: set<Id>)
    ensures Extends(emails, dispatched, emails, dispatched, window)
  {
  }

  lemma OneMessageExtends(classify: Headers -> Verdict, emails0: map<Id, Email>, dispatched0: seq<Dispatch>,
                          emails: map<Id, Email>, dispatched: seq<Dispatch>, window: set<Id>, id: Id, row: nat, a: Answers)
    requires Extends(emails0, dispatched0, emails, dispatched, window) && id in window
    ensures Records(classify, id in emails, a) ==>
      var e := Recorded(classify, row, a);
      Extends(emails0, dispatched0, emails[id := e], dispatched + CallFor(id, e, a.dispatch), window)
  {
    hide StoredBody, ExtractPlainText, Recorded;
    if Records(classify, id in emails, a) {
      var e := Recorded(classify, row, a);
      var longer := dispatched + CallFor(id, e, a.dispatch);
      forall x | x in emails[id := e] && x !in emails0 && emails[id := e][x].verdict == Ingest
        ensures CalledSince(longer, |dispatched0|, x)
      {
        if x == id {
          assert longer[|dispatched|].id == id;
        } else {
          var k :| |dispatched0| <= k < |dispatched| && dispatched[k].id == x;
          assert longer[k].id == x;
        }
      }
    }
  }

  // ---- Over any sequence of jobs ----

  function RunJobs(classify: Headers -> Verdict, jobs: seq<Job>): Tables {
    if jobs == [] then Tables(map[], None, [], 0)
    else RunJob(classify, RunJobs(classify, Front(jobs)), Last(jobs)).0
  }

  /** The calls of the agent for one message. */
  function CallsFor(dispatched: seq<Dispatch>, id: Id): seq<Dispatch> {
    if dispatched == [] then []
    else CallsFor(Front(dispatched), id) + if Last(dispatched).id == id then [Last(dispatched)] else []
  }

  /** Where a message stands: its calls are those of its row, with `delivered` as its one call went. */
  ghost predicate Stands(t: Tables, id: Id, delivered: bool) {
    CallsFor(t.dispatched, id) == if id in t.emails then CallFor(id, t.emails[id], delivered) else []
  }

  lemma CallsForMore(dispatched: seq<Dispatch>, e: Email, other: Id, ok: bool, id: Id)
    ensures CallsFor(dispatched + CallFor(other, e, ok), id) ==
      CallsFor(dispatched, id) + if other == id then CallFor(id, e, ok) else []
  {
    if e.verdict == Ingest {
      assert Front(dispatched + CallFor(other, e, ok)) == dispatched;
    } else {
      assert dispatched + [] == dispatched;
    }
  }

  lemma OneMessage(classify: Headers -> Verdict, t: Tables, other: Id, a: Answers, id: Id, delivered: bool)
    requires Stands(t, id, delivered)
    ensures var t' := ProcessOne(classify, t, other, a);
      && (id in t.emails ==> id in t'.emails && t'.emails[id] == t.emails[id])
      && Stands(t', id, if id in t.emails then delivered else a.dispatch)
      && (other != id ==> (id in t'.emails <==> id in t.emails) && Stands(t', id, delivered))
  {
    hide StoredBody, ExtractPlainText, Recorded, CallsFor;
    if Records(classify, other in t.emails, a) {
      var e := Recorded(classify, t.nextRow, a);
      CallsForMore(t.dispatched, e, other, a.dispatch, id);
      assert CallsFor(t.dispatched, id) + [] == CallsFor(t.dispatched, id);
    }
  }

  lemma {:induction false} AllMessages(classify: Headers -> Verdict, t: Tables, ids: seq<Id>, answers: Id -> Answers,
                                       id: Id, delivered: bool)
    requires Stands(t, id, delivered)
    ensures var t' := ProcessAll(classify, t, ids, answers);
      && (id in t.emails ==> id in t'.emails && t'.emails[id] == t.emails[id])
      && Stands(t', id, if id in t.emails then delivered else answers(id).dispatch)
  {
    if ids != [] {
      AllMessages(classify, t, Front(ids), answers, id, delivered);
      hide Stands, ProcessOne;
      var before := ProcessAll(classify, t, Front(ids), answers);
      OneMessage(classify, before, Last(ids), answers(Last(ids)), id, if id in t.emails then delivered else answers(id).dispatch);
    } else if id !in t.emails {
      assert Stands(t, id, answers(id).dispatch);
    }
  }

  lemma OneJob(classify: Headers -> Verdict, t: Tables, j: Job, id: Id, delivered: bool)
    requires Stands(t, id, delivered)
    ensures var t' := RunJob(classify, t, j).0;
      && (id in t.emails ==> id in t'.emails && t'.emails[id] == t.emails[id])
      && Stands(t', id, if id in t.emails then delivered else j.answers(id).dispatch)
  {
    hide ProcessAll, CallsFor;
    if j.job.history.Some? {
      AllMessages(classify, t, UniqueIds(j.job.history.value), j.answers, id, delivered);
    }
  }

  lemma {:induction false} UnrecordedIsUncalled(classify: Headers -> Verdict, jobs: seq<Job>, id: Id) returns (delivered: bool)
    ensures Stands(RunJobs(classify, jobs), id, delivered)
  {
    if jobs == [] {
      delivered := true;
    } else {
      var before := UnrecordedIsUncalled(classify, Front(jobs), id);
      OneJob(classify, RunJobs(classify, Front(jobs)), Last(jobs), id, before);
      delivered := if id in RunJobs(classify, Front(jobs)).emails then before else Last(jobs).answers(id).dispatch;
    }
  }

  lemma {:induction false} LaterJobs(classify: Headers -> Verdict, jobs: seq<Job>, more: seq<Job>, id: Id, delivered: bool)
    requires id in RunJobs(classify, jobs).emails && Stands(RunJobs(classify, jobs), id, delivered)
    ensures var t, t' := RunJobs(classify, jobs), RunJobs(classify, jobs + more);
      id in t'.emails && t'.emails[id] == t.emails[id] && Stands(t', id, delivered)
  {
    if more == [] {
      assert jobs + more == jobs;
    } else {
      assert Front(jobs + more) == jobs + Front(more);
      hide Stands, RunJob;
      assert RunJobs(classify, jobs + more) == RunJob(classify, RunJobs(classify, jobs + Front(more)), Last(more)).0;
      hide RunJobs;
      LaterJobs(classify, jobs, Front(more), id, delivered);
      OneJob(classify, RunJobs(classify, jobs + Front(more)), Last(more), id, delivered);
    }
  }

  /** Over any sequence of jobs: for a message recorded by some job the agent is called in that job and never
      again, once if the message is wanted and not at all if it is not; it is delivered exactly when that call did
      not raise. A message whose call raised is recorded, not delivered and never tried again. */
  lemma DeliveredExactlyWhenItsOneCallSucceeds(classify: Headers -> Verdict, jobs: seq<Job>, job: Job, more: seq<Job>, id: Id)
    requires id !in RunJobs(classify, jobs).emails && id in RunJobs(classify, jobs + [job]).emails
    ensures var t := RunJobs(classify, jobs + [job] + more);
      id in t.emails && CallsFor(t.dispatched, id) ==
        if t.emails[id].verdict == Ingest then [Dispatch(t.emails[id].row, id, t.emails[id].body, job.answers(id).dispatch)] else []
  {
    assert Front(jobs + [job]) == jobs;
    var before := UnrecordedIsUncalled(classify, jobs, id);
    OneJob(classify, RunJobs(classify, jobs), job, id, before);
    LaterJobs(classify, jobs + [job], more, id, job.answers(id).dispatch);
  }

  lemma {:induction false} NoCalls(dispatched: seq<Dispatch>, id: Id)
    requires CallsFor(dispatched, id) == []
    ensures forall k :: 0 <= k < |dispatched| ==> dispatched[k].id != id
  {
    if dispatched != [] {
      NoCalls(Front(dispatched), id);
    }
  }

  /** The calls for one message are those entries of the list that carry its id. */
  lemma {:induction false} CallsForOne(dispatched: seq<Dispatch>, id: Id, d: Dispatch) returns (k: nat)
    requires CallsFor(dispatched, id) == [d]
    ensures k < |dispatched| && dispatched[k] == d && d.id == id
    ensures forall j :: 0 <= j < |dispatched| && dispatched[j].id == id ==> j == k
  {
    var front, rest := Front(dispatched), CallsFor(Front(dispatched), id);
    if Last(dispatched).id == id {
      assert |rest + [Last(dispatched)]| == 1 && (rest + [Last(dispatched)])[|rest|] == Last(dispatched);
      NoCalls(front, id);
      k := |dispatched| - 1;
    } else {
      assert rest + [] == rest;
      k := CallsForOne(front, id, d);
    }
  }

  // ---- Jobs, in words ----

  /** Processing one message: it is recorded exactly when it was not there, Gmail and the database answered, and the full
      message was read if it is wanted; then the agent is called once if it is wanted, with the row and the stored text. */
  lemma ProcessedInWords(classify: Headers -> Verdict, t: Tables, id: Id, a: Answers)
    ensures var t' := ProcessOne(classify, t, id, a);
      && t'.historyId == t.historyId && t'.nextRow >= t.nextRow
      && (if id !in t.emails && a.lookup && a.metadata.Some? && a.insert
             && (classify(a.metadata.value) == Ingest ==> a.full.Some?) then
            && id in t'.emails && t'.emails == t.emails[id := t'.emails[id]]
            && t'.emails[id].row == t.nextRow < t'.nextRow && t'.emails[id].headers == a.metadata.value
            && t'.emails[id].verdict == classify(a.metadata.value)
            && t'.dispatched == t.dispatched +
                 if classify(a.metadata.value) == Ingest then [Dispatch(t.nextRow, id, t'.emails[id].body, a.dispatch)] else []
          else t'.emails == t.emails && t'.dispatched == t.dispatched)
  {
    hide StoredBody, ExtractPlainText;
  }

  lemma {:induction false} AddedIds(ids: seq<Id>, added: seq<Id>)
    requires NoDuplicates(ids)
    ensures NoDuplicates(AddNew(ids, added)) && forall id :: id in AddNew(ids, added) <==> id in ids || id in added
  {
    if added != [] {
      assert added == Front(added) + [Last(added)];
      AddedIds(ids, Front(added));
      var before := AddNew(ids, Front(added));
      assert forall k :: 0 <= k < |before| ==> before[k] in before;
    }
  }

  /** The ids of a history: each one that some record lists, once. */
  lemma {:induction false} IdsInWords(history: seq<seq<Id>>)
    ensures NoDuplicates(UniqueIds(history))
    ensures forall id :: id in UniqueIds(history) <==> exists k :: 0 <= k < |history| && id in history[k]
  {
    if history != [] {
      IdsInWords(Front(history));
      AddedIds(UniqueIds(Front(history)), Last(history));
      hide AddNew;
      forall id ensures id in UniqueIds(history) <==> exists k :: 0 <= k < |history| && id in history[k] {
        if id in Last(history) {
          assert id in history[|history| - 1];
        }
        if k: nat :| k < |history| - 1 && id in history[k] {
          assert id in Front(history)[k];
        }
      }
    }
  }

  /** Gmail and the database answer so that the message can be recorded. */
  predicate Recordable(classify: Headers -> Verdict, a: Answers) {
    a.lookup && a.metadata.Some? && a.insert && (classify(a.metadata.value) == Ingest ==> a.full.Some?)
  }

  lemma {:induction false} RecordedAmong(classify: Headers -> Verdict, t: Tables, ids: seq<Id>, answers: Id -> Answers, id: Id)
    ensures id in ProcessAll(classify, t, ids, answers).emails <==>
      id in t.emails || (id in ids && Recordable(classify, answers(id)))
  {
    if ids != [] {
      assert ids == Front(ids) + [Last(ids)];
      RecordedAmong(classify, t, Front(ids), answers, id);
      ProcessedInWords(classify, ProcessAll(classify, t, Front(ids), answers), Last(ids), answers(Last(ids)));
      hide ProcessOne;
    }
  }

  lemma NothingNew(history: seq<seq<Id>>)
    ensures UniqueIds(history) == [] <==> forall k :: 0 <= k < |history| ==> history[k] == []
  {
    IdsInWords(history);
    hide UniqueIds;
    assert UniqueIds(history) != [] ==> UniqueIds(history)[0] in UniqueIds(history);
    if k :| 0 <= k < |history| && history[k] != [] {
      assert history[k][0] in UniqueIds(history);
    }
  }

  /** One more job: a message is recorded by it exactly when the job gets to the messages of its history, the history lists
      it, and the answers for it allow it; the history pointer moves exactly when it can be written and there was no pointer yet,
      or the history was read and either lists nothing or the contacts could be read too. */
  lemma OneMoreJob(classify: Headers -> Verdict, jobs: seq<Job>, j: Job, id: Id)
    ensures RunJobs(classify, []) == Tables(map[], None, [], 0)
    ensures var t, t' := RunJobs(classify, jobs), RunJobs(classify, jobs + [j]);
      var looks := j.job.token && j.job.historyRead && t.historyId.Some? && j.job.history.Some?;
      && (id in t'.emails <==>
            || id in t.emails
            || (looks && j.job.contacts && (exists k :: 0 <= k < |j.job.history.value| && id in j.job.history.value[k])
                && Recordable(classify, j.answers(id))))
      && var writes := j.job.token && j.job.historyRead && j.job.advance;
      var nothingNew := j.job.history.Some? && forall k :: 0 <= k < |j.job.history.value| ==> j.job.history.value[k] == [];
      t'.historyId ==
        if writes && (t.historyId.None? || (looks && (j.job.contacts || nothingNew))) then Some(j.newHistoryId) else t.historyId
  {
    assert Front(jobs + [j]) == jobs;
    var t := RunJobs(classify, jobs);
    if j.job.history.Some? {
      IdsInWords(j.job.history.value);
      RecordedAmong(classify, t, UniqueIds(j.job.history.value), j.answers, id);
      PointerStays(classify, t, UniqueIds(j.job.history.value), j.answers);
      NothingNew(j.job.history.value);
    }
    hide ProcessAll, UniqueIds, RunJobs;
  }

  lemma {:induction false} PointerStays(classify: Headers -> Verdict, t: Tables, ids: seq<Id>, answers: Id -> Answers)
    ensures ProcessAll(classify, t, ids, answers).historyId == t.historyId
  {
    if ids != [] {
      PointerStays(classify, t, Front(ids), answers);
      hide Recorded, CallFor;
    }
  }
}
