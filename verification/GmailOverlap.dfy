/** Gmail ingest jobs that overlap: the worker runs several jobs at once, so two of them may process the
    same message. Each attempt moves on at its own pace from the duplicate check to the hand-over,
    which is the call of the agent, whether or not that call succeeds. */
module GmailOverlap {
  import opened Prelude

  type Id = string
  type AttemptId = nat

  datatype Stage =
    | Checked
    | Unwanted          // the filter ignores the message, its row is not stored yet
    | Wanted            // the full message is being fetched, its row is not stored yet
    | Stored            // the row is there, the agent not told yet
    | Ended

  datatype Attempt = Attempt(id: Id, stage: Stage)

  datatype State = State(emails: set<Id>, attempts: map<AttemptId, Attempt>, next: AttemptId, dispatched: seq<Id>)

  datatype Step =
    | Begin(id: Id)
    | Filter(k: AttemptId, ingest: bool)
    | Insert(k: AttemptId)
    | Dispatch(k: AttemptId)
    | Fail(k: AttemptId)

  /** Past the duplicate check, not turned down by the filter, its row not stored yet. */
  predicate Blind(a: Attempt) {
    a.stage.Checked? || a.stage.Wanted?
  }

  function Move(s: State, k: AttemptId, stage: Stage): State
    requires k in s.attempts
  {
    s.(attempts := s.attempts[k := s.attempts[k].(stage := stage)])
  }

  predicate At(s: State, k: AttemptId, stage: Stage) {
    k in s.attempts && s.attempts[k].stage == stage
  }

  /** A step that does not apply leaves the state as it is. */
  function Next(s: State, step: Step): State {
    match step
    case Begin(id) =>
      if id in s.emails then s
      else s.(attempts := s.attempts[s.next := Attempt(id, Checked)], next := s.next + 1)
    case Filter(k, ingest) => if At(s, k, Checked) then Move(s, k, if ingest then Wanted else Unwanted) else s
    case Insert(k) =>
      if At(s, k, Unwanted) then Move(s, k, Ended).(emails := s.emails + {s.attempts[k].id})
      else if At(s, k, Wanted) then Move(s, k, Stored).(emails := s.emails + {s.attempts[k].id})
      else s
    case Dispatch(k) =>
      if At(s, k, Stored) then Move(s, k, Ended).(dispatched := s.dispatched + [s.attempts[k].id]) else s
    case Fail(k) => if k in s.attempts then Move(s, k, Ended) else s
  }

  function Run(steps: seq<Step>): State {
    if steps == [] then State({}, map[], 0, []) else Next(Run(Front(steps)), Last(steps))
  }

  /** Two attempts on one message are blind at the same time. */
  ghost predicate Race(s: State) {
    exists j, k :: RaceOf(s, j, k)
  }

  predicate RaceOf(s: State, j: AttemptId, k: AttemptId) {
    && j != k && j in s.attempts && k in s.attempts
    && Blind(s.attempts[j]) && Blind(s.attempts[k]) && s.attempts[j].id == s.attempts[k].id
  }

  ghost predicate EverRaced(steps: seq<Step>) {
    Race(Run(steps)) || (steps != [] && EverRaced(Front(steps)))
  }

  ghost predicate Calm(s: State) {
    && (forall k :: k in s.attempts ==> k < s.next)
    && (forall k :: At(s, k, Stored) ==> s.attempts[k].id in s.emails && s.attempts[k].id !in s.dispatched)
    && (forall j, k :: At(s, j, Stored) && At(s, k, Stored) && j != k ==> s.attempts[j].id != s.attempts[k].id)
    && (forall j, k :: At(s, j, Stored) && k in s.attempts && Blind(s.attempts[k]) ==> s.attempts[j].id != s.attempts[k].id)
    && (forall k :: k in s.attempts && Blind(s.attempts[k]) ==> s.attempts[k].id !in s.dispatched)
    && (forall id :: id in s.dispatched ==> id in s.emails)
    && NoDuplicates(s.dispatched)
  }

  lemma NoRival(s: State, k: AttemptId, j: AttemptId)
    requires !Race(s) && k in s.attempts && Blind(s.attempts[k]) && j in s.attempts && Blind(s.attempts[j]) && j != k
    ensures s.attempts[j].id != s.attempts[k].id
  {
    assert !RaceOf(s, j, k);
  }

  lemma StoreKeepsCalm(s: State, k: AttemptId)
    requires Calm(s) && !Race(s) && At(s, k, Wanted)
    ensures Calm(Next(s, Insert(k)))
  {
    forall j | j in s.attempts && j != k && Blind(s.attempts[j]) ensures s.attempts[j].id != s.attempts[k].id {
      NoRival(s, k, j);
    }
    hide Race;
  }

  lemma BeginKeepsCalm(s: State, id: Id)
    requires Calm(s)
    ensures Calm(Next(s, Begin(id)))
  {
  }

  lemma MoveKeepsCalm(s: State, k: AttemptId, stage: Stage)
    requires Calm(s) && k in s.attempts
    requires stage == Ended || (s.attempts[k].stage == Checked && (stage == Wanted || stage == Unwanted))
    ensures Calm(Move(s, k, stage))
  {
    var t := Move(s, k, stage);
    assert forall j :: j in t.attempts <==> j in s.attempts;
    forall j | j in s.attempts
      ensures t.attempts[j].id == s.attempts[j].id && (Blind(t.attempts[j]) ==> Blind(s.attempts[j]))
      ensures At(t, j, Stored) ==> At(s, j, Stored)
    {
    }
    hide Move, Blind;
  }

  lemma MoreEmailsKeepCalm(s: State, id: Id)
    requires Calm(s)
    ensures Calm(s.(emails := s.emails + {id}))
  {
    var t := s.(emails := s.emails + {id});
    assert forall j :: At(t, j, Stored) ==> At(s, j, Stored);
  }

  lemma QuietStepKeepsCalm(s: State, step: Step)
    requires Calm(s) && (step.Filter? || step.Fail? || (step.Insert? && !At(s, step.k, Wanted)))
    ensures Calm(Next(s, step))
  {
    hide Calm;
    match step
    case Filter(k, ingest) => if At(s, k, Checked) { MoveKeepsCalm(s, k, if ingest then Wanted else Unwanted); }
    case Fail(k) => if k in s.attempts { MoveKeepsCalm(s, k, Ended); }
    case Insert(k) =>
      if At(s, k, Unwanted) {
        MoreEmailsKeepCalm(s, s.attempts[k].id);
        MoveKeepsCalm(s.(emails := s.emails + {s.attempts[k].id}), k, Ended);
      }
  }

  lemma DispatchKeepsCalm(s: State, k: AttemptId)
    requires Calm(s)
    ensures Calm(Next(s, Dispatch(k)))
  {
    if At(s, k, Stored) {
      assert forall i :: 0 <= i < |s.dispatched| ==> s.dispatched[i] in s.dispatched;
    }
  }

  lemma {:induction false} CalmWithoutRace(steps: seq<Step>)
    requires !EverRaced(steps)
    ensures Calm(Run(steps))
  {
    if steps != [] {
      var s := Run(Front(steps));
      CalmWithoutRace(Front(steps));
      hide Calm, Race;
      match Last(steps)
      case Begin(id) => BeginKeepsCalm(s, id);
      case Insert(k) => if At(s, k, Wanted) { StoreKeepsCalm(s, k); } else { QuietStepKeepsCalm(s, Last(steps)); }
      case Dispatch(k) => DispatchKeepsCalm(s, k);
      case _ => QuietStepKeepsCalm(s, Last(steps));
    }
  }

  /** However jobs interleave, a message is handed over twice only if two attempts on it that the filter did
      not turn down were between their duplicate check and their insert at once. */
  lemma TwoDispatchesNeedARace(steps: seq<Step>)
    requires !NoDuplicates(Run(steps).dispatched)
    ensures EverRaced(steps)
  {
    if !EverRaced(steps) {
      CalmWithoutRace(steps);
    }
  }

  function RunFrom(s: State, steps: seq<Step>): State {
    if steps == [] then s else Next(RunFrom(s, Front(steps)), Last(steps))
  }

  /** One attempt goes through to the hand-over. */
  function Through(k: AttemptId): seq<Step> {
    [Filter(k, true), Insert(k), Dispatch(k)]
  }

  lemma GoesThrough(s: State, k: AttemptId)
    requires k in s.attempts && (s.attempts[k].stage.Checked? || s.attempts[k].stage.Wanted?)
    ensures var t := RunFrom(s, Through(k));
      && t.dispatched == s.dispatched + [s.attempts[k].id]
      && forall j :: j != k && j in s.attempts ==> j in t.attempts && t.attempts[j] == s.attempts[j]
  {
    var steps := Through(k);
    assert Front(steps) == [Filter(k, true), Insert(k)] && Front(Front(steps)) == [Filter(k, true)];
    assert Front([Filter(k, true)]) == [];
    var s1 := Next(s, Filter(k, true));
    assert RunFrom(s, [Filter(k, true)]) == s1;
    assert RunFrom(s, [Filter(k, true), Insert(k)]) == Next(s1, Insert(k));
  }

  lemma {:induction false} RunFromConcat(s: State, a: seq<Step>, b: seq<Step>)
    ensures RunFrom(s, a + b) == RunFrom(RunFrom(s, a), b)
  {
    hide Next;
    if b == [] {
      assert a + b == a;
    } else {
      RunFromConcat(s, a, Front(b));
      assert Front(a + b) == a + Front(b);
    }
  }

  lemma {:induction false} RunIsRunFrom(a: seq<Step>, b: seq<Step>)
    ensures Run(a + b) == RunFrom(Run(a), b)
  {
    hide Next;
    if b == [] {
      assert a + b == a;
    } else {
      RunIsRunFrom(a, Front(b));
      assert Front(a + b) == a + Front(b);
    }
  }

  /** And from every such overlap the run can go on to hand the message over twice: the duplicate check alone
      does not prevent it. */
  lemma RaceAllowsTwoDispatches(steps: seq<Step>, j: AttemptId, k: AttemptId) returns (more: seq<Step>)
    requires RaceOf(Run(steps), j, k)
    ensures !NoDuplicates(Run(steps + more).dispatched)
  {
    var s := Run(steps);
    more := Through(j) + Through(k);
    GoesThrough(s, j);
    var t := RunFrom(s, Through(j));
    GoesThrough(t, k);
    RunFromConcat(s, Through(j), Through(k));
    RunIsRunFrom(steps, more);
    var all := Run(steps + more).dispatched;
    var n := |s.dispatched|;
    assert all[n] == all[n + 1];
  }

  /** A message is taken up only when every earlier attempt has ended, as with jobs run one at a time. */
  ghost predicate OneAtATime(steps: seq<Step>) {
    steps != [] ==>
      && OneAtATime(Front(steps))
      && (Last(steps).Begin? ==> forall k :: k in Run(Front(steps)).attempts ==> At(Run(Front(steps)), k, Ended))
  }

  lemma {:induction false} AtMostOneOpen(steps: seq<Step>, j: AttemptId, k: AttemptId)
    requires OneAtATime(steps) && j in Run(steps).attempts && k in Run(steps).attempts && j != k
    ensures At(Run(steps), j, Ended) || At(Run(steps), k, Ended)
  {
    if steps != [] {
      var s := Run(Front(steps));
      if j in s.attempts && k in s.attempts {
        AtMostOneOpen(Front(steps), j, k);
      }
    }
  }

  lemma {:induction false} NeverRaces(steps: seq<Step>)
    requires OneAtATime(steps)
    ensures !EverRaced(steps)
  {
    forall j, k | j in Run(steps).attempts && k in Run(steps).attempts && j != k
      ensures !RaceOf(Run(steps), j, k)
    {
      AtMostOneOpen(steps, j, k);
    }
    if steps != [] {
      NeverRaces(Front(steps));
    }
  }

  /** With jobs run one at a time every message is handed over at most once. */
  lemma DispatchedAtMostOnce(steps: seq<Step>)
    requires OneAtATime(steps)
    ensures NoDuplicates(Run(steps).dispatched)
  {
    NeverRaces(steps);
    CalmWithoutRace(steps);
  }

  /** One attempt by itself: a message that was not there is stored, turned down or not, and handed over once if it is wanted. */
  lemma OneAttempt(s: State, id: Id, ingest: bool)
    requires id !in s.emails
    ensures var begun := Next(s, Begin(id));
      var inserted := Next(Next(begun, Filter(s.next, ingest)), Insert(s.next));
      var done := Next(inserted, Dispatch(s.next));
      && begun.next > s.next && begun.emails == s.emails && begun.dispatched == s.dispatched
      && inserted.emails == done.emails == s.emails + {id} && inserted.dispatched == s.dispatched
      && done.dispatched == s.dispatched + (if ingest then [id] else [])
      && At(done, s.next, Ended) && (ingest ==> At(inserted, s.next, Stored))
  {
    assert s.dispatched + [] == s.dispatched;
  }

  /** An attempt that raised does nothing any more, and what it did stays. */
  lemma FailureEnds(s: State, k: AttemptId, step: Step)
    requires step == Insert(k) || step == Dispatch(k) || (step.Filter? && step.k == k)
    ensures var failed := Next(s, Fail(k));
      Next(failed, step) == failed && failed.emails == s.emails && failed.dispatched == s.dispatched
  {
  }
}
