/** Drains of the offline queue that interleave. A drain takes its batch once and then awaits a POST and
    a write for each message; nothing keeps a second drain from starting before it is through. */
module OfflineDrains {
  import opened Prelude
  import opened OfflineQueue

  type DrainId = nat

  /** Where a drain stands with the first message it still has to do. */
  datatype Phase =
    | Ready
    | Expired                  // out of retries, to be dropped without a POST
    | Sent
    | Answered(ok: bool)       // a failing request counts as a refusal

  datatype Drain = Drain(todo: seq<Message>, phase: Phase)

  datatype State = State(queue: seq<Message>, drains: map<DrainId, Drain>, next: DrainId, posts: seq<Post>)

  datatype Step =
    | Enqueue(message: Message)
    | Begin                    // while connected
    | Send(d: DrainId)
    | Answer(d: DrainId, ok: bool)
    | Finish(d: DrainId)       // the queue is updated for the first message

  predicate At(s: State, d: DrainId, phase: Phase) {
    d in s.drains && s.drains[d].todo != [] && s.drains[d].phase == phase
  }

  function Head(s: State, d: DrainId): Message
    requires d in s.drains && s.drains[d].todo != []
  {
    s.drains[d].todo[0]
  }

  predicate Settled(phase: Phase) {
    phase.Expired? || phase.Answered?
  }

  function FinishStep(s: State, d: DrainId): State
    requires d in s.drains && s.drains[d].todo != []
  {
    var x := s.drains[d];
    s.(queue := if x.phase == Answered(false) then Bumped(s.queue, x.todo[0].id) else Without(s.queue, x.todo[0].id),
       drains := s.drains[d := Drain(x.todo[1..], Ready)])
  }

  /** A step that does not apply leaves the state as it is. */
  function Next(s: State, step: Step): State {
    match step
    case Enqueue(m) => s.(queue := Enqueued(s.queue, m))
    case Begin => s.(drains := s.drains[s.next := Drain(Batch(s.queue), Ready)], next := s.next + 1)
    case Send(d) =>
      if At(s, d, Ready) then
        s.(drains := s.drains[d := s.drains[d].(phase := if Head(s, d).retries >= MAX_RETRY then Expired else Sent)])
      else s
    case Answer(d, ok) =>
      if At(s, d, Sent) then
        s.(drains := s.drains[d := s.drains[d].(phase := Answered(ok))], posts := s.posts + [Post(Head(s, d).id, ok)])
      else s
    case Finish(d) =>
      if d in s.drains && s.drains[d].todo != [] && Settled(s.drains[d].phase) then FinishStep(s, d) else s
  }

  function Start(): State {
    State([], map[], 0, [])
  }

  function RunFrom(s: State, steps: seq<Step>): State {
    if steps == [] then s else Next(RunFrom(s, Front(steps)), Last(steps))
  }

  function Run(steps: seq<Step>): State {
    RunFrom(Start(), steps)
  }

  function FirstAfter(step: Step, id: Id, first: Option<Message>): Option<Message> {
    if step.Enqueue? && step.message.id == id then Some(step.message) else first
  }

  function AnswersAfter(s: State, step: Step, id: Id, answers: seq<bool>): seq<bool> {
    if step.Enqueue? && step.message.id == id then []
    else if step.Answer? && At(s, step.d, Sent) && Head(s, step.d).id == id then answers + [step.ok]
    else answers
  }

  /** The message as it was enqueued last. */
  function EnqueuedLast(steps: seq<Step>, id: Id): Option<Message> {
    if steps == [] then None else FirstAfter(Last(steps), id, EnqueuedLast(Front(steps), id))
  }

  /** The answers to the POSTs of a message since it was enqueued last. */
  function Answers(steps: seq<Step>, id: Id): seq<bool> {
    if steps == [] then []
    else AnswersAfter(Run(Front(steps)), Last(steps), id, Answers(Front(steps), id))
  }

  /** The drain still has the message to do. */
  predicate Has(s: State, d: DrainId, id: Id) {
    d in s.drains && Lookup(s.drains[d].todo, id).Some?
  }

  ghost predicate SharedOn(s: State, id: Id) {
    exists j, k :: j != k && Has(s, j, id) && Has(s, k, id)
  }

  /** At no time do two drains have the message to do, and it is not enqueued anew while one has. */
  ghost predicate Undisturbed(steps: seq<Step>, id: Id) {
    steps != [] ==>
      var s := Run(Front(steps));
      && Undisturbed(Front(steps), id)
      && !SharedOn(s, id)
      && (Last(steps).Enqueue? && Last(steps).message.id == id ==> forall d :: !Has(s, d, id))
  }

  // ---- The invariant ----

  ghost predicate DrainShape(s: State, d: DrainId)
    requires d in s.drains
  {
    var x := s.drains[d];
    && d < s.next && Distinct(x.todo)
    && (x.phase != Ready ==> x.todo != [] && (x.phase == Expired <==> x.todo[0].retries >= MAX_RETRY))
  }

  ghost predicate DrainInv(s: State, d: DrainId, id: Id)
    requires d in s.drains
  {
    DrainShape(s, d) && (Has(s, d, id) ==> Lookup(s.queue, id) == Lookup(s.drains[d].todo, id))
  }

  predicate HeadAnswered(s: State, d: DrainId, id: Id) {
    d in s.drains && s.drains[d].todo != [] && s.drains[d].phase.Answered? && s.drains[d].todo[0].id == id
  }

  ghost predicate FateInv(s: State, id: Id, first: Message, answers: seq<bool>) {
    && (forall d :: HeadAnswered(s, d, id) ==>
          answers != [] && Last(answers) == s.drains[d].phase.ok && Fated(first, Lookup(s.queue, id), Front(answers)))
    && ((forall d :: !HeadAnswered(s, d, id)) ==> Fated(first, Lookup(s.queue, id), answers))
  }

  ghost predicate QueueInv(s: State, id: Id) {
    Distinct(s.queue) && forall d :: d in s.drains ==> DrainInv(s, d, id)
  }

  lemma TailLooks(todo: seq<Message>, id: Id)
    requires todo != [] && Distinct(todo)
    ensures Distinct(todo[1..])
    ensures Lookup(todo[1..], id) == if id == todo[0].id then None else Lookup(todo, id)
    ensures Lookup(todo, todo[0].id) == Some(todo[0])
  {
    var rest := todo[1..];
    var i, j := IndexOf(todo, id), IndexOf(rest, id);
    if j < |rest| {
      assert todo[j + 1].id == id;
    }
    if 0 < i < |todo| {
      assert rest[i - 1].id == id;
    }
  }

  lemma BatchLooks(q: seq<Message>, id: Id)
    requires Distinct(q)
    ensures Distinct(Batch(q))
    ensures Lookup(Batch(q), id).Some? ==> Lookup(q, id) == Lookup(Batch(q), id)
  {
    DistinctByTime(q);
    hide Lookup;
    DrainLooks(q, {}, id);
  }

  lemma EnqueueKeepsQueue(s: State, m: Message, id: Id)
    requires QueueInv(s, id) && (m.id == id ==> forall d :: !Has(s, d, id))
    ensures QueueInv(Next(s, Enqueue(m)), id)
  {
    EnqueueKeeps(s.queue, m);
    EnqueueLooks(s.queue, m, id);
    hide Lookup, Enqueued, Distinct;
    var s' := Next(s, Enqueue(m));
    forall d | d in s'.drains ensures DrainInv(s', d, id) {
      assert DrainInv(s, d, id) && Has(s, d, id) == Has(s', d, id);
    }
  }

  lemma BeginKeepsQueue(s: State, id: Id)
    requires QueueInv(s, id)
    ensures QueueInv(Next(s, Begin), id)
  {
    BatchLooks(s.queue, id);
    hide Lookup, Batch, Distinct;
    var s' := Next(s, Begin);
    forall d | d in s'.drains ensures DrainInv(s', d, id) {
      if d != s.next {
        assert DrainInv(s, d, id) && Has(s, d, id) == Has(s', d, id);
      }
    }
  }

  lemma PhaseKeepsQueue(s: State, step: Step, id: Id)
    requires QueueInv(s, id) && (step.Send? || step.Answer?)
    ensures QueueInv(Next(s, step), id)
  {
    hide Lookup, Distinct;
    var s' := Next(s, step);
    forall d | d in s'.drains ensures DrainInv(s', d, id) {
      assert DrainInv(s, d, id) && Has(s, d, id) == Has(s', d, id);
    }
  }

  /** What finishing a message does to the queue and to what the drain has left. */
  lemma FinishLooks(s: State, d: DrainId, id: Id)
    requires QueueInv(s, id) && d in s.drains && s.drains[d].todo != []
    ensures var s' := FinishStep(s, d); var m := Head(s, d);
      && Distinct(s'.queue)
      && (m.id != id ==> Lookup(s'.queue, id) == Lookup(s.queue, id) && Has(s', d, id) == Has(s, d, id))
      && (m.id == id ==>
            && Has(s, d, id) && !Has(s', d, id) && Lookup(s.queue, id) == Some(m)
            && Lookup(s'.queue, id) == if s.drains[d].phase == Answered(false) then Some(Bump(m)) else None)
      && Lookup(s'.drains[d].todo, id) == (if m.id == id then None else Lookup(s.drains[d].todo, id))
      && Distinct(s'.drains[d].todo)
  {
    assert DrainInv(s, d, id);
    TailLooks(s.drains[d].todo, id);
    WithoutLooks(s.queue, Head(s, d).id, id);
    BumpedLookup(s.queue, Head(s, d).id, id);
    BumpedIsUpdate(s.queue, Head(s, d).id);
    hide Lookup, Distinct, Without, Bumped;
  }

  lemma FinishKeepsQueue(s: State, d: DrainId, id: Id)
    requires QueueInv(s, id) && !SharedOn(s, id) && d in s.drains && s.drains[d].todo != []
    ensures QueueInv(FinishStep(s, d), id)
  {
    FinishLooks(s, d, id);
    hide Lookup, Distinct, Without, Bumped;
    var s' := FinishStep(s, d);
    forall k | k in s'.drains ensures DrainInv(s', k, id) {
      assert DrainInv(s, k, id);
      if k != d {
        assert Has(s, k, id) == Has(s', k, id);
        assert !(Has(s, d, id) && Has(s, k, id));
      }
    }
  }

  lemma StepKeepsQueue(s: State, step: Step, id: Id)
    requires QueueInv(s, id) && !SharedOn(s, id)
    requires step.Enqueue? && step.message.id == id ==> forall d :: !Has(s, d, id)
    ensures QueueInv(Next(s, step), id)
  {
    hide QueueInv, SharedOn;
    match step
    case Enqueue(m) => EnqueueKeepsQueue(s, m, id);
    case Begin => BeginKeepsQueue(s, id);
    case Finish(d) =>
      if d in s.drains && s.drains[d].todo != [] && Settled(s.drains[d].phase) { FinishKeepsQueue(s, d, id); }
    case _ => PhaseKeepsQueue(s, step, id);
  }

  /** A step that leaves the message and its answered drains alone leaves its fate alone. */
  lemma SameFate(s: State, s': State, id: Id, first: Message, answers: seq<bool>)
    requires FateInv(s, id, first, answers) && Lookup(s'.queue, id) == Lookup(s.queue, id)
    requires forall d :: HeadAnswered(s', d, id) <==> HeadAnswered(s, d, id)
    requires forall d :: HeadAnswered(s, d, id) ==> d in s'.drains && s'.drains[d].phase == s.drains[d].phase
    ensures FateInv(s', id, first, answers)
  {
    hide Fated, Lookup;
  }

  /** The answer to a POST of the message. */
  lemma AnswerKeepsFate(s: State, d: DrainId, ok: bool, id: Id, first: Message, answers: seq<bool>)
    requires QueueInv(s, id) && !SharedOn(s, id) && FateInv(s, id, first, answers)
    requires At(s, d, Sent) && Head(s, d).id == id
    ensures FateInv(Next(s, Answer(d, ok)), id, first, answers + [ok])
  {
    var s' := Next(s, Answer(d, ok));
    forall k | HeadAnswered(s, k, id) || HeadAnswered(s', k, id) ensures k == d {
      OnlyOneHas(s, d, k, id);
    }
    assert Front(answers + [ok]) == answers;
    assert HeadAnswered(s', d, id);
    hide Fated, Lookup;
  }

  lemma OnlyOneHas(s: State, d: DrainId, k: DrainId, id: Id)
    requires QueueInv(s, id) && !SharedOn(s, id)
    requires d in s.drains && s.drains[d].todo != [] && Head(s, d).id == id
    requires k in s.drains && s.drains[k].todo != [] && Head(s, k).id == id
    ensures k == d
  {
    assert DrainInv(s, d, id) && DrainInv(s, k, id);
    TailLooks(s.drains[d].todo, id);
    TailLooks(s.drains[k].todo, id);
    assert Has(s, d, id) && Has(s, k, id);
  }

  /** The end of the message's turn. */
  lemma FinishKeepsFate(s: State, d: DrainId, id: Id, first: Message, answers: seq<bool>)
    requires QueueInv(s, id) && !SharedOn(s, id) && FateInv(s, id, first, answers)
    requires d in s.drains && s.drains[d].todo != [] && Settled(s.drains[d].phase) && Head(s, d).id == id
    ensures FateInv(FinishStep(s, d), id, first, answers)
  {
    hide Fated, Lookup, Without, Bumped, Distinct, SharedOn;
    var s', x := FinishStep(s, d), s.drains[d];
    assert DrainInv(s, d, id);
    FinishLooks(s, d, id);
    hide QueueInv, DrainInv;
    forall k | HeadAnswered(s, k, id) || HeadAnswered(s', k, id) ensures k == d && x.phase.Answered? {
      OnlyOneHas(s, d, k, id);
    }
    assert !HeadAnswered(s', d, id);
    if x.phase.Answered? {
      assert HeadAnswered(s, d, id);
      FateStep(first, x.todo[0], Front(answers), x.phase.ok);
      assert Front(answers) + [Last(answers)] == answers;
    } else {
      FateStep(first, x.todo[0], answers, false);
    }
  }

  predicate Touches(s: State, step: Step, id: Id) {
    match step
    case Enqueue(m) => m.id == id
    case Answer(d, _) => At(s, d, Sent) && Head(s, d).id == id
    case Finish(d) => d in s.drains && s.drains[d].todo != [] && Head(s, d).id == id && Settled(s.drains[d].phase)
    case _ => false
  }

  lemma OtherStepsKeepFate(s: State, step: Step, id: Id, first: Message, answers: seq<bool>)
    requires QueueInv(s, id) && FateInv(s, id, first, answers) && !Touches(s, step, id)
    ensures FateInv(Next(s, step), id, first, answers)
  {
    var s' := Next(s, step);
    if step.Enqueue? {
      EnqueueLooks(s.queue, step.message, id);
    }
    if step.Finish? && step.d in s.drains && s.drains[step.d].todo != [] && Settled(s.drains[step.d].phase) {
      FinishLooks(s, step.d, id);
    }
    hide Fated, Lookup, Without, Bumped, Distinct, FateInv, Enqueued, Batch;
    assert step.Begin? ==> s.next !in s.drains by {
      NextIsFresh(s, id);
    }
    SameFate(s, s', id, first, answers);
  }

  lemma NextIsFresh(s: State, id: Id)
    requires QueueInv(s, id)
    ensures s.next !in s.drains
  {
    assert s.next in s.drains ==> DrainInv(s, s.next, id);
  }

  lemma NotDoneUnlessHeld(s: State, d: DrainId, id: Id)
    requires QueueInv(s, id) && d in s.drains && s.drains[d].todo != [] && Head(s, d).id == id
    ensures Has(s, d, id) && Lookup(s.queue, id) == Some(Head(s, d))
  {
    assert DrainInv(s, d, id);
    TailLooks(s.drains[d].todo, id);
  }

  lemma UnknownStaysUnknown(s: State, step: Step, id: Id, answers: seq<bool>)
    requires QueueInv(s, id) && Lookup(s.queue, id) == None && FirstAfter(step, id, None).None?
    ensures Lookup(Next(s, step).queue, id) == None && AnswersAfter(s, step, id, answers) == answers
  {
    if step.Enqueue? {
      EnqueueLooks(s.queue, step.message, id);
    }
    if (step.Finish? || step.Answer?) && step.d in s.drains && s.drains[step.d].todo != [] {
      if Head(s, step.d).id == id {
        NotDoneUnlessHeld(s, step.d, id);
      } else {
        FinishLooks(s, step.d, id);
      }
    }
    hide Lookup, Without, Bumped, Distinct, Enqueued, Batch;
  }

  lemma EnqueueStartsFate(s: State, m: Message)
    requires QueueInv(s, m.id) && forall d :: !Has(s, d, m.id)
    ensures FateInv(Next(s, Enqueue(m)), m.id, m, [])
  {
    EnqueueLooks(s.queue, m, m.id);
    FateStarts(m);
    var s' := Next(s, Enqueue(m));
    forall d ensures !HeadAnswered(s', d, m.id) {
      if HeadAnswered(s, d, m.id) {
        NotDoneUnlessHeld(s, d, m.id);
      }
    }
    hide Lookup, Fated, Enqueued;
  }

  ghost predicate Inv(s: State, id: Id, first: Option<Message>, answers: seq<bool>) {
    && QueueInv(s, id)
    && (first.None? ==> Lookup(s.queue, id) == None && answers == [])
    && (first.Some? ==> FateInv(s, id, first.value, answers))
  }

  lemma StepKeepsInv(s: State, step: Step, id: Id, first: Option<Message>, answers: seq<bool>)
    requires Inv(s, id, first, answers) && !SharedOn(s, id)
    requires step.Enqueue? && step.message.id == id ==> forall d :: !Has(s, d, id)
    ensures Inv(Next(s, step), id, FirstAfter(step, id, first), AnswersAfter(s, step, id, answers))
  {
    hide QueueInv, FateInv, Lookup, SharedOn, Has;
    StepKeepsQueue(s, step, id);
    if step.Enqueue? && step.message.id == id {
      EnqueueStartsFate(s, step.message);
    } else if first.None? {
      UnknownStaysUnknown(s, step, id, answers);
    } else if !Touches(s, step, id) {
      OtherStepsKeepFate(s, step, id, first.value, answers);
    } else if step.Answer? {
      AnswerKeepsFate(s, step.d, step.ok, id, first.value, answers);
    } else {
      FinishKeepsFate(s, step.d, id, first.value, answers);
    }
  }

  lemma {:induction false} RunKeepsFate(steps: seq<Step>, id: Id)
    requires Undisturbed(steps, id)
    ensures Inv(Run(steps), id, EnqueuedLast(steps, id), Answers(steps, id))
  {
    if steps != [] {
      hide Inv, Next;
      RunKeepsFate(Front(steps), id);
      StepKeepsInv(Run(Front(steps)), Last(steps), id, EnqueuedLast(Front(steps), id), Answers(Front(steps), id));
    }
  }

  lemma SettledFate(s: State, id: Id, first: Message, answers: seq<bool>)
    requires Inv(s, id, Some(first), answers) && first.retries == 0
    ensures var left := Lookup(s.queue, id);
      && |answers| <= 3 && (answers != [] ==> true !in Front(answers))
      && (left.None? ==> answers == [false, false, false] || (answers != [] && Last(answers)))
      && (left.Some? && (forall d :: !HeadAnswered(s, d, id)) ==> true !in answers && left.value.retries == |answers|)
  {
    if exists d :: HeadAnswered(s, d, id) {
      var d :| HeadAnswered(s, d, id);
      NotDoneUnlessHeld(s, d, id);
      assert DrainInv(s, d, id);
    } else {
      if |answers| == 3 && true !in answers {
        ThreeRefusals(answers);
      }
    }
    hide Lookup;
  }

  /** A message enqueued with no retries is never sent more than three times and never again after an
      accepted POST; it leaves only after its one accepted POST or after exactly three refused ones. This holds
      in every run in which no two drains have it to do at once. */
  lemma LeavesOnlyWhenSentOrThreeTimesRefused(steps: seq<Step>, id: Id)
    requires Undisturbed(steps, id)
    requires EnqueuedLast(steps, id).Some? && EnqueuedLast(steps, id).value.retries == 0
    ensures var answers := Answers(steps, id); var left := Lookup(Run(steps).queue, id);
      && |answers| <= 3 && (answers != [] ==> true !in Front(answers))
      && (left.None? ==> answers == [false, false, false] || (answers != [] && Last(answers)))
      && (left.Some? && (forall d :: !HeadAnswered(Run(steps), d, id)) ==> true !in answers && left.value.retries == |answers|)
  {
    RunKeepsFate(steps, id);
    SettledFate(Run(steps), id, EnqueuedLast(steps, id).value, Answers(steps, id));
  }

  // ---- A guard the caller can check ----

  /** A drain begins only when every earlier one is through. */
  ghost predicate OneAtATime(steps: seq<Step>) {
    steps != [] ==>
      && OneAtATime(Front(steps))
      && (Last(steps).Begin? ==> forall d :: d in Run(Front(steps)).drains ==> Run(Front(steps)).drains[d].todo == [])
  }

  /** Every enqueued message has a correlation id of its own. */
  ghost predicate FreshIds(steps: seq<Step>) {
    steps != [] ==>
      && FreshIds(Front(steps))
      && (Last(steps).Enqueue? ==> EnqueuedLast(Front(steps), Last(steps).message.id).None?)
  }

  lemma {:induction false} OneOpen(steps: seq<Step>, j: DrainId, k: DrainId)
    requires OneAtATime(steps) && j in Run(steps).drains && k in Run(steps).drains && j != k
    ensures Run(steps).drains[j].todo == [] || Run(steps).drains[k].todo == []
  {
    if steps != [] {
      hide Batch, Without, Bumped, Enqueued;
      var s := Run(Front(steps));
      if j in s.drains && k in s.drains {
        OneOpen(Front(steps), j, k);
      }
    }
  }

  lemma NeverShared(steps: seq<Step>, id: Id)
    requires OneAtATime(steps)
    ensures !SharedOn(Run(steps), id)
  {
    hide Run;
    assert Lookup([], id) == None;
    forall j, k | j != k && Has(Run(steps), j, id) && Has(Run(steps), k, id) ensures false {
      OneOpen(steps, j, k);
    }
  }

  /** Without an enqueue there is nothing in the queue and in no batch. */
  lemma HeldWasEnqueued(steps: seq<Step>, id: Id)
    requires Undisturbed(steps, id) && EnqueuedLast(steps, id).None?
    ensures forall d :: !Has(Run(steps), d, id)
  {
    RunKeepsFate(steps, id);
    var s := Run(steps);
    forall d ensures !Has(s, d, id) {
      assert d in s.drains ==> DrainInv(s, d, id);
    }
  }

  lemma {:induction false} GuardedIsUndisturbed(steps: seq<Step>, id: Id)
    requires OneAtATime(steps) && FreshIds(steps)
    ensures Undisturbed(steps, id)
  {
    if steps != [] {
      hide Run, SharedOn, EnqueuedLast;
      GuardedIsUndisturbed(Front(steps), id);
      NeverShared(Front(steps), id);
      if Last(steps).Enqueue? && Last(steps).message.id == id {
        HeldWasEnqueued(Front(steps), id);
      }
    }
  }

  function Accepted(posts: seq<Post>, id: Id): nat {
    if posts == [] then 0 else Accepted(Front(posts), id) + if Last(posts) == Post(id, true) then 1 else 0
  }

  lemma {:induction false} AcceptedOfMore(posts: seq<Post>, p: Post, id: Id)
    ensures Accepted(posts + [p], id) == Accepted(posts, id) + if p == Post(id, true) then 1 else 0
  {
    assert Front(posts + [p]) == posts;
  }

  function Trues(answers: seq<bool>): nat {
    if answers == [] then 0 else Trues(Front(answers)) + if Last(answers) then 1 else 0
  }

  lemma {:induction false} NoTrue(answers: seq<bool>)
    requires true !in answers
    ensures Trues(answers) == 0
  {
    if answers != [] {
      assert Last(answers) in answers;
      assert forall k :: 0 <= k < |answers| - 1 ==> Front(answers)[k] == answers[k];
      NoTrue(Front(answers));
    }
  }

  /** With fresh ids the accepted POSTs of a message are the accepting answers since it was enqueued. */
  lemma {:induction false} AcceptedIsTrues(steps: seq<Step>, id: Id)
    requires Undisturbed(steps, id) && FreshIds(steps)
    ensures Accepted(Run(steps).posts, id) == Trues(Answers(steps, id))
  {
    if steps != [] {
      AcceptedIsTrues(Front(steps), id);
      RunKeepsFate(Front(steps), id);
      hide Accepted, Trues, Next, Inv, AnswersAfter;
      if Last(steps).Enqueue? && Last(steps).message.id == id {
        EnqueueAccepts(Run(Front(steps)), Last(steps), id, Answers(Front(steps), id));
      } else {
        OneStepAccepts(Run(Front(steps)), Last(steps), id, Answers(Front(steps), id));
      }
    }
  }

  lemma OneStepAccepts(s: State, step: Step, id: Id, answers: seq<bool>)
    requires !(step.Enqueue? && step.message.id == id)
    ensures Accepted(Next(s, step).posts, id) - Accepted(s.posts, id)
         == Trues(AnswersAfter(s, step, id, answers)) - Trues(answers)
  {
    hide Accepted, Without, Bumped, Batch, Enqueued;
    if step.Answer? && At(s, step.d, Sent) {
      AcceptedOfMore(s.posts, Post(Head(s, step.d).id, step.ok), id);
      assert Front(answers + [step.ok]) == answers;
    }
  }

  lemma EnqueueAccepts(s: State, step: Step, id: Id, answers: seq<bool>)
    requires step.Enqueue? && step.message.id == id && Inv(s, id, None, answers)
    ensures Next(s, step).posts == s.posts && Trues(answers) == Trues(AnswersAfter(s, step, id, answers)) == 0
  {
  }

  /** With one drain at a time and fresh ids, over every run: each message is sent at most three times, never after
      an accepted POST, and leaves only after that or after three refusals. */
  lemma OneDrainAtATimeIsEnough(steps: seq<Step>, id: Id)
    requires OneAtATime(steps) && FreshIds(steps)
    requires EnqueuedLast(steps, id).Some? && EnqueuedLast(steps, id).value.retries == 0
    ensures var answers := Answers(steps, id);
      && |answers| <= 3 && (answers != [] ==> true !in Front(answers))
      && Accepted(Run(steps).posts, id) <= 1
      && (Lookup(Run(steps).queue, id).None? ==> answers == [false, false, false] || Accepted(Run(steps).posts, id) == 1)
  {
    GuardedIsUndisturbed(steps, id);
    LeavesOnlyWhenSentOrThreeTimesRefused(steps, id);
    AcceptedIsTrues(steps, id);
    var answers := Answers(steps, id);
    if answers != [] {
      NoTrue(Front(answers));
    }
  }

  // ---- What overlapping drains can do ----

  lemma {:induction false} RunFromConcat(s: State, a: seq<Step>, b: seq<Step>)
    ensures RunFrom(s, a + b) == RunFrom(RunFrom(s, a), b)
  {
    hide Next;
    if b == [] {
      assert a + b == a;
    } else {
      RunFromConcat(s, a, Front(b));
      assert Front(a + b) == a + Front(b);
    }
  }

  /** The drain has the message at position p of what it has left, and its POST not yet answered. */
  predicate StillToSend(s: State, d: DrainId, p: nat) {
    && d in s.drains && p < |s.drains[d].todo| && s.drains[d].todo[p].retries < MAX_RETRY
    && (p == 0 ==> s.drains[d].phase == Ready || s.drains[d].phase == Sent)
  }

  /** One turn of a drain: whatever of it is already done is skipped. */
  function Turn(d: DrainId, ok: bool): seq<Step> {
    [Send(d)] + [Answer(d, ok)] + [Finish(d)]
  }

  lemma TurnSteps(s: State, d: DrainId, ok: bool)
    ensures RunFrom(s, Turn(d, ok)) == Next(Next(Next(s, Send(d)), Answer(d, ok)), Finish(d))
  {
    var a := [Send(d)];
    var b := a + [Answer(d, ok)];
    assert Front(b + [Finish(d)]) == b && Front(b) == a && Front(a) == [];
    assert RunFrom(s, []) == s;
    hide Next;
    assert RunFrom(s, a) == Next(s, Send(d));
    assert RunFrom(s, b) == Next(RunFrom(s, a), Answer(d, ok));
  }

  ghost predicate OthersStand(s: State, t: State, d: DrainId) {
    forall k :: k != d ==> (k in s.drains <==> k in t.drains) && (k in s.drains ==> s.drains[k] == t.drains[k])
  }

  /** A turn does the first message and leaves the other drains alone. */
  lemma TurnDone(s: State, d: DrainId, ok: bool, id: Id)
    requires d in s.drains && s.drains[d].todo != []
    ensures var t := RunFrom(s, Turn(d, ok));
      && d in t.drains && t.drains[d] == Drain(s.drains[d].todo[1..], Ready) && OthersStand(s, t, d)
      && Accepted(t.posts, id) >= Accepted(s.posts, id)
      && (ok && Head(s, d).id == id && StillToSend(s, d, 0) ==> Accepted(t.posts, id) == Accepted(s.posts, id) + 1)
  {
    hide Accepted, Without, Bumped, RunFrom, OthersStand;
    TurnSteps(s, d, ok);
    AcceptedOfMore(s.posts, Post(Head(s, d).id, ok), id);
    TurnLeavesOthers(s, d, ok);
  }

  lemma TurnLeavesOthers(s: State, d: DrainId, ok: bool)
    requires d in s.drains && s.drains[d].todo != []
    ensures OthersStand(s, RunFrom(s, Turn(d, ok)), d)
  {
    hide Without, Bumped, RunFrom;
    TurnSteps(s, d, ok);
  }

  /** The drain gets to the message at position p and has its POST accepted. */
  lemma {:induction false} Reach(s: State, d: DrainId, p: nat, id: Id) returns (steps: seq<Step>)
    requires StillToSend(s, d, p) && s.drains[d].todo[p].id == id
    ensures var t := RunFrom(s, steps);
      OthersStand(s, t, d) && Accepted(t.posts, id) >= Accepted(s.posts, id) + 1
    decreases p
  {
    TurnDone(s, d, true, id);
    hide RunFrom, Accepted;
    if p == 0 {
      steps := Turn(d, true);
    } else {
      var t := RunFrom(s, Turn(d, true));
      var rest := Reach(t, d, p - 1, id);
      steps := Turn(d, true) + rest;
      RunFromConcat(s, Turn(d, true), rest);
    }
  }

  /** Whenever two drains both still have to send a message, the run can go on to two accepted POSTs of it. */
  lemma OverlapAllowsTwoAcceptedPosts(steps: seq<Step>, j: DrainId, p: nat, k: DrainId, q: nat) returns (more: seq<Step>)
    requires StillToSend(Run(steps), j, p) && StillToSend(Run(steps), k, q) && j != k
    requires Run(steps).drains[j].todo[p].id == Run(steps).drains[k].todo[q].id
    ensures var id := Run(steps).drains[j].todo[p].id;
      Accepted(Run(steps + more).posts, id) >= Accepted(Run(steps).posts, id) + 2
  {
    var s := Run(steps);
    var id := s.drains[j].todo[p].id;
    var first := Reach(s, j, p, id);
    var second := Reach(RunFrom(s, first), k, q, id);
    more := first + second;
    hide RunFrom, Accepted;
    RunFromConcat(Start(), steps, more);
    RunFromConcat(s, first, second);
  }

  lemma BatchOfOne(m: Message)
    ensures Enqueued([], m) == [m] && Batch([m]) == [m]
  {
    assert Front([m]) == [];
    assert ByTime([]) == [];
    assert ByTime([m]) == Insert([], m);
  }

  /** A message is enqueued, and two drains begin before the first one has come to it. */
  function Overlap(m: Message): seq<Step> {
    [Enqueue(m)] + [Begin] + [Begin]
  }

  lemma OverlapState(m: Message)
    ensures var s := Run(Overlap(m));
      && s.queue == [m] && s.posts == [] && s.next == 2
      && s.drains == map[0 := Drain([m], Ready), 1 := Drain([m], Ready)]
  {
    BatchOfOne(m);
    var a: seq<Step> := [Enqueue(m)];
    assert Front(Overlap(m)) == a + [Begin] && Front(a + [Begin]) == a && Front(a) == [];
    hide Batch, Enqueued;
    assert Run([]) == Start();
    assert Run(a) == Next(Start(), Enqueue(m));
    assert Run(a + [Begin]) == Next(Run(a), Begin);
    assert Run(Overlap(m)) == Next(Run(a + [Begin]), Begin);
  }

  /** The socket reconnects while a message is on its way: the second drain sends it again, and both are accepted. */
  lemma ReconnectSendsTwice(m: Message) returns (steps: seq<Step>)
    requires m.retries < MAX_RETRY
    ensures Overlap(m) <= steps && Accepted(Run(steps).posts, m.id) >= 2
  {
    OverlapState(m);
    var more := OverlapAllowsTwoAcceptedPosts(Overlap(m), 0, 0, 1, 0);
    steps := Overlap(m) + more;
  }

  lemma RefusedTurn(s: State, d: DrainId)
    requires StillToSend(s, d, 0)
    ensures var t := RunFrom(s, Turn(d, false)); var m := Head(s, d);
      t.queue == Bumped(s.queue, m.id) && t.posts == s.posts + [Post(m.id, false)] && OthersStand(s, t, d)
  {
    TurnSteps(s, d, false);
    hide Without, Bumped;
  }

  /** Refused by both drains, a message with two refusals comes to four before it is dropped. */
  lemma ReconnectRefusesFourTimes(m: Message)
    requires m.retries == 2
    ensures var s := Run(Overlap(m) + (Turn(0, false) + Turn(1, false)));
      s.queue == [m.(retries := 4)] && s.posts == [Post(m.id, false), Post(m.id, false)]
  {
    OverlapState(m);
    var s := Run(Overlap(m));
    assert Bumped([], m.id) == [] && Front([m]) == [] && Front([Bump(m)]) == [];
    assert Bumped([m], m.id) == [Bump(m)] && Bumped([Bump(m)], m.id) == [Bump(Bump(m))];
    RunFromConcat(Start(), Overlap(m), Turn(0, false) + Turn(1, false));
    RunFromConcat(s, Turn(0, false), Turn(1, false));
    hide RunFrom, Bumped;
    RefusedTurn(s, 0);
    RefusedTurn(RunFrom(s, Turn(0, false)), 1);
  }

  // ---- A drain with nothing in between ----

  function Turns(d: DrainId, todo: seq<Message>, accepted: set<Id>): seq<Step> {
    if todo == [] then [] else Turns(d, Front(todo), accepted) + Turn(d, Last(todo).id in accepted)
  }

  lemma OneTurn(s: State, d: DrainId, accepted: set<Id>)
    requires d in s.drains && s.drains[d].todo != [] && s.drains[d].phase == Ready
    ensures var m := Head(s, d); var t := RunFrom(s, Turn(d, m.id in accepted));
      && t.queue == Settle(s.queue, m, accepted)
      && t.posts == s.posts + (if m.retries >= MAX_RETRY then [] else [Post(m.id, m.id in accepted)])
      && d in t.drains && t.drains[d] == Drain(s.drains[d].todo[1..], Ready)
  {
    TurnSteps(s, d, Head(s, d).id in accepted);
    hide Without, Bumped;
  }

  lemma {:induction false} TurnsSettle(s: State, d: DrainId, done: seq<Message>, rest: seq<Message>, accepted: set<Id>)
    requires d in s.drains && s.drains[d] == Drain(done + rest, Ready)
    ensures var t := RunFrom(s, Turns(d, done, accepted));
      && t.queue == SettleAll(s.queue, done, accepted) && t.posts == s.posts + Posts(done, accepted)
      && d in t.drains && t.drains[d] == Drain(rest, Ready)
  {
    if done == [] {
      assert done + rest == rest && s.posts + Posts(done, accepted) == s.posts;
    } else {
      var front, m := Front(done), Last(done);
      assert done + rest == front + ([m] + rest) && done == front + [m];
      TurnsSettle(s, d, front, [m] + rest, accepted);
      var t := RunFrom(s, Turns(d, front, accepted));
      assert ([m] + rest)[1..] == rest;
      OneTurn(t, d, accepted);
      hide RunFrom, Settle;
      RunFromConcat(s, Turns(d, front, accepted), Turn(d, m.id in accepted));
    }
  }

  /** A drain with nothing in between does to the queue and sends what the drain method does. */
  lemma WholeDrainIsARun(s: State, accepted: set<Id>)
    ensures var t := RunFrom(s, [Begin] + Turns(s.next, Batch(s.queue), accepted));
      t.queue == Drained(s.queue, accepted) && t.posts == s.posts + Posts(Batch(s.queue), accepted)
  {
    var begun := Next(s, Begin);
    assert Front([Begin]) == [] && RunFrom(s, []) == s;
    assert RunFrom(s, [Begin]) == begun;
    assert Batch(s.queue) + [] == Batch(s.queue);
    hide RunFrom, SettleAll, Batch;
    TurnsSettle(begun, s.next, Batch(s.queue), [], accepted);
    RunFromConcat(s, [Begin], Turns(s.next, Batch(s.queue), accepted));
  }

  // ---- The queue empties, whatever overlaps ----

  ghost predicate Shaped(s: State) {
    Distinct(s.queue) && forall d :: d in s.drains ==> DrainShape(s, d)
  }

  lemma FinishKeepsShape(s: State, d: DrainId)
    requires Shaped(s) && d in s.drains && s.drains[d].todo != []
    ensures Shaped(FinishStep(s, d))
  {
    assert DrainShape(s, d);
    TailLooks(s.drains[d].todo, "");
    WithoutLooks(s.queue, Head(s, d).id, "");
    BumpedIsUpdate(s.queue, Head(s, d).id);
    hide Distinct, Lookup, Without, Bumped;
    var s' := FinishStep(s, d);
    forall k | k in s'.drains ensures DrainShape(s', k) {
      assert DrainShape(s, k);
    }
  }

  lemma BeginKeepsShape(s: State)
    requires Shaped(s)
    ensures Shaped(Next(s, Begin))
  {
    BatchLooks(s.queue, "");
    hide Distinct, Lookup, Batch;
    var s' := Next(s, Begin);
    forall d | d in s'.drains ensures DrainShape(s', d) {
      assert d in s.drains ==> DrainShape(s, d);
    }
  }

  lemma StepKeepsShape(s: State, step: Step)
    requires Shaped(s)
    ensures Shaped(Next(s, step))
  {
    hide Distinct, Lookup, Batch, Enqueued, FinishStep;
    match step
    case Enqueue(m) =>
      EnqueueKeeps(s.queue, m);
      assert forall d :: d in s.drains ==> DrainShape(s, d) == DrainShape(Next(s, step), d);
    case Begin => BeginKeepsShape(s);
    case Finish(d) =>
      if d in s.drains && s.drains[d].todo != [] && Settled(s.drains[d].phase) { FinishKeepsShape(s, d); }
    case _ =>
      var s' := Next(s, step);
      forall d | d in s'.drains ensures DrainShape(s', d) {
        assert DrainShape(s, d);
      }
  }

  lemma {:induction false} RunIsShaped(s: State, steps: seq<Step>)
    requires Shaped(s)
    ensures Shaped(RunFrom(s, steps))
  {
    if steps != [] {
      hide Shaped, Next;
      RunIsShaped(s, Front(steps));
      StepKeepsShape(RunFrom(s, Front(steps)), Last(steps));
    }
  }

  /** The message has at most c drains left, and fewer once drain d has done it. */
  predicate Within(s: State, d: DrainId, m: Message, c: nat) {
    if Has(s, d, m.id) then
      DrainsLeft(m) <= c && (c == 1 ==> Lookup(s.drains[d].todo, m.id).value.retries >= MAX_RETRY)
    else DrainsLeft(m) < c
  }

  /** So it is for all of `oldest`, the first messages in time order. */
  ghost predicate Progress(s: State, d: DrainId, oldest: seq<Message>, c: nat) {
    d in s.drains && oldest <= ByTime(s.queue) && forall m :: m in oldest ==> Within(s, d, m, c)
  }

  lemma {:induction false} WithoutHolds(q: seq<Message>, id: Id)
    ensures |Without(q, id)| <= |q|
    ensures forall m :: m in Without(q, id) ==> m in q && m.id != id
  {
    if q != [] {
      WithoutHolds(Front(q), id);
      assert q == Front(q) + [Last(q)];
    }
  }

  lemma {:induction false} BumpedHolds(q: seq<Message>, id: Id)
    ensures |Bumped(q, id)| == |q|
    ensures forall m :: m in Bumped(q, id) ==> exists x :: x in q && m == if x.id == id then Bump(x) else x
  {
    BumpedLooks(q, id);
    forall m | m in Bumped(q, id) ensures exists x :: x in q && m == if x.id == id then Bump(x) else x {
      var k :| 0 <= k < |q| && Bumped(q, id)[k] == m;
      assert q[k] in q;
    }
  }

  lemma {:induction false} BumpedConcat(s: seq<Message>, t: seq<Message>, id: Id)
    ensures Bumped(s + t, id) == Bumped(s, id) + Bumped(t, id)
  {
    if t == [] {
      assert s + t == s;
    } else {
      BumpedConcat(s, Front(t), id);
      assert Front(s + t) == s + Front(t);
    }
  }

  /** What a queue update leaves of the oldest messages is still oldest. */
  lemma UpdateOldest(q: seq<Message>, oldest: seq<Message>, id: Id)
    requires oldest <= ByTime(q)
    ensures Without(oldest, id) <= ByTime(Without(q, id)) && Bumped(oldest, id) <= ByTime(Bumped(q, id))
    ensures |ByTime(Without(q, id))| - |Without(oldest, id)| <= |ByTime(q)| - |oldest|
    ensures |ByTime(Bumped(q, id))| - |Bumped(oldest, id)| == |ByTime(q)| - |oldest|
  {
    var rest := ByTime(q)[|oldest|..];
    assert ByTime(q) == oldest + rest;
    hide Without, Bumped, ByTime;
    WithoutByTime(q, id);
    BumpedByTime(q, id);
    WithoutConcat(oldest, rest, id);
    BumpedConcat(oldest, rest, id);
    WithoutHolds(rest, id);
    BumpedHolds(rest, id);
    BumpedHolds(oldest, id);
  }

  function Updated(s: State, d: DrainId, oldest: seq<Message>): seq<Message>
    requires d in s.drains && s.drains[d].todo != []
  {
    if s.drains[d].phase == Answered(false) then Bumped(oldest, Head(s, d).id) else Without(oldest, Head(s, d).id)
  }

  lemma FinishWithin(s: State, k: DrainId, d: DrainId, m: Message, c: nat)
    requires k in s.drains && DrainShape(s, k) && s.drains[k].todo != [] && Settled(s.drains[k].phase)
    requires d in s.drains && Within(s, d, m, c)
    ensures m.id != Head(s, k).id ==> Within(FinishStep(s, k), d, m, c)
    ensures m.id == Head(s, k).id && s.drains[k].phase == Answered(false) ==> Within(FinishStep(s, k), d, Bump(m), c)
  {
    TailLooks(s.drains[k].todo, m.id);
    hide Lookup, Without, Bumped, Distinct;
  }

  lemma FinishProgress(s: State, k: DrainId, d: DrainId, oldest: seq<Message>, c: nat)
    requires Shaped(s) && Progress(s, d, oldest, c)
    requires k in s.drains && s.drains[k].todo != [] && Settled(s.drains[k].phase)
    ensures var s', left := FinishStep(s, k), Updated(s, k, oldest);
      Progress(s', d, left, c) && |left| <= |oldest| && |ByTime(s'.queue)| - |left| <= |ByTime(s.queue)| - |oldest|
  {
    var s', left, id := FinishStep(s, k), Updated(s, k, oldest), Head(s, k).id;
    assert DrainShape(s, k);
    UpdateOldest(s.queue, oldest, id);
    WithoutHolds(oldest, id);
    BumpedHolds(oldest, id);
    hide Within, Lookup, Without, Bumped, ByTime, Distinct, DrainShape;
    forall m | m in left ensures Within(s', d, m, c) {
      if s.drains[k].phase == Answered(false) {
        var x :| x in oldest && m == if x.id == id then Bump(x) else x;
        FinishWithin(s, k, d, x, c);
      } else {
        FinishWithin(s, k, d, m, c);
      }
    }
  }

  lemma StepProgress(s: State, step: Step, d: DrainId, oldest: seq<Message>, c: nat) returns (left: seq<Message>)
    requires Shaped(s) && Progress(s, d, oldest, c) && !step.Enqueue?
    ensures var s' := Next(s, step);
      Progress(s', d, left, c) && |left| <= |oldest| && |ByTime(s'.queue)| - |left| <= |ByTime(s.queue)| - |oldest|
  {
    if step.Finish? && step.d in s.drains && s.drains[step.d].todo != [] && Settled(s.drains[step.d].phase) {
      hide Shaped, Progress, Updated, FinishStep;
      left := Updated(s, step.d, oldest);
      FinishProgress(s, step.d, d, oldest, c);
    } else {
      left := oldest;
      assert DrainShape(s, d);
      hide Lookup, ByTime, Batch, DrainsLeft;
    }
  }

  ghost predicate NoEnqueue(steps: seq<Step>) {
    forall k :: 0 <= k < |steps| ==> !steps[k].Enqueue?
  }

  lemma {:induction false} RunProgress(s: State, steps: seq<Step>, d: DrainId, oldest: seq<Message>, c: nat)
    returns (left: seq<Message>)
    requires Shaped(s) && Progress(s, d, oldest, c) && NoEnqueue(steps)
    ensures var t := RunFrom(s, steps);
      Progress(t, d, left, c) && |left| <= |oldest| && |ByTime(t.queue)| - |left| <= |ByTime(s.queue)| - |oldest|
  {
    hide Shaped, Progress, Next, ByTime;
    if steps == [] {
      left := oldest;
    } else {
      var before := RunProgress(s, Front(steps), d, oldest, c);
      RunIsShaped(s, Front(steps));
      left := StepProgress(RunFrom(s, Front(steps)), Last(steps), d, before, c);
    }
  }

  /** Drains that are started one after the other, each when the one before is through; in between and beside
      them any other drains may run, but nothing is enqueued. */
  ghost predicate Chain(s: State, segments: seq<seq<Step>>)
    decreases |segments|
  {
    segments != [] ==>
      var t := RunFrom(s, segments[0]);
      && segments[0] != [] && segments[0][0] == Begin && NoEnqueue(segments[0])
      && s.next in t.drains && t.drains[s.next].todo == []
      && Chain(t, segments[1..])
  }

  function RunAll(s: State, segments: seq<seq<Step>>): State
    decreases |segments|
  {
    if segments == [] then s else RunAll(RunFrom(s, segments[0]), segments[1..])
  }

  lemma BeginProgress(s: State, oldest: seq<Message>, c: nat)
    requires Shaped(s) && oldest <= ByTime(s.queue) && |oldest| <= BATCH
    requires forall m :: m in oldest ==> DrainsLeft(m) <= c
    ensures Progress(Next(s, Begin), s.next, oldest, c)
  {
    var t, batch := Next(s, Begin), Batch(s.queue);
    BatchLooks(s.queue, "");
    forall m | m in oldest ensures Within(t, s.next, m, c) {
      var k :| 0 <= k < |oldest| && oldest[k] == m;
      assert batch[k] == ByTime(s.queue)[k] == m;
      LookupOf(batch, k);
    }
  }

  lemma {:induction false} SplitFirst(s: State, step: Step, steps: seq<Step>)
    ensures RunFrom(s, [step] + steps) == RunFrom(Next(s, step), steps)
  {
    assert Front([step]) == [] && RunFrom(s, []) == s;
    assert RunFrom(s, [step]) == Next(s, step);
    RunFromConcat(s, [step], steps);
  }

  /** One link of the chain: the oldest messages come one drain nearer to their end. */
  lemma LinkProgress(s: State, segment: seq<Step>, oldest: seq<Message>, c: nat) returns (left: seq<Message>)
    requires Shaped(s) && oldest <= ByTime(s.queue) && |oldest| <= BATCH
    requires forall m :: m in oldest ==> DrainsLeft(m) <= c
    requires segment != [] && segment[0] == Begin && NoEnqueue(segment)
    requires var t := RunFrom(s, segment); s.next in t.drains && t.drains[s.next].todo == []
    ensures var t := RunFrom(s, segment);
      && left <= ByTime(t.queue) && |left| <= |oldest| && |ByTime(t.queue)| - |left| <= |ByTime(s.queue)| - |oldest|
      && forall m :: m in left ==> DrainsLeft(m) < c
  {
    assert Lookup([], "") == None;
    assert segment == [Begin] + segment[1..];
    SplitFirst(s, Begin, segment[1..]);
    BeginProgress(s, oldest, c);
    StepKeepsShape(s, Begin);
    hide RunFrom, Shaped, ByTime, DrainsLeft;
    left := RunProgress(Next(s, Begin), segment[1..], s.next, oldest, c);
    var t := RunFrom(s, segment);
    forall m | m in left ensures DrainsLeft(m) < c {
      assert Within(t, s.next, m, c);
    }
  }

  lemma {:induction false} GoneByChain(s: State, oldest: seq<Message>, c: nat, rounds: nat, segments: seq<seq<Step>>)
    requires Shaped(s) && Chain(s, segments)
    requires oldest <= ByTime(s.queue) && |oldest| <= BATCH && forall m :: m in oldest ==> DrainsLeft(m) <= c
    requires |ByTime(s.queue)| - |oldest| <= BATCH * rounds && |segments| >= c + (MAX_RETRY + 1) * rounds
    ensures RunAll(s, segments).queue == []
    decreases |segments|, rounds
  {
    var all := ByTime(s.queue);
    ByTimeLength(s.queue);
    assert c == 0 ==> oldest == [] by {
      assert oldest != [] ==> oldest[0] in oldest && DrainsLeft(oldest[0]) >= 1;
    }
    if c == 0 && rounds == 0 {
      EmptyStaysEmptyInChain(s, segments);
    } else if c == 0 {
      GoneByChain(s, all[..First(|all|)], MAX_RETRY + 1, rounds - 1, segments);
    } else {
      var left := LinkProgress(s, segments[0], oldest, c);
      RunIsShaped(s, segments[0]);
      GoneByChain(RunFrom(s, segments[0]), left, c - 1, rounds, segments[1..]);
    }
  }

  lemma {:induction false} EmptyStaysEmptyInChain(s: State, segments: seq<seq<Step>>)
    requires Shaped(s) && Chain(s, segments) && s.queue == []
    ensures RunAll(s, segments).queue == []
    decreases |segments|
  {
    if segments != [] {
      StaysEmpty(s, segments[0]);
      RunIsShaped(s, segments[0]);
      EmptyStaysEmptyInChain(RunFrom(s, segments[0]), segments[1..]);
    }
  }

  lemma {:induction false} StaysEmpty(s: State, steps: seq<Step>)
    requires s.queue == [] && NoEnqueue(steps)
    ensures RunFrom(s, steps).queue == []
  {
    if steps != [] {
      StaysEmpty(s, Front(steps));
    }
  }

  /** With no new messages a queue of n is empty after four drains for every started twenty, each begun when
      the one before was through, whatever the server answers and whatever other drains run beside them. */
  lemma QueueEmptiesUnderOverlap(steps: seq<Step>, segments: seq<seq<Step>>)
    requires Chain(Run(steps), segments)
    requires |segments| >= 4 * ((|Run(steps).queue| + 19) / 20)
    ensures RunAll(Run(steps), segments).queue == []
  {
    var s := Run(steps);
    RunIsShaped(Start(), steps);
    ByTimeLength(s.queue);
    GoneByChain(s, [], 0, BatchesOf(|s.queue|), segments);
  }
}
