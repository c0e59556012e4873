/** Approvals: the pending map with its timers, the auto/review split, the execution of a response,
    and the phone's list of decisions. Steps interleave wherever the source awaits. */
module Approval {
  import opened Prelude

  type Id = nat   // fresh uuids

  datatype Item = Item(index: nat, actionType: string, content: string)

  datatype Verdict = Approve | Edit | Cancel | Shared

  datatype Decision = Decision(index: int, verdict: Verdict)

  datatype Request = Request(approvalId: Id, batch: seq<Item>, expiresAt: int)

  const EXPIRE_AFTER_MS := 86_400_000
  const REMINDER_AFTER_MS := 14_400_000

  type Settings = map<string, string>

  const ALWAYS_REQUIRE: set<string> := {"financial_action", "send_document_contract"}

  // ---- The split of a message's items ----

  predicate IsAuto(settings: Settings, item: Item) {
    item.actionType in settings && settings[item.actionType] == "auto" && item.actionType !in ALWAYS_REQUIRE
  }

  function AutoItems(settings: Settings, items: seq<Item>): seq<Item> {
    if items == [] then []
    else AutoItems(settings, Front(items)) + if IsAuto(settings, Last(items)) then [Last(items)] else []
  }

  function ReviewItems(settings: Settings, items: seq<Item>): seq<Item> {
    if items == [] then []
    else ReviewItems(settings, Front(items)) + if IsAuto(settings, Last(items)) then [] else [Last(items)]
  }

  lemma SplitStep(settings: Settings, items: seq<Item>)
    requires items != []
    ensures var front, x := Front(items), Last(items); var auto := IsAuto(settings, x);
      && AutoItems(settings, items) == AutoItems(settings, front) + (if auto then [x] else [])
      && ReviewItems(settings, items) == ReviewItems(settings, front) + (if auto then [] else [x])
      && items == front + [x]
  {
    hide IsAuto;
  }

  /** The split loses no item and invents none. */
  lemma {:induction false} SplitIsPartition(settings: Settings, items: seq<Item>)
    ensures multiset(AutoItems(settings, items)) + multiset(ReviewItems(settings, items)) == multiset(items)
  {
    if items != [] {
      SplitStep(settings, items);
      hide IsAuto, AutoItems, ReviewItems;
      SplitIsPartition(settings, Front(items));
    }
  }

  lemma {:induction false} OnlyAutoItems(settings: Settings, items: seq<Item>)
    ensures forall k :: 0 <= k < |AutoItems(settings, items)| ==> IsAuto(settings, AutoItems(settings, items)[k])
  {
    hide IsAuto;
    if items != [] {
      OnlyAutoItems(settings, Front(items));
    }
  }

  /** Every item stands in exactly one of the two lists, each in the order of the message: in the automatic one if its setting
      is auto and its type is not one of the two that always need review, in the reviewed one otherwise. */
  lemma {:induction false} SplitInWords(settings: Settings, items: seq<Item>) returns (auto: seq<nat>, review: seq<nat>)
    ensures forall k: nat :: k in auto <==>
      && k < |items| && items[k].actionType in settings && settings[items[k].actionType] == "auto"
      && items[k].actionType != "financial_action" && items[k].actionType != "send_document_contract"
    ensures forall k: nat :: k in review <==>
      && k < |items|
      && (items[k].actionType !in settings || settings[items[k].actionType] != "auto"
          || items[k].actionType == "financial_action" || items[k].actionType == "send_document_contract")
    ensures Chosen(items, auto, AutoItems(settings, items)) && Chosen(items, review, ReviewItems(settings, items))
  {
    auto, review := [], [];
    if items != [] {
      auto, review := SplitInWords(settings, Front(items));
      SplitStep(settings, items);
      var n := |items| - 1;
      hide AutoItems, ReviewItems, Chosen;
      ChosenMore(items, auto, AutoItems(settings, Front(items)));
      ChosenMore(items, review, ReviewItems(settings, Front(items)));
      if IsAuto(settings, items[n]) {
        auto := auto + [n];
      } else {
        review := review + [n];
      }
    }
  }

  /** The listed items, at increasing places of the message. */
  ghost predicate Chosen(items: seq<Item>, at: seq<nat>, chosen: seq<Item>) {
    && |chosen| == |at| && (forall i, j :: 0 <= i < j < |at| ==> at[i] < at[j])
    && forall i :: 0 <= i < |at| ==> at[i] < |items| && chosen[i] == items[at[i]]
  }

  lemma ChosenMore(items: seq<Item>, at: seq<nat>, chosen: seq<Item>)
    requires items != [] && Chosen(Front(items), at, chosen)
    ensures Chosen(items, at, chosen + []) && Chosen(items, at + [|items| - 1], chosen + [Last(items)])
  {
    assert chosen + [] == chosen;
  }

  method Split(settings: Settings, items: seq<Item>) returns (autoItems: seq<Item>, reviewItems: seq<Item>)
    ensures autoItems == AutoItems(settings, items) && reviewItems == ReviewItems(settings, items)
  {
    autoItems, reviewItems := [], [];
    for k := 0 to |items|
      invariant autoItems == AutoItems(settings, items[..k]) && reviewItems == ReviewItems(settings, items[..k])
    {
      assert Front(items[..k + 1]) == items[..k];
      var item := items[k];
      var setting := if item.actionType in settings then settings[item.actionType] else "require";
      if setting == "auto" && item.actionType !in ALWAYS_REQUIRE {
        autoItems := autoItems + [item];
      } else {
        reviewItems := reviewItems + [item];
      }
    }
    assert items[..|items|] == items;
  }

  // ---- What a response executes ----

  /** The batch positions a list of decisions dispatches, in order. */
  function Approved(batch: seq<Item>, decisions: seq<Decision>): (r: seq<nat>)
    ensures forall p :: p in r ==> p < |batch| && Decision(p, Approve) in decisions
  {
    if decisions == [] then []
    else
      var d := Last(decisions);
      Approved(batch, Front(decisions)) + if d.verdict == Approve && 0 <= d.index < |batch| then [d.index as nat] else []
  }

  // ---- The approval manager ----

  datatype Manager = Manager(pending: map<Id, Request>, reminderTimers: map<Id, int>, expiryTimers: map<Id, int>)

  function Cleanup(m: Manager, id: Id): Manager {
    Manager(m.pending - {id}, m.reminderTimers - {id}, m.expiryTimers - {id})
  }

  function Schedule(m: Manager, r: Request, now: int): Manager {
    m.(reminderTimers :=
         if now + REMINDER_AFTER_MS < r.expiresAt then m.reminderTimers[r.approvalId := now + REMINDER_AFTER_MS] else m.reminderTimers,
       expiryTimers := m.expiryTimers[r.approvalId := now + Max(0, r.expiresAt - now)])
  }

  /** The request to execute, if the response is the first one and in time. */
  function Respond(m: Manager, id: Id, now: int): (Manager, Option<Request>) {
    if id !in m.pending then (m, None)
    else (Cleanup(m, id), if m.pending[id].expiresAt < now then None else Some(m.pending[id]))
  }

  class ApprovalManager {
    var pending: map<Id, Request>
    var reminderTimers: map<Id, int>
    var expiryTimers: map<Id, int>

    ghost function State(): Manager
      reads this
    {
      Manager(pending, reminderTimers, expiryTimers)
    }

    constructor ()
      ensures State() == Manager(map[], map[], map[])
    {
      pending, reminderTimers, expiryTimers := map[], map[], map[];
    }

    /** Up to the first await: the request is pending before its timers exist. */
    method CreateApprovalRequest(items: seq<Item>, approvalId: Id, now: int) returns (request: Request)
      modifies this
      ensures request == Request(approvalId, items, now + 86_400_000)
      ensures State() == old(State()).(pending := old(pending)[approvalId := request])
    {
      request := Request(approvalId, items, now + EXPIRE_AFTER_MS);
      pending := pending[approvalId := request];
    }

    method ScheduleTimers(request: Request, now: int)
      modifies this
      ensures State() == Schedule(old(State()), request, now)
    {
      if now + REMINDER_AFTER_MS < request.expiresAt {
        reminderTimers := reminderTimers[request.approvalId := now + REMINDER_AFTER_MS];
      }
      var timeUntilExpiry := Max(0, request.expiresAt - now);
      expiryTimers := expiryTimers[request.approvalId := now + timeUntilExpiry];
    }

    /** Up to the first await of the execution callback. */
    method ProcessApprovalResponse(approvalId: Id, now: int) returns (toExecute: Option<Request>)
      modifies this
      ensures (State(), toExecute) == Respond(old(State()), approvalId, now)
    {
      if approvalId !in pending {
        return None;
      }
      var request := pending[approvalId];
      CleanupApproval(approvalId);
      toExecute := if request.expiresAt < now then None else Some(request);
    }

    method CleanupApproval(approvalId: Id)
      modifies this
      ensures State() == Cleanup(old(State()), approvalId)
    {
      pending := pending - {approvalId};
      reminderTimers := reminderTimers - {approvalId};
      expiryTimers := expiryTimers - {approvalId};
    }
  }

  /** The execution callback run to its end: one dispatch per approving decision that names a position. */
  method Execute(batch: seq<Item>, decisions: seq<Decision>) returns (dispatched: seq<nat>)
    ensures dispatched == Approved(batch, decisions)
  {
    dispatched := [];
    for k := 0 to |decisions|
      invariant dispatched == Approved(batch, decisions[..k])
    {
      assert Front(decisions[..k + 1]) == decisions[..k];
      var decision := decisions[k];
      if decision.verdict == Shared {
        continue;
      }
      if decision.verdict != Approve {
        continue;
      }
      if 0 <= decision.index < |batch| {
        dispatched := dispatched + [decision.index];
      }
    }
    assert decisions[..|decisions|] == decisions;
  }

  // ---- The whole system over a run ----

  datatype Dispatch =
    | AutoDispatch(item: Item, settings: Settings)            // the settings the split saw
    | ApprovedDispatch(id: Id, position: nat, item: Item)

  /** A running execution: how many decisions have been processed. */
  datatype Execution = Execution(decisions: seq<Decision>, done: nat)

  /** What happened when an approval was first answered. */
  datatype Answered = Answered(decisions: seq<Decision>, at: int)

  datatype State = State(
    now: int,
    manager: Manager,
    settings: Settings,
    nextId: Id,
    toCreate: seq<seq<Item>>,        // reviewed items whose request is about to be created
    toSchedule: set<Id>,             // created, timers not yet set
    created: map<Id, Request>,
    answered: map<Id, Answered>,
    executions: map<Id, Execution>,
    dispatched: seq<Dispatch>)

  datatype Step =
    | Tick(ms: nat)
    | Configure(settings: Settings)
    | Inbound(items: seq<Item>)
    | CreateNext
    | ScheduleOne(id: Id)
    | Response(id: Id, decisions: seq<Decision>)
    | ExecuteNext(id: Id)
    | ExpiryFires(id: Id)
    | ReminderFires(id: Id)

  function Start(now: int, settings: Settings): State {
    State(now, Manager(map[], map[], map[]), settings, 0, [], {}, map[], map[], map[], [])
  }

  function AutoDispatches(items: seq<Item>, settings: Settings): (r: seq<Dispatch>)
    ensures |r| == |items| && forall k :: 0 <= k < |r| ==> r[k] == AutoDispatch(items[k], settings)
  {
    seq(|items|, k requires 0 <= k < |items| => AutoDispatch(items[k], settings))
  }

  function InboundStep(s: State, items: seq<Item>): State {
    var auto, review := AutoItems(s.settings, items), ReviewItems(s.settings, items);
    s.(dispatched := s.dispatched + AutoDispatches(auto, s.settings),
       toCreate := if review == [] then s.toCreate else s.toCreate + [review])
  }

  function CreateStep(s: State): State
    requires s.toCreate != []
  {
    var r := Request(s.nextId, s.toCreate[0], s.now + EXPIRE_AFTER_MS);
    s.(manager := s.manager.(pending := s.manager.pending[s.nextId := r]), nextId := s.nextId + 1,
       toCreate := s.toCreate[1..], toSchedule := s.toSchedule + {s.nextId}, created := s.created[s.nextId := r])
  }

  function ResponseStep(s: State, id: Id, decisions: seq<Decision>): State {
    var (manager, run) := Respond(s.manager, id, s.now);
    s.(manager := manager,
       answered := if id in s.manager.pending then s.answered[id := Answered(decisions, s.now)] else s.answered,
       executions := if run.Some? then s.executions[id := Execution(decisions, 0)] else s.executions)
  }

  function ExecuteStep(s: State, id: Id): State
    requires id in s.executions && id in s.created && s.executions[id].done < |s.executions[id].decisions|
  {
    var x, batch := s.executions[id], s.created[id].batch;
    var d := x.decisions[x.done];
    s.(executions := s.executions[id := x.(done := x.done + 1)],
       dispatched := s.dispatched +
         if d.verdict == Approve && 0 <= d.index < |batch| then [ApprovedDispatch(id, d.index, batch[d.index])] else [])
  }

  /** A step that does not apply leaves the state as it is. */
  function Next(s: State, step: Step): State {
    match step
    case Tick(ms) => s.(now := s.now + ms)
    case Configure(settings) => s.(settings := settings)
    case Inbound(items) => InboundStep(s, items)
    case CreateNext => if s.toCreate == [] then s else CreateStep(s)
    case ScheduleOne(id) =>
      if id in s.toSchedule && id in s.created then
        s.(manager := Schedule(s.manager, s.created[id], s.now), toSchedule := s.toSchedule - {id})
      else s
    case Response(id, decisions) => ResponseStep(s, id, decisions)
    case ExecuteNext(id) =>
      if id in s.executions && id in s.created && s.executions[id].done < |s.executions[id].decisions| then ExecuteStep(s, id) else s
    case ExpiryFires(id) =>
      if id in s.manager.expiryTimers && s.manager.expiryTimers[id] <= s.now then s.(manager := Cleanup(s.manager, id)) else s
    case ReminderFires(id) => s
  }

  function Run(s: State, steps: seq<Step>): State {
    if steps == [] then s else Next(Run(s, Front(steps)), Last(steps))
  }

  /** The batch positions dispatched for one approval, in order. */
  function PositionsOf(dispatched: seq<Dispatch>, id: Id): seq<nat> {
    if dispatched == [] then []
    else
      PositionsOf(Front(dispatched), id) +
      if Last(dispatched).ApprovedDispatch? && Last(dispatched).id == id then [Last(dispatched).position] else []
  }

  /** The positions an approval is due by what has been executed of it. */
  function DuePositions(s: State, id: Id): seq<nat> {
    if id in s.executions && id in s.created && s.executions[id].done <= |s.executions[id].decisions| then
      Approved(s.created[id].batch, s.executions[id].decisions[..s.executions[id].done])
    else []
  }

  ghost predicate IdInv(s: State, id: Id) {
    && (id in s.manager.pending ==> id in s.created && s.created[id] == s.manager.pending[id] && id !in s.answered)
    && (id in s.created ==> id < s.nextId && s.created[id].approvalId == id)
    && (id in s.toSchedule ==> id in s.created && id !in s.manager.expiryTimers)
    && (id in s.answered ==> id in s.created)
    && (id in s.executions ==>
          && id in s.answered && s.executions[id].decisions == s.answered[id].decisions
          && s.answered[id].at <= s.created[id].expiresAt
          && s.executions[id].done <= |s.executions[id].decisions|)
    && (id in s.manager.expiryTimers ==> id in s.created && s.manager.expiryTimers[id] >= s.created[id].expiresAt)
    && (id in s.manager.pending ==> id in s.toSchedule || id in s.manager.expiryTimers)
    && PositionsOf(s.dispatched, id) == DuePositions(s, id)
  }

  ghost predicate DispatchInv(s: State, d: Dispatch) {
    match d
    case AutoDispatch(item, settings) => IsAuto(settings, item)
    case ApprovedDispatch(id, position, item) =>
      && id in s.created && id in s.executions
      && position < |s.created[id].batch| && item == s.created[id].batch[position]
      && Decision(position, Approve) in s.executions[id].decisions
  }

  ghost predicate Inv(s: State) {
    && (forall id :: IdInv(s, id))
    && (forall d :: d in s.dispatched ==> DispatchInv(s, d))
  }

  lemma {:induction false} PositionsConcat(a: seq<Dispatch>, b: seq<Dispatch>, id: Id)
    ensures PositionsOf(a + b, id) == PositionsOf(a, id) + PositionsOf(b, id)
  {
    if b == [] {
      assert a + b == a;
    } else {
      assert Front(a + b) == a + Front(b);
      PositionsConcat(a, Front(b), id);
    }
  }

  lemma {:induction false} AutoHasNoPositions(d: seq<Dispatch>, id: Id)
    requires forall k :: 0 <= k < |d| ==> d[k].AutoDispatch?
    ensures PositionsOf(d, id) == []
  {
    if d != [] {
      AutoHasNoPositions(Front(d), id);
    }
  }

  lemma InboundKeeps(s: State, items: seq<Item>)
    requires Inv(s)
    ensures Inv(InboundStep(s, items))
  {
    var s' := InboundStep(s, items);
    var more := AutoDispatches(AutoItems(s.settings, items), s.settings);
    OnlyAutoItems(s.settings, items);
    hide AutoItems, ReviewItems, IsAuto;
    forall id ensures IdInv(s', id) {
      assert IdInv(s, id);
      PositionsConcat(s.dispatched, more, id);
      AutoHasNoPositions(more, id);
    }
    forall d | d in s'.dispatched ensures DispatchInv(s', d) {
      if d in s.dispatched {
        assert DispatchInv(s, d);
      }
    }
  }

  lemma CreateKeeps(s: State)
    requires Inv(s) && s.toCreate != []
    ensures Inv(CreateStep(s))
  {
    var s' := CreateStep(s);
    assert IdInv(s, s.nextId);
    hide PositionsOf, Approved;
    forall id ensures IdInv(s', id) {
      assert IdInv(s, id);
    }
    forall d | d in s'.dispatched ensures DispatchInv(s', d) {
      assert DispatchInv(s, d);
    }
  }

  lemma ResponseKeeps(s: State, id: Id, decisions: seq<Decision>)
    requires Inv(s)
    ensures Inv(ResponseStep(s, id, decisions))
  {
    var s' := ResponseStep(s, id, decisions);
    assert IdInv(s, id);
    assert decisions[..0] == [];
    hide PositionsOf;
    forall other ensures IdInv(s', other) {
      assert IdInv(s, other);
    }
    forall d | d in s'.dispatched ensures DispatchInv(s', d) {
      assert DispatchInv(s, d);
    }
  }

  /** Processing one more decision adds exactly what that decision is due. */
  lemma DueOneMore(batch: seq<Item>, decisions: seq<Decision>, done: nat)
    requires done < |decisions|
    ensures var d := decisions[done];
      Approved(batch, decisions[..done + 1]) == Approved(batch, decisions[..done]) +
        if d.verdict == Approve && 0 <= d.index < |batch| then [d.index as nat] else []
  {
    assert Front(decisions[..done + 1]) == decisions[..done];
  }

  /** What the next decision of an execution dispatches. */
  function NextPositions(s: State, id: Id): seq<nat>
    requires id in s.executions && id in s.created && s.executions[id].done < |s.executions[id].decisions|
  {
    var d := s.executions[id].decisions[s.executions[id].done];
    if d.verdict == Approve && 0 <= d.index < |s.created[id].batch| then [d.index as nat] else []
  }

  lemma PositionsAfter(s: State, id: Id, other: Id)
    requires id in s.executions && id in s.created && s.executions[id].done < |s.executions[id].decisions|
    ensures PositionsOf(ExecuteStep(s, id).dispatched, other) ==
      PositionsOf(s.dispatched, other) + if other == id then NextPositions(s, id) else []
  {
    var batch, d := s.created[id].batch, s.executions[id].decisions[s.executions[id].done];
    if d.verdict == Approve && 0 <= d.index < |batch| {
      assert Front(s.dispatched + [ApprovedDispatch(id, d.index, batch[d.index])]) == s.dispatched;
    } else {
      assert s.dispatched + [] == s.dispatched;
    }
  }

  lemma DueAfter(s: State, id: Id, other: Id)
    requires id in s.executions && id in s.created && s.executions[id].done < |s.executions[id].decisions|
    ensures DuePositions(ExecuteStep(s, id), other) ==
      DuePositions(s, other) + if other == id then NextPositions(s, id) else []
  {
    hide Approved;
    var s', x := ExecuteStep(s, id), s.executions[id];
    if other == id {
      DueOneMore(s.created[id].batch, x.decisions, x.done);
      assert s'.executions[id] == x.(done := x.done + 1);
    } else {
      assert other in s'.executions <==> other in s.executions;
      assert DuePositions(s', other) == DuePositions(s, other);
    }
  }

  lemma ExecuteKeepsIds(s: State, id: Id, other: Id)
    requires IdInv(s, id) && IdInv(s, other)
    requires id in s.executions && id in s.created && s.executions[id].done < |s.executions[id].decisions|
    ensures IdInv(ExecuteStep(s, id), other)
  {
    hide PositionsOf, DuePositions;
    PositionsAfter(s, id, other);
    DueAfter(s, id, other);
  }

  lemma ExecuteKeeps(s: State, id: Id)
    requires Inv(s) && id in s.executions && id in s.created && s.executions[id].done < |s.executions[id].decisions|
    ensures Inv(ExecuteStep(s, id))
  {
    var s', x := ExecuteStep(s, id), s.executions[id];
    forall other ensures IdInv(s', other) {
      ExecuteKeepsIds(s, id, other);
    }
    hide IdInv;
    forall d | d in s'.dispatched ensures DispatchInv(s', d) {
      if d in s.dispatched {
        assert DispatchInv(s, d);
      } else {
        assert x.decisions[x.done] in x.decisions;
      }
    }
  }

  lemma ManagerStepKeeps(s: State, step: Step)
    requires Inv(s) && (step.Tick? || step.Configure? || step.ScheduleOne? || step.ExpiryFires? || step.ReminderFires?)
    ensures Inv(Next(s, step))
  {
    var s' := Next(s, step);
    hide PositionsOf, Approved;
    if step.ScheduleOne? || step.ExpiryFires? {
      assert IdInv(s, step.id);
    }
    forall id ensures IdInv(s', id) {
      assert IdInv(s, id);
    }
    forall d | d in s'.dispatched ensures DispatchInv(s', d) {
      assert DispatchInv(s, d);
    }
  }

  lemma StepKeepsInv(s: State, step: Step)
    requires Inv(s)
    ensures Inv(Next(s, step))
  {
    hide Inv, InboundStep, ResponseStep;
    match step
    case Inbound(items) => InboundKeeps(s, items);
    case CreateNext => if s.toCreate != [] { CreateKeeps(s); }
    case Response(id, decisions) => ResponseKeeps(s, id, decisions);
    case ExecuteNext(id) =>
      if id in s.executions && id in s.created && s.executions[id].done < |s.executions[id].decisions| {
        ExecuteKeeps(s, id);
      }
    case _ => ManagerStepKeeps(s, step);
  }

  lemma {:induction false} ReachableInv(now: int, settings: Settings, steps: seq<Step>)
    ensures Inv(Run(Start(now, settings), steps))
  {
    if steps != [] {
      ReachableInv(now, settings, Front(steps));
      StepKeepsInv(Run(Start(now, settings), Front(steps)), Last(steps));
    }
  }

  // ---- Safety over whole runs ----

  /** The k-th step of the run brought the item in, and the settings of that moment said auto. */
  predicate BroughtIn(now: int, settings: Settings, steps: seq<Step>, k: nat, item: Item) {
    && k < |steps| && steps[k].Inbound? && item in steps[k].items
    && var current := Run(Start(now, settings), steps[..k]).settings;
       item.actionType in current && current[item.actionType] == "auto"
  }

  lemma {:induction false} AutoItemsAreItems(settings: Settings, items: seq<Item>, item: Item)
    requires item in AutoItems(settings, items)
    ensures item in items && IsAuto(settings, item)
  {
    hide IsAuto;
    if items != [] {
      assert items == Front(items) + [Last(items)];
      if item in AutoItems(settings, Front(items)) {
        AutoItemsAreItems(settings, Front(items), item);
      }
    }
  }

  /** A step adds an automatic dispatch only for an item it brings in. */
  lemma NewAutoDispatch(s: State, step: Step, d: Dispatch)
    requires d.AutoDispatch? && d in Next(s, step).dispatched && d !in s.dispatched
    ensures step.Inbound? && d.item in step.items && IsAuto(s.settings, d.item)
  {
    hide AutoItems, ReviewItems, IsAuto, Respond, Cleanup, Schedule;
    if step.Inbound? {
      assert d in AutoDispatches(AutoItems(s.settings, step.items), s.settings);
      AutoItemsAreItems(s.settings, step.items, d.item);
    }
  }

  lemma {:induction false} AutoDispatchWasBroughtIn(now: int, settings: Settings, steps: seq<Step>, d: Dispatch) returns (k: nat)
    requires d.AutoDispatch? && d in Run(Start(now, settings), steps).dispatched
    ensures BroughtIn(now, settings, steps, k, d.item)
  {
    var s := Run(Start(now, settings), Front(steps));
    hide Next, IsAuto;
    if d in s.dispatched {
      k := AutoDispatchWasBroughtIn(now, settings, Front(steps), d);
      assert Front(steps)[..k] == steps[..k];
    } else {
      NewAutoDispatch(s, Last(steps), d);
      k := |steps| - 1;
    }
  }

  /** Nothing is dispatched but by the auto branch, for an item of an inbound message whose setting at that moment
      is auto and never for the actions that always need review, or by an approval in the first answer to its
      request, given no later than its expiry. */
  lemma EveryDispatchIsAuthorized(now: int, settings: Settings, steps: seq<Step>, d: Dispatch)
    requires d in Run(Start(now, settings), steps).dispatched
    ensures d.AutoDispatch? ==>
      && d.item.actionType in d.settings && d.settings[d.item.actionType] == "auto"
      && d.item.actionType != "financial_action" && d.item.actionType != "send_document_contract"
    ensures d.AutoDispatch? ==>
      exists k :: (
        && 0 <= k < |steps| && steps[k].Inbound? && d.item in steps[k].items
        && var current := Run(Start(now, settings), steps[..k]).settings;
           d.item.actionType in current && current[d.item.actionType] == "auto")
    ensures var s := Run(Start(now, settings), steps);
      d.ApprovedDispatch? ==>
        && d.id in s.created && d.id in s.answered && s.answered[d.id].at <= s.created[d.id].expiresAt
        && Decision(d.position, Approve) in s.answered[d.id].decisions
        && d.position < |s.created[d.id].batch| && d.item == s.created[d.id].batch[d.position]
  {
    ReachableInv(now, settings, steps);
    var s := Run(Start(now, settings), steps);
    assert DispatchInv(s, d);
    if d.ApprovedDispatch? {
      assert IdInv(s, d.id);
    } else {
      var k := AutoDispatchWasBroughtIn(now, settings, steps, d);
      assert steps[k].Inbound?;
    }
  }

  /** No approval is executed twice: what has been dispatched for it is exactly what the processed part
      of its one answer approves, in that order. */
  lemma ExecutedAtMostOnce(now: int, settings: Settings, steps: seq<Step>, id: Id)
    ensures var s := Run(Start(now, settings), steps);
      && PositionsOf(s.dispatched, id) == DuePositions(s, id)
      && (id !in s.answered ==> PositionsOf(s.dispatched, id) == [])
  {
    ReachableInv(now, settings, steps);
    assert IdInv(Run(Start(now, settings), steps), id);
  }

  /** The first answer ends an approval: it is no longer pending, and later answers change nothing. */
  lemma LaterAnswersAreIgnored(now: int, settings: Settings, steps: seq<Step>, id: Id, decisions: seq<Decision>)
    requires id in Run(Start(now, settings), steps).answered
    ensures var s := Run(Start(now, settings), steps); Next(s, Response(id, decisions)) == s
  {
    ReachableInv(now, settings, steps);
    assert IdInv(Run(Start(now, settings), steps), id);
  }

  /** A timer never ends an approval before its expiry, and once timers are set each pending one has one. */
  lemma TimersAreNeverEarly(now: int, settings: Settings, steps: seq<Step>, id: Id)
    requires id in Run(Start(now, settings), steps).manager.pending
    ensures var s := Run(Start(now, settings), steps); var s' := Next(s, ExpiryFires(id));
      && id in s.created
      && (id !in s'.manager.pending ==> s.created[id].expiresAt <= s.now)
      && (id in s.toSchedule || id in s.manager.expiryTimers)
  {
    ReachableInv(now, settings, steps);
    assert IdInv(Run(Start(now, settings), steps), id);
  }

  // ---- One step, in numbers ----

  /** An inbound message: what may go out at once does, in order and under the settings of the moment, and nothing else;
      the rest, if there is any, waits for review as one batch in order. */
  lemma InboundInWords(s: State, items: seq<Item>) returns (auto: seq<nat>, review: seq<nat>)
    ensures forall k: nat :: k in auto <==>
      && k < |items| && items[k].actionType in s.settings && s.settings[items[k].actionType] == "auto"
      && items[k].actionType != "financial_action" && items[k].actionType != "send_document_contract"
    ensures forall k: nat :: k in review <==> k < |items| && k !in auto
    ensures forall i, j :: 0 <= i < j < |auto| ==> auto[i] < auto[j]
    ensures forall i, j :: 0 <= i < j < |review| ==> review[i] < review[j]
    ensures var next := Next(s, Inbound(items));
      && |next.dispatched| == |s.dispatched| + |auto| && next.dispatched[..|s.dispatched|] == s.dispatched
      && (forall i :: 0 <= i < |auto| ==>
            auto[i] < |items| && next.dispatched[|s.dispatched| + i] == AutoDispatch(items[auto[i]], s.settings))
      && (review == [] ==> next.toCreate == s.toCreate)
      && (review != [] ==>
            && |next.toCreate| == |s.toCreate| + 1 && next.toCreate[..|s.toCreate|] == s.toCreate
            && |next.toCreate[|s.toCreate|]| == |review|
            && forall i :: 0 <= i < |review| ==>
                 review[i] < |items| && next.toCreate[|s.toCreate|][i] == items[review[i]])
  {
    auto, review := SplitInWords(s.settings, items);
    hide AutoItems, ReviewItems;
  }

  /** A request is created for the batch that waits longest, under an id not used before. */
  lemma CreateInWords(s: State)
    requires s.toCreate != []
    ensures var next := Next(s, CreateNext);
      && next.toCreate == s.toCreate[1..] && next.nextId > s.nextId
      && next.created == s.created[s.nextId := Request(s.nextId, s.toCreate[0], s.now + 86_400_000)]
      && next.manager.pending == s.manager.pending[s.nextId := next.created[s.nextId]]
      && next.toSchedule == s.toSchedule + {s.nextId}
  {
  }

  /** A request can be answered for a day: the first answer within it is executed, a later one only ends the request. */
  lemma AnswerWithinADay(s: State, ms: nat, decisions: seq<Decision>)
    requires s.toCreate != [] && s.nextId !in s.executions
    ensures var id := s.nextId;
      var asked := Next(Next(s, CreateNext), Tick(ms));
      var next := Next(asked, Response(id, decisions));
      && id in asked.created && asked.created[id].batch == s.toCreate[0]
      && id !in next.manager.pending
      && (id in next.executions <==> ms <= 86_400_000)
      && (id in next.executions ==> next.executions[id] == Execution(decisions, 0))
  {
  }

  /** A due expiry timer ends its request, and setting the timers of a new request is what arms it. */
  lemma DueTimerEnds(s: State, id: Id)
    ensures id in s.manager.expiryTimers && s.manager.expiryTimers[id] <= s.now ==>
      Next(s, ExpiryFires(id)).manager == Manager(s.manager.pending - {id}, s.manager.reminderTimers - {id}, s.manager.expiryTimers - {id})
    ensures id in s.toSchedule && id in s.created && s.created[id].approvalId == id ==>
      var next := Next(s, ScheduleOne(id)); id !in next.toSchedule && id in next.manager.expiryTimers
  {
  }

  /** The steps that process all decisions of an execution. */
  function Executions(id: Id, n: nat): seq<Step> {
    if n == 0 then [] else Executions(id, n - 1) + [ExecuteNext(id)]
  }

  lemma OneMoreStep(s: State, steps: seq<Step>, step: Step)
    ensures Run(s, steps + [step]) == Next(Run(s, steps), step)
    ensures Run(s, []) == s
  {
    assert Front(steps + [step]) == steps;
  }

  /** In state t the first n decisions of the execution that stands at its beginning in s have been processed. */
  ghost predicate Processed(s: State, t: State, id: Id, n: nat)
    requires id in s.executions && id in s.created && n <= |s.executions[id].decisions|
  {
    && id in t.executions && t.executions[id] == s.executions[id].(done := n) && t.created == s.created
    && PositionsOf(t.dispatched, id)
      == PositionsOf(s.dispatched, id) + Approved(s.created[id].batch, s.executions[id].decisions[..n])
  }

  lemma ProcessesOne(s: State, t: State, id: Id, n: nat)
    requires id in s.executions && id in s.created && n < |s.executions[id].decisions| && Processed(s, t, id, n)
    ensures Processed(s, Next(t, ExecuteNext(id)), id, n + 1)
  {
    hide Approved, PositionsOf;
    var u := Next(t, ExecuteNext(id));
    assert u == ExecuteStep(t, id);
    PositionsAfter(t, id, id);
    DueOneMore(s.created[id].batch, s.executions[id].decisions, n);
    var was, next := PositionsOf(s.dispatched, id), NextPositions(t, id);
    assert (was + Approved(s.created[id].batch, s.executions[id].decisions[..n])) + next
      == was + (Approved(s.created[id].batch, s.executions[id].decisions[..n]) + next);
  }

  lemma ProcessedNone(s: State, id: Id)
    requires id in s.executions && id in s.created && s.executions[id].done == 0
    ensures Processed(s, s, id, 0)
  {
    assert s.executions[id].decisions[..0] == [];
    hide PositionsOf;
    assert PositionsOf(s.dispatched, id) + [] == PositionsOf(s.dispatched, id);
  }

  lemma {:induction false} ExecutesAll(s: State, id: Id, n: nat)
    requires id in s.executions && id in s.created && s.executions[id].done == 0 && n <= |s.executions[id].decisions|
    ensures Processed(s, Run(s, Executions(id, n)), id, n)
  {
    hide Processed, Run, Next;
    if n == 0 {
      ProcessedNone(s, id);
      OneMoreStep(s, [], ExecuteNext(id));
    } else {
      ExecutesAll(s, id, n - 1);
      OneMoreStep(s, Executions(id, n - 1), ExecuteNext(id));
      ProcessesOne(s, Run(s, Executions(id, n - 1)), id, n - 1);
    }
  }

  /** An answer in time, once executed to its end, has dispatched every approved position, in order, and nothing else. */
  lemma AnswerIsExecuted(now: int, settings: Settings, steps: seq<Step>, id: Id, decisions: seq<Decision>)
    requires id in Run(Start(now, settings), steps).manager.pending
    requires var s := Run(Start(now, settings), steps); id in s.created && s.now <= s.created[id].expiresAt
    ensures var s := Run(Start(now, settings), steps);
      var t := Run(Next(s, Response(id, decisions)), Executions(id, |decisions|));
      PositionsOf(s.dispatched, id) == [] && PositionsOf(t.dispatched, id) == Approved(s.created[id].batch, decisions)
  {
    ReachableInv(now, settings, steps);
    var s := Run(Start(now, settings), steps);
    assert IdInv(s, id);
    ExecutedAtMostOnce(now, settings, steps, id);
    hide Run, Inv, PositionsOf, Approved;
    var answered := Next(s, Response(id, decisions));
    assert answered.executions[id] == Execution(decisions, 0) && answered.created == s.created && answered.dispatched == s.dispatched;
    ExecutesAll(answered, id, |decisions|);
    assert decisions[..|decisions|] == decisions;
  }

  /** A run from the start: one item is brought in, put up for review, approved and dispatched. */
  lemma ReviewedItemGoesOut(item: Item)
    ensures Run(Start(0, map[]), [Inbound([item]), CreateNext, Response(0, [Decision(0, Approve)]), ExecuteNext(0)]).dispatched
      == [ApprovedDispatch(0, 0, item)]
  {
    var a: seq<Step> := [Inbound([item])];
    var b: seq<Step> := a + [CreateNext];
    var c: seq<Step> := b + [Response(0, [Decision(0, Approve)])];
    OneMoreStep(Start(0, map[]), [], Inbound([item]));
    assert [] + a == a;
    OneMoreStep(Start(0, map[]), a, CreateNext);
    OneMoreStep(Start(0, map[]), b, Response(0, [Decision(0, Approve)]));
    OneMoreStep(Start(0, map[]), c, ExecuteNext(0));
    assert Front([item]) == [];
    SplitStep(map[], [item]);
    assert AutoItems(map[], []) == [] && ReviewItems(map[], []) == [];
    hide Run, AutoItems, ReviewItems;
    var first := Run(Start(0, map[]), a);
    assert first.dispatched == [] && first.toCreate == [[item]];
    assert [Inbound([item]), CreateNext, Response(0, [Decision(0, Approve)]), ExecuteNext(0)] == c + [ExecuteNext(0)];
  }

  /** The timers of a request are set for four hours after that moment, if the request still stands then, and for its
      expiry, or at once if that has passed. */
  lemma TimersInNumbers(m: Manager, r: Request, now: int)
    ensures var next := Schedule(m, r, now);
      && next.pending == m.pending
      && next.expiryTimers == m.expiryTimers[r.approvalId := if r.expiresAt > now then r.expiresAt else now]
      && next.reminderTimers ==
           if now + 14_400_000 < r.expiresAt then m.reminderTimers[r.approvalId := now + 14_400_000] else m.reminderTimers
  {
  }

  // ---- The phone's decision list ----

  ghost predicate OnePerIndex(decisions: seq<Decision>) {
    forall j, k :: 0 <= j < k < |decisions| ==> decisions[j].index != decisions[k].index
  }

  function Without(decisions: seq<Decision>, index: int): (r: seq<Decision>)
    ensures forall d :: d in r <==> d in decisions && d.index != index
    ensures OnePerIndex(decisions) ==> OnePerIndex(r)
  {
    if decisions == [] then []
    else
      var rest := Without(Front(decisions), index);
      assert forall k :: 0 <= k < |rest| ==> rest[k] in rest;
      assert forall d :: d in Front(decisions) && OnePerIndex(decisions) ==> d.index != Last(decisions).index;
      if Last(decisions).index == index then rest else rest + [Last(decisions)]
  }

  class ApprovalStore {
    var approvalId: Option<Id>
    var items: seq<Item>
    var decisions: seq<Decision>
    var currentIndex: nat

    ghost predicate Valid()
      reads this
    {
      OnePerIndex(decisions)
    }

    constructor ()
      ensures Valid() && approvalId == None && items == [] && decisions == [] && currentIndex == 0
    {
      approvalId, items, decisions, currentIndex := None, [], [], 0;
    }

    method SetCarousel(id: Id, newItems: seq<Item>)
      modifies this
      ensures Valid() && approvalId == Some(id) && items == newItems && decisions == [] && currentIndex == 0
    {
      approvalId, items, decisions, currentIndex := Some(id), newItems, [], 0;
    }

    /** The last decision for an index replaces earlier ones; decisions for other indexes stand. */
    method RecordDecision(decision: Decision)
      requires Valid()
      modifies this`decisions
      ensures Valid() && decision in decisions
      ensures forall d: Decision :: d.index != decision.index ==> (d in decisions <==> d in old(decisions))
      ensures forall d :: d in decisions && d.index == decision.index ==> d == decision
    {
      var others := Without(decisions, decision.index);
      assert forall k :: 0 <= k < |others| ==> others[k] in others;
      decisions := others + [decision];
    }

    method Advance()
      modifies this`currentIndex
      ensures currentIndex == old(currentIndex) + 1
    {
      currentIndex := currentIndex + 1;
    }

    method Reset()
      modifies this
      ensures Valid() && approvalId == None && items == [] && decisions == [] && currentIndex == 0
    {
      approvalId, items, decisions, currentIndex := None, [], [], 0;
    }

    predicate IsComplete()
      reads this
    {
      currentIndex >= |items|
    }
  }

  /** With one decision per index, each batch position is dispatched at most once. */
  lemma {:induction false} OnePerIndexDispatchesOnce(batch: seq<Item>, decisions: seq<Decision>)
    requires OnePerIndex(decisions)
    ensures NoDuplicates(Approved(batch, decisions))
  {
    if decisions != [] {
      OnePerIndexDispatchesOnce(batch, Front(decisions));
      var before := Approved(batch, Front(decisions));
      forall k | 0 <= k < |before| ensures before[k] != Last(decisions).index {
        assert before[k] in before;
      }
    }
  }

  lemma OnePerIndexOfPrefix(decisions: seq<Decision>, n: nat)
    requires OnePerIndex(decisions) && n <= |decisions|
    ensures OnePerIndex(decisions[..n])
  {
  }

  /** Over every run: when the first answer holds one decision per index, as the phone's list does, no batch
      position of the approval is ever dispatched twice. */
  lemma EachPositionDispatchedOnce(now: int, settings: Settings, steps: seq<Step>, id: Id)
    requires var s := Run(Start(now, settings), steps); id in s.answered ==> OnePerIndex(s.answered[id].decisions)
    ensures NoDuplicates(PositionsOf(Run(Start(now, settings), steps).dispatched, id))
  {
    ExecutedAtMostOnce(now, settings, steps, id);
    ReachableInv(now, settings, steps);
    var s := Run(Start(now, settings), steps);
    assert IdInv(s, id);
    hide Run, Inv;
    if id in s.executions && id in s.created {
      var x := s.executions[id];
      OnePerIndexOfPrefix(x.decisions, x.done);
      OnePerIndexDispatchesOnce(s.created[id].batch, x.decisions[..x.done]);
    }
  }

  // ---- Item numbers against batch positions ----

  /** No item that is dispatched at once stands before one that is to be reviewed. */
  ghost predicate ReviewedFirst(settings: Settings, items: seq<Item>) {
    forall i, j :: 0 <= i < j < |items| && IsAuto(settings, items[i]) ==> IsAuto(settings, items[j])
  }

  lemma {:induction false} ReviewAtMost(settings: Settings, items: seq<Item>)
    ensures |ReviewItems(settings, items)| <= |items|
    ensures (exists i :: 0 <= i < |items| && IsAuto(settings, items[i])) ==> |ReviewItems(settings, items)| < |items|
  {
    hide IsAuto;
    if items != [] {
      ReviewAtMost(settings, Front(items));
    }
  }

  lemma {:induction false} AllReviewed(settings: Settings, items: seq<Item>)
    requires forall i :: 0 <= i < |items| ==> !IsAuto(settings, items[i])
    ensures ReviewItems(settings, items) == items
  {
    if items != [] {
      SplitStep(settings, items);
      hide IsAuto, ReviewItems;
      assert !IsAuto(settings, items[|items| - 1]);
      AllReviewed(settings, Front(items));
    }
  }

  lemma {:induction false} ReviewedFirstIsPrefix(settings: Settings, items: seq<Item>)
    requires ReviewedFirst(settings, items)
    ensures ReviewItems(settings, items) <= items
  {
    hide IsAuto;
    if items != [] {
      if IsAuto(settings, Last(items)) {
        ReviewedFirstIsPrefix(settings, Front(items));
        assert ReviewItems(settings, items) == ReviewItems(settings, Front(items));
        assert Front(items) <= items;
      } else {
        AllReviewed(settings, items);
      }
    }
  }

  lemma {:induction false} ReviewOfPrefix(settings: Settings, items: seq<Item>, n: nat)
    requires n <= |items|
    ensures ReviewItems(settings, items[..n]) <= ReviewItems(settings, items)
    decreases |items| - n
  {
    hide IsAuto;
    if n == |items| {
      assert items[..n] == items;
    } else {
      ReviewOfPrefix(settings, items, n + 1);
      assert Front(items[..n + 1]) == items[..n];
    }
  }

  lemma ApprovedOne(batch: seq<Item>, i: int)
    ensures Approved(batch, [Decision(i, Approve)]) == if 0 <= i < |batch| then [i as nat] else []
  {
    assert Approved(batch, []) == [];
  }

  /** A reviewed item behind an automatic one stands at a batch position below its number. */
  lemma ShiftedItem(settings: Settings, items: seq<Item>, i: nat, j: nat) returns (p: nat)
    requires i < j < |items| && IsAuto(settings, items[i]) && !IsAuto(settings, items[j])
    ensures p < j && p < |ReviewItems(settings, items)| && ReviewItems(settings, items)[p] == items[j]
  {
    hide IsAuto;
    p := |ReviewItems(settings, items[..j])|;
    ReviewOfPrefix(settings, items, j + 1);
    assert Front(items[..j + 1]) == items[..j];
    assert IsAuto(settings, items[..j][i]);
    ReviewAtMost(settings, items[..j]);
  }

  /** The items of a message are numbered in order before the split. The phone answers with item numbers, the execution reads them as batch positions. Approving a
      reviewed item dispatches that very item, whichever it is, exactly when no item that went out
      automatically stood before a reviewed one. */
  lemma NumberNamesItemExactly(settings: Settings, items: seq<Item>)
    requires forall k :: 0 <= k < |items| ==> items[k].index == k
    ensures var batch := ReviewItems(settings, items);
      ReviewedFirst(settings, items) <==>
        forall p :: 0 <= p < |batch| ==> Approved(batch, [Decision(batch[p].index, Approve)]) == [p]
  {
    var batch := ReviewItems(settings, items);
    hide Approved, ReviewItems, IsAuto;
    forall p | 0 <= p < |batch|
      ensures Approved(batch, [Decision(batch[p].index, Approve)]) == [p] <==> batch[p].index == p
    {
      ApprovedOne(batch, batch[p].index);
    }
    if ReviewedFirst(settings, items) {
      ReviewedFirstIsPrefix(settings, items);
    } else {
      var i, j :| 0 <= i < j < |items| && IsAuto(settings, items[i]) && !IsAuto(settings, items[j]);
      var p := ShiftedItem(settings, items, i, j);
      assert batch[p].index != p;
    }
  }
}
