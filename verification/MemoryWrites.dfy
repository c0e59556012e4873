/** Locked read-modify-write of memory files. Writers of any number of managers that share one lock
    interleave at every await; each file operation may also fail without effect. */
module MemoryWrites {
  import opened Prelude
  import opened SectionText
  import L = DistributedLock

  const LOCK_TTL_MS := 5_000

  type Path = string
  type WriterId = nat
  type ManagerId = nat

  datatype Operation = Create | Append | UpdateSection(section: string)

  datatype Request = Request(path: Path, op: Operation, content: string, writtenBy: string)

  /** What a write did to its file. */
  datatype Edit =
    | Created(text: string)
    | Appended(stamp: string, text: string)
    | Updated(section: string, content: string, stamp: string, writer: string)

  /** Where a write stands; one that holds the lock knows its token and when that runs out. */
  datatype Pc =
    | Idle
    | Granted          // the lock answered; the token is not yet recorded
    | Locked           // recorded; nothing read or written yet
    | Missing          // create: the file was found not to exist
    | HasRead(raw: string)
    | Wrote            // the edit is in the file
    | Closing(ok: bool)
    | Unlocked(ok: bool)
    | Done(ok: bool)

  datatype Writer = Writer(manager: ManagerId, req: Request, pc: Pc, token: L.Token, expiresAt: int, effect: Option<Edit>)

  datatype State = State(
    now: int,
    locks: L.Locks,
    nextToken: L.Token,
    lockTokens: map<(ManagerId, Path), L.Token>,
    files: map<Path, string>,
    writers: map<WriterId, Writer>,
    lockOrder: map<Path, seq<WriterId>>)   // who was granted the lock of a path, in order

  datatype Step =
    | Tick(ms: nat)
    | Purge(path: Path)
    | Acquire(w: WriterId)
    | Record(w: WriterId)
    | Io(w: WriterId, fails: bool, stamp: string)
    | Stat(w: WriterId, fails: bool)
    | ReleaseLock(w: WriterId)
    | Forget(w: WriterId)

  function File(s: State, path: Path): Option<string> {
    if path in s.files then Some(s.files[path]) else None
  }

  function Order(s: State, path: Path): seq<WriterId> {
    if path in s.lockOrder then s.lockOrder[path] else []
  }

  // ---- One file operation ----

  function CreatedText(r: Request): string {
    r.content + "\n<!-- written-by: " + r.writtenBy + " -->\n"
  }

  function AppendedText(r: Request, stamp: string): string {
    "\n<!-- " + stamp + " written-by: " + r.writtenBy + " -->\n" + r.content + "\n"
  }

  function ApplyEdit(e: Edit, file: Option<string>): Option<string> {
    match e
    case Created(text) => Some(text)
    case Appended(_, text) => Some(file.GetOr("") + text)
    case Updated(section, content, stamp, writer) => Some(ReplaceSection(file.GetOr(""), section, content, stamp, writer))
  }

  /** The edit is the one the request asks for. */
  predicate Requested(e: Edit, r: Request) {
    match r.op
    case Create => e == Created(CreatedText(r))
    case Append => e.Appended? && e.text == AppendedText(r, e.stamp)
    case UpdateSection(section) => e.Updated? && e.section == section && e.content == r.content && e.writer == r.writtenBy
  }

  function SetWriter(s: State, w: WriterId, x: Writer): State {
    s.(writers := s.writers[w := x])
  }

  function WriteFile(s: State, w: WriterId, x: Writer, e: Edit, text: string): State {
    SetWriter(s, w, x.(pc := Wrote, effect := Some(e))).(files := s.files[x.req.path := text])
  }

  /** The next file operation of a write that holds the lock, on the file as it is now: where the write stands
      after it, and what it wrote, if anything. */
  function FileOperation(file: Option<string>, x: Writer, fails: bool, stamp: string): (Pc, Option<(Edit, string)>) {
    match x.req.op
    case Create =>
      if x.pc == Locked && !fails && file.None? then (Missing, None)
      else if x.pc == Missing && !fails then (Wrote, Some((Created(CreatedText(x.req)), CreatedText(x.req))))
      else (Closing(false), None)
    case Append =>
      if x.pc == Locked && !fails then
        var text := AppendedText(x.req, stamp);
        (Wrote, Some((Appended(stamp, text), file.GetOr("") + text)))
      else (Closing(false), None)
    case UpdateSection(section) =>
      if section == "" then (Closing(false), None)
      else if x.pc == Locked && !fails && file.Some? then (HasRead(file.value), None)
      else if x.pc.HasRead? && !fails then
        (Wrote, Some((Updated(section, x.req.content, stamp, x.req.writtenBy),
                      ReplaceSection(x.pc.raw, section, x.req.content, stamp, x.req.writtenBy))))
      else (Closing(false), None)
  }

  function IoStep(s: State, w: WriterId, x: Writer, fails: bool, stamp: string): State {
    var (pc, write) := FileOperation(File(s, x.req.path), x, fails, stamp);
    if write.Some? then WriteFile(s, w, x, write.value.0, write.value.1) else SetWriter(s, w, x.(pc := pc))
  }

  predicate InIo(pc: Pc) {
    pc.Locked? || pc.Missing? || pc.HasRead?
  }

  function AcquireStep(s: State, w: WriterId, x: Writer): State {
    var (locks, r) := L.AcquireAt(s.locks, x.req.path, LOCK_TTL_MS, s.now, s.nextToken);
    if r.None? then SetWriter(s, w, x.(pc := Done(false)))
    else
      SetWriter(s, w, x.(pc := Granted, token := r.value, expiresAt := s.now + LOCK_TTL_MS)).(
        locks := locks, nextToken := s.nextToken + 1,
        lockOrder := s.lockOrder[x.req.path := Order(s, x.req.path) + [w]])
  }

  /** The release goes by the token recorded for the path. */
  function ReleaseStep(s: State, w: WriterId, x: Writer): State {
    var key := (x.manager, x.req.path);
    if key in s.lockTokens then
      SetWriter(s, w, x.(pc := Unlocked(x.pc == Closing(true)))).(
        locks := L.ReleaseAt(s.locks, x.req.path, s.lockTokens[key]))
    else SetWriter(s, w, x.(pc := Done(x.pc == Closing(true))))
  }

  /** A step that does not apply leaves the state as it is. */
  function Next(s: State, step: Step): State {
    match step
    case Tick(ms) => s.(now := s.now + ms)
    case Purge(path) => if L.Taken(s.locks, path, s.now) then s else s.(locks := s.locks - {path})
    case _ =>
      if step.w !in s.writers then s
      else
        var x := s.writers[step.w];
        match step
        case Acquire(w) => if x.pc == Idle then AcquireStep(s, w, x) else s
        case Record(w) =>
          if x.pc == Granted then
            SetWriter(s, w, x.(pc := Locked)).(lockTokens := s.lockTokens[(x.manager, x.req.path) := x.token])
          else s
        case Io(w, fails, stamp) => if InIo(x.pc) then IoStep(s, w, x, fails, stamp) else s
        case Stat(w, fails) => if x.pc == Wrote then SetWriter(s, w, x.(pc := Closing(!fails))) else s
        case ReleaseLock(w) => if x.pc.Closing? then ReleaseStep(s, w, x) else s
        case Forget(w) =>
          if x.pc.Unlocked? then
            SetWriter(s, w, x.(pc := Done(x.pc.ok))).(lockTokens := s.lockTokens - {(x.manager, x.req.path)})
          else s
        case _ => s
  }

  function Run(s: State, steps: seq<Step>): State {
    if steps == [] then s else Next(Run(s, Front(steps)), Last(steps))
  }

  /** Nothing acquired yet; the files hold anything. */
  ghost predicate Initial(s: State) {
    && s.locks == map[] && s.lockTokens == map[] && s.lockOrder == map[]
    && forall w :: w in s.writers ==> s.writers[w].pc == Idle && s.writers[w].effect == None
  }

  /** Between the grant and the release of the lock. */
  predicate Holds(x: Writer) {
    x.pc.Granted? || InIo(x.pc) || x.pc.Wrote? || x.pc.Closing?
  }

  /** No write outlives its lock. */
  ghost predicate Timely(s: State) {
    forall w :: w in s.writers && Holds(s.writers[w]) ==> s.now < s.writers[w].expiresAt
  }

  ghost predicate TimelyRun(s: State, steps: seq<Step>) {
    forall k :: 0 <= k <= |steps| ==> Timely(Run(s, steps[..k]))
  }

  /** The edits of the given writers, applied one after the other. */
  function Replay(file: Option<string>, order: seq<WriterId>, writers: map<WriterId, Writer>): Option<string> {
    if order == [] then file
    else
      var before := Replay(file, Front(order), writers);
      var w := Last(order);
      if w in writers && writers[w].effect.Some? then ApplyEdit(writers[w].effect.value, before) else before
  }

  /** Replayed in that order, every edit meets the file its operation needs. */
  ghost predicate Legal(file: Option<string>, order: seq<WriterId>, writers: map<WriterId, Writer>) {
    order != [] ==>
      && Legal(file, Front(order), writers)
      && var w := Last(order);
         w in writers && writers[w].effect.Some? ==>
           && (writers[w].effect.value.Created? ==> Replay(file, Front(order), writers) == None)
           && (writers[w].effect.value.Updated? ==> Replay(file, Front(order), writers).Some?)
  }

  // ---- The invariant ----

  ghost predicate HolderInv(s: State, w: WriterId)
    requires w in s.writers
  {
    var x := s.writers[w];
    Holds(x) ==>
      && x.req.path in s.locks && s.locks[x.req.path] == L.Held(x.token, x.expiresAt)
      && ((x.manager, x.req.path) in s.lockTokens ==> x.pc != Granted ==> s.lockTokens[(x.manager, x.req.path)] == x.token)
      && Order(s, x.req.path) != [] && Last(Order(s, x.req.path)) == w
      && (x.pc.HasRead? ==> File(s, x.req.path) == Some(x.pc.raw))
      && (x.pc.Missing? ==> File(s, x.req.path) == None)
      && (x.effect.Some? ==> x.pc.Wrote? || x.pc.Closing?)
  }

  ghost predicate WriterInv(s: State, w: WriterId)
    requires w in s.writers
  {
    var x := s.writers[w];
    && HolderInv(s, w)
    && (x.pc.Idle? ==> w !in Order(s, x.req.path) && x.effect == None)
    && (x.pc in {Wrote, Closing(true), Unlocked(true), Done(true)} ==> x.effect.Some?)
    && (x.effect.Some? ==> w in Order(s, x.req.path))
  }

  ghost predicate PathInv(s0: State, s: State, path: Path) {
    var order := Order(s, path);
    && File(s, path) == Replay(File(s0, path), order, s.writers)
    && Legal(File(s0, path), order, s.writers)
    && NoDuplicates(order)
    && forall k :: 0 <= k < |order| ==> order[k] in s.writers && s.writers[order[k]].req.path == path
  }

  ghost predicate Inv(s0: State, s: State) {
    && (forall w :: w in s.writers ==> WriterInv(s, w))
    && (forall path :: PathInv(s0, s, path))
  }

  // ---- Every step keeps it ----

  ghost predicate SameEffects(a: map<WriterId, Writer>, b: map<WriterId, Writer>) {
    a.Keys == b.Keys && forall w :: w in a ==> a[w].effect == b[w].effect && a[w].req == b[w].req
  }

  lemma {:induction false} ReplayFrame(file: Option<string>, order: seq<WriterId>, a: map<WriterId, Writer>, b: map<WriterId, Writer>)
    requires forall w :: w in order ==> (w in a <==> w in b) && (w in a ==> a[w].effect == b[w].effect)
    ensures Replay(file, order, a) == Replay(file, order, b)
    ensures Legal(file, order, a) <==> Legal(file, order, b)
  {
    hide ApplyEdit;
    if order != [] {
      assert Last(order) in order;
      ReplayFrame(file, Front(order), a, b);
    }
  }

  /** Steps that leave files, lock order and effects alone keep every file's history. */
  lemma PathsKeep(s0: State, s: State, s': State)
    requires Inv(s0, s)
    requires s'.files == s.files && s'.lockOrder == s.lockOrder && SameEffects(s.writers, s'.writers)
    ensures forall path :: PathInv(s0, s', path)
  {
    hide Replay, Legal, WriterInv;
    forall path ensures PathInv(s0, s', path) {
      assert PathInv(s0, s, path);
      ReplayFrame(File(s0, path), Order(s, path), s.writers, s'.writers);
    }
  }

  /** Two different writers never hold the lock of one path. */
  lemma OneHolder(s0: State, s: State, v: WriterId, w: WriterId)
    requires Inv(s0, s) && v in s.writers && w in s.writers
    requires Holds(s.writers[v]) && Holds(s.writers[w]) && s.writers[v].req.path == s.writers[w].req.path
    ensures v == w
  {
    assert WriterInv(s, v) && WriterInv(s, w);
  }

  /** A writer that did not move keeps its part of the invariant, if its lock, token, file and place stand. */
  lemma OtherKeeps(s: State, s': State, v: WriterId)
    requires v in s.writers && v in s'.writers && s.writers[v] == s'.writers[v] && WriterInv(s, v)
    requires Order(s, s.writers[v].req.path) == Order(s', s.writers[v].req.path)
    requires Holds(s.writers[v]) ==>
      var path, key := s.writers[v].req.path, (s.writers[v].manager, s.writers[v].req.path);
      && path in s'.locks && s.locks[path] == s'.locks[path]
      && (key in s'.lockTokens && s.writers[v].pc != Granted ==> key in s.lockTokens && s.lockTokens[key] == s'.lockTokens[key])
      && File(s, path) == File(s', path)
    ensures WriterInv(s', v)
  {
  }

  lemma TickKeeps(s0: State, s: State, ms: nat)
    requires Inv(s0, s)
    ensures Inv(s0, s.(now := s.now + ms))
  {
    PathsKeep(s0, s, s.(now := s.now + ms));
    forall v | v in s.writers ensures WriterInv(s.(now := s.now + ms), v) {
      OtherKeeps(s, s.(now := s.now + ms), v);
    }
  }

  lemma PurgeKeeps(s0: State, s: State, path: Path)
    requires Inv(s0, s) && Timely(s)
    ensures Inv(s0, Next(s, Purge(path)))
  {
    var s' := Next(s, Purge(path));
    PathsKeep(s0, s, s');
    forall v | v in s.writers ensures WriterInv(s', v) {
      assert WriterInv(s, v);
      OtherKeeps(s, s', v);
    }
  }

  lemma RefusalKeeps(s0: State, s: State, w: WriterId)
    requires Inv(s0, s) && w in s.writers && s.writers[w].pc == Idle
    ensures Inv(s0, SetWriter(s, w, s.writers[w].(pc := Done(false))))
  {
    var s' := SetWriter(s, w, s.writers[w].(pc := Done(false)));
    PathsKeep(s0, s, s');
    forall v | v in s.writers ensures WriterInv(s', v) {
      assert WriterInv(s, v);
      if v != w {
        OtherKeeps(s, s', v);
      }
    }
  }

  /** A granted lock: no one else holds the path, and the writer joins the end of its order. */
  lemma GrantKeepsSelf(s: State, w: WriterId)
    requires w in s.writers && WriterInv(s, w) && s.writers[w].pc == Idle
    requires !L.Taken(s.locks, s.writers[w].req.path, s.now)
    ensures WriterInv(AcquireStep(s, w, s.writers[w]), w)
  {
  }

  lemma GrantKeepsRival(s: State, w: WriterId, v: WriterId)
    requires Timely(s) && w in s.writers && v in s.writers && WriterInv(s, v) && v != w
    requires !L.Taken(s.locks, s.writers[w].req.path, s.now) && s.writers[v].req.path == s.writers[w].req.path
    ensures WriterInv(AcquireStep(s, w, s.writers[w]), v)
  {
  }

  lemma GrantKeepsWriters(s0: State, s: State, w: WriterId, v: WriterId)
    requires Inv(s0, s) && Timely(s) && w in s.writers && v in s.writers && s.writers[w].pc == Idle
    requires !L.Taken(s.locks, s.writers[w].req.path, s.now)
    ensures WriterInv(AcquireStep(s, w, s.writers[w]), v)
  {
    assert WriterInv(s, v) && WriterInv(s, w);
    hide Inv, WriterInv;
    if v == w {
      GrantKeepsSelf(s, w);
    } else if s.writers[v].req.path == s.writers[w].req.path {
      GrantKeepsRival(s, w, v);
    } else {
      OtherKeeps(s, AcquireStep(s, w, s.writers[w]), v);
    }
  }

  /** A writer that has done nothing yet adds nothing to the history. */
  lemma ReplayOneMore(file: Option<string>, order: seq<WriterId>, w: WriterId, writers: map<WriterId, Writer>)
    requires w in writers && writers[w].effect == None
    ensures Replay(file, order + [w], writers) == Replay(file, order, writers)
    ensures Legal(file, order, writers) ==> Legal(file, order + [w], writers)
  {
    assert Front(order + [w]) == order;
  }

  /** A history that ends in a writer without effect is the history before it. */
  lemma PathExtends(s0: State, s: State, s': State, path: Path, w: WriterId)
    requires PathInv(s0, s, path) && File(s', path) == File(s, path)
    requires s'.writers.Keys == s.writers.Keys
    requires forall v :: v in s.writers ==> s.writers[v].effect == s'.writers[v].effect && s.writers[v].req == s'.writers[v].req
    requires w in s.writers && s.writers[w].effect == None && s.writers[w].req.path == path && w !in Order(s, path)
    requires Order(s', path) == Order(s, path) + [w]
    ensures PathInv(s0, s', path)
  {
    hide Replay, Legal;
    ReplayFrame(File(s0, path), Order(s, path), s.writers, s'.writers);
    ReplayOneMore(File(s0, path), Order(s, path), w, s'.writers);
  }

  lemma GrantKeepsPaths(s0: State, s: State, w: WriterId, path: Path)
    requires Inv(s0, s) && w in s.writers && s.writers[w].pc == Idle
    requires !L.Taken(s.locks, s.writers[w].req.path, s.now)
    ensures PathInv(s0, AcquireStep(s, w, s.writers[w]), path)
  {
    var s' := AcquireStep(s, w, s.writers[w]);
    assert PathInv(s0, s, path) && WriterInv(s, w);
    assert s.writers[w].effect == None && w !in Order(s, s.writers[w].req.path);
    hide Inv, Replay, Legal, WriterInv;
    if path == s.writers[w].req.path {
      hide PathInv;
      PathExtends(s0, s, s', path, w);
    } else {
      ReplayFrame(File(s0, path), Order(s, path), s.writers, s'.writers);
    }
  }

  lemma AcquireKeeps(s0: State, s: State, w: WriterId)
    requires Inv(s0, s) && Timely(s) && w in s.writers && s.writers[w].pc == Idle
    ensures Inv(s0, AcquireStep(s, w, s.writers[w]))
  {
    hide PathInv, WriterInv, Timely;
    var s' := AcquireStep(s, w, s.writers[w]);
    if L.Taken(s.locks, s.writers[w].req.path, s.now) {
      RefusalKeeps(s0, s, w);
    } else {
      forall v | v in s'.writers ensures WriterInv(s', v) {
        GrantKeepsWriters(s0, s, w, v);
      }
      forall path ensures PathInv(s0, s', path) {
        GrantKeepsPaths(s0, s, w, path);
      }
    }
  }

  lemma RecordKeeps(s0: State, s: State, w: WriterId)
    requires Inv(s0, s) && w in s.writers && s.writers[w].pc == Granted
    ensures Inv(s0, Next(s, Record(w)))
  {
    var s' := Next(s, Record(w));
    PathsKeep(s0, s, s');
    assert WriterInv(s, w);
    forall v | v in s.writers ensures WriterInv(s', v) {
      if v != w {
        if Holds(s.writers[v]) && s.writers[v].req.path == s.writers[w].req.path {
          OneHolder(s0, s, v, w);
        }
        OtherKeeps(s, s', v);
      }
    }
  }

  /** A step of the holder of a path that touches no file. */
  lemma QuietStepKeeps(s0: State, s: State, w: WriterId, x': Writer)
    requires Inv(s0, s) && w in s.writers && Holds(s.writers[w])
    requires x' == s.writers[w].(pc := x'.pc)
    requires WriterInv(SetWriter(s, w, x'), w)
    ensures Inv(s0, SetWriter(s, w, x'))
  {
    var s' := SetWriter(s, w, x');
    PathsKeep(s0, s, s');
    forall v | v in s.writers ensures WriterInv(s', v) {
      if v != w {
        OtherKeeps(s, s', v);
      }
    }
  }

  /** Writing the file: the edit joins the history at its end. */
  lemma WriteKeeps(s0: State, s: State, w: WriterId, e: Edit, text: string)
    requires Inv(s0, s) && w in s.writers && InIo(s.writers[w].pc)
    requires ApplyEdit(e, File(s, s.writers[w].req.path)) == Some(text)
    requires e.Created? ==> File(s, s.writers[w].req.path) == None
    requires e.Updated? ==> File(s, s.writers[w].req.path).Some?
    ensures Inv(s0, WriteFile(s, w, s.writers[w], e, text))
  {
    hide ApplyEdit;
    var x, s' := s.writers[w], WriteFile(s, w, s.writers[w], e, text);
    var path := x.req.path;
    assert WriterInv(s, w);
    forall v | v in s.writers ensures WriterInv(s', v) {
      if v != w {
        if Holds(s.writers[v]) && s.writers[v].req.path == path {
          OneHolder(s0, s, v, w);
        }
        OtherKeeps(s, s', v);
      }
    }
    forall q ensures PathInv(s0, s', q) {
      assert PathInv(s0, s, q);
      var order := Order(s, q);
      if q == path {
        assert w !in Front(order);
        ReplayFrame(File(s0, q), Front(order), s.writers, s'.writers);
      } else {
        assert w !in order;
        ReplayFrame(File(s0, q), order, s.writers, s'.writers);
      }
    }
  }

  /** What is written is the edit applied to the file, when what was found before still holds. */
  lemma OperationApplies(file: Option<string>, x: Writer, fails: bool, stamp: string)
    requires InIo(x.pc) && (x.pc.HasRead? ==> file == Some(x.pc.raw)) && (x.pc.Missing? ==> file == None)
    ensures var (pc, write) := FileOperation(file, x, fails, stamp);
      if write.Some? then
        && ApplyEdit(write.value.0, file) == Some(write.value.1) && Requested(write.value.0, x.req)
        && (write.value.0.Created? ==> file == None) && (write.value.0.Updated? ==> file.Some?)
      else
        && (pc == Closing(false) || pc == Missing || pc.HasRead?)
        && (pc.HasRead? ==> file == Some(pc.raw)) && (pc.Missing? ==> file == None)
  {
    hide ReplaceSection, CreatedText, AppendedText;
  }

  lemma IoKeeps(s0: State, s: State, w: WriterId, fails: bool, stamp: string)
    requires Inv(s0, s) && w in s.writers && InIo(s.writers[w].pc)
    ensures Inv(s0, IoStep(s, w, s.writers[w], fails, stamp))
  {
    hide FileOperation, ApplyEdit, PathInv, Inv, Requested;
    var x := s.writers[w];
    InvHas(s0, s, w);
    OperationApplies(File(s, x.req.path), x, fails, stamp);
    var (pc, write) := FileOperation(File(s, x.req.path), x, fails, stamp);
    if write.Some? {
      WriteKeeps(s0, s, w, write.value.0, write.value.1);
    } else {
      QuietStepKeeps(s0, s, w, x.(pc := pc));
    }
  }

  lemma InvHas(s0: State, s: State, w: WriterId)
    requires Inv(s0, s) && w in s.writers
    ensures WriterInv(s, w)
  {
  }

  lemma ReleaseKeeps(s0: State, s: State, w: WriterId)
    requires Inv(s0, s) && w in s.writers && s.writers[w].pc.Closing?
    ensures Inv(s0, ReleaseStep(s, w, s.writers[w]))
  {
    var x, s' := s.writers[w], ReleaseStep(s, w, s.writers[w]);
    PathsKeep(s0, s, s');
    assert WriterInv(s, w);
    forall v | v in s.writers ensures WriterInv(s', v) {
      if v != w {
        if Holds(s.writers[v]) && s.writers[v].req.path == x.req.path {
          OneHolder(s0, s, v, w);
        }
        OtherKeeps(s, s', v);
      }
    }
  }

  lemma ForgetKeeps(s0: State, s: State, w: WriterId)
    requires Inv(s0, s) && w in s.writers && s.writers[w].pc.Unlocked?
    ensures Inv(s0, Next(s, Forget(w)))
  {
    var s' := Next(s, Forget(w));
    PathsKeep(s0, s, s');
    assert WriterInv(s, w);
    forall v | v in s.writers ensures WriterInv(s', v) {
      if v != w {
        OtherKeeps(s, s', v);
      }
    }
  }

  lemma StepKeepsInv(s0: State, s: State, step: Step)
    requires Inv(s0, s) && Timely(s)
    ensures Inv(s0, Next(s, step))
  {
    hide Inv, Timely, IoStep, AcquireStep, ReleaseStep;
    match step
    case Tick(ms) => TickKeeps(s0, s, ms);
    case Purge(path) => PurgeKeeps(s0, s, path);
    case _ =>
      if step.w in s.writers {
        var x := s.writers[step.w];
        match step
        case Acquire(w) => if x.pc == Idle { AcquireKeeps(s0, s, w); }
        case Record(w) => if x.pc == Granted { RecordKeeps(s0, s, w); }
        case Io(w, fails, stamp) => if InIo(x.pc) { IoKeeps(s0, s, w, fails, stamp); }
        case Stat(w, fails) =>
          if x.pc == Wrote {
            InvHas(s0, s, w);
            QuietStepKeeps(s0, s, w, x.(pc := Closing(!fails)));
          }
        case ReleaseLock(w) => if x.pc.Closing? { ReleaseKeeps(s0, s, w); }
        case Forget(w) => if x.pc.Unlocked? { ForgetKeeps(s0, s, w); }
        case _ =>
      }
  }

  lemma {:induction false} ReachableInv(s0: State, steps: seq<Step>)
    requires Initial(s0) && TimelyRun(s0, steps)
    ensures Inv(s0, Run(s0, steps))
  {
    if steps != [] {
      var front := Front(steps);
      assert forall k :: 0 <= k <= |front| ==> front[..k] == steps[..k];
      ReachableInv(s0, front);
      assert Timely(Run(s0, steps[..|front|])) && steps[..|front|] == front;
      StepKeepsInv(s0, Run(s0, front), Last(steps));
    }
  }

  // ---- Edits and requests ----

  predicate DidAsAsked(x: Writer) {
    x.effect.Some? ==> Requested(x.effect.value, x.req)
  }

  lemma IoDoesAsAsked(s: State, w: WriterId, fails: bool, stamp: string)
    requires w in s.writers && DidAsAsked(s.writers[w])
    ensures var x := IoStep(s, w, s.writers[w], fails, stamp).writers[w]; DidAsAsked(x) && x.req == s.writers[w].req
  {
    hide FileOperation, Requested;
    OperationIsRequested(File(s, s.writers[w].req.path), s.writers[w], fails, stamp);
  }

  lemma OperationIsRequested(file: Option<string>, x: Writer, fails: bool, stamp: string)
    ensures var write := FileOperation(file, x, fails, stamp).1; write.Some? ==> Requested(write.value.0, x.req)
  {
    hide ReplaceSection, CreatedText, AppendedText;
  }

  /** A write does to its file what it was asked to, or nothing. */
  lemma {:induction false} EditsAreRequested(s0: State, steps: seq<Step>, w: WriterId)
    requires Initial(s0) && w in s0.writers
    ensures Run(s0, steps).writers.Keys == s0.writers.Keys && w in Run(s0, steps).writers
    ensures Run(s0, steps).writers[w].req == s0.writers[w].req
    ensures DidAsAsked(Run(s0, steps).writers[w])
  {
    if steps != [] {
      EditsAreRequested(s0, Front(steps), w);
      var s, step := Run(s0, Front(steps)), Last(steps);
      hide DidAsAsked, IoStep, Initial;
      if step.Io? && step.w == w {
        IoDoesAsAsked(s, w, step.fails, step.stamp);
      }
      OneStepKeepsRequest(s, step, w);
    }
  }

  predicate Global(step: Step) {
    step.Tick? || step.Purge?
  }

  /** Only the writer whose step it is changes, and only it can join an order. */
  ghost predicate LeavesOthers(s: State, s': State, w: WriterId) {
    && s'.writers.Keys == s.writers.Keys
    && (forall v :: v in s.writers && v != w ==> s'.writers[v] == s.writers[v])
    && forall path, v :: v != w && v in Order(s', path) ==> v in Order(s, path)
  }

  lemma AcquireLeavesOthers(s: State, w: WriterId)
    requires w in s.writers
    ensures LeavesOthers(s, AcquireStep(s, w, s.writers[w]), w)
  {
    hide L.AcquireAt;
  }

  lemma IoLeavesOthers(s: State, w: WriterId, fails: bool, stamp: string)
    requires w in s.writers
    ensures LeavesOthers(s, IoStep(s, w, s.writers[w], fails, stamp), w)
  {
    hide FileOperation;
  }

  lemma ReleaseLeavesOthers(s: State, w: WriterId)
    requires w in s.writers
    ensures LeavesOthers(s, ReleaseStep(s, w, s.writers[w]), w)
  {
    hide L.ReleaseAt;
  }

  lemma StepLeavesOthers(s: State, step: Step)
    requires !Global(step) && step.w in s.writers
    ensures LeavesOthers(s, Next(s, step), step.w)
  {
    hide AcquireStep, IoStep, ReleaseStep, LeavesOthers;
    var s' := Next(s, step);
    if step.Acquire? && s.writers[step.w].pc == Idle {
      AcquireLeavesOthers(s, step.w);
    } else if step.Io? && InIo(s.writers[step.w].pc) {
      IoLeavesOthers(s, step.w, step.fails, step.stamp);
    } else if step.ReleaseLock? && s.writers[step.w].pc.Closing? {
      ReleaseLeavesOthers(s, step.w);
    } else {
      OnlyWriterChanges(s, s', step.w);
    }
  }

  lemma OnlyWriterChanges(s: State, s': State, w: WriterId)
    requires w in s.writers && s'.lockOrder == s.lockOrder
    requires s'.writers == s.writers || (w in s'.writers && s'.writers == s.writers[w := s'.writers[w]])
    ensures LeavesOthers(s, s', w)
  {
  }

  /** What its own step does to a writer. */
  lemma OwnStep(s: State, step: Step)
    requires !Global(step) && step.w in s.writers
    ensures var x := s.writers[step.w]; var s' := Next(s, step);
      && (x.pc.Done? || (x.pc == Idle && !step.Acquire?) ==> s' == s)
      && (step.Io? && InIo(x.pc) ==> s' == IoStep(s, step.w, x, step.fails, step.stamp))
      && (step.w in s'.writers && !(step.Io? && InIo(x.pc)) ==>
            && s'.writers[step.w].req == x.req && s'.writers[step.w].effect == x.effect
            && (s'.writers[step.w].pc == Idle ==> s' == s))
  {
    hide IoStep, L.AcquireAt, L.ReleaseAt, Order;
  }

  lemma OneStepKeepsRequest(s: State, step: Step, w: WriterId)
    requires w in s.writers
    ensures var s' := Next(s, step);
      && s'.writers.Keys == s.writers.Keys && w in s'.writers
      && (step.Io? && step.w == w && InIo(s.writers[w].pc) ==>
            s'.writers[w] == IoStep(s, w, s.writers[w], step.fails, step.stamp).writers[w])
      && (!(step.Io? && step.w == w && InIo(s.writers[w].pc)) ==>
            s'.writers[w].req == s.writers[w].req && s'.writers[w].effect == s.writers[w].effect)
  {
    if !Global(step) && step.w in s.writers {
      hide Next, IoStep;
      StepLeavesOthers(s, step);
      OwnStep(s, step);
    }
  }

  // ---- What the invariant is for ----

  /** In a run in which no write outlives its lock, at most one write per path is between the grant
      and the release of the lock. */
  lemma OneWritePerPath(s0: State, steps: seq<Step>, v: WriterId, w: WriterId)
    requires Initial(s0) && TimelyRun(s0, steps)
    requires var s := Run(s0, steps);
      && v in s.writers && w in s.writers && Holds(s.writers[v]) && Holds(s.writers[w])
      && s.writers[v].req.path == s.writers[w].req.path
    ensures v == w
  {
    ReachableInv(s0, steps);
    OneHolder(s0, Run(s0, steps), v, w);
  }

  /** No update is lost: at every moment each file is what its edits give when they are applied one
      after the other in the order of the lock, each meeting the file its operation needs; and every edit is
      the one its writer was asked for. */
  lemma NoUpdateIsLost(s0: State, steps: seq<Step>, path: Path)
    requires Initial(s0) && TimelyRun(s0, steps)
    ensures var s := Run(s0, steps);
      && File(s, path) == Replay(File(s0, path), Order(s, path), s.writers)
      && Legal(File(s0, path), Order(s, path), s.writers)
      && NoDuplicates(Order(s, path))
      && forall w :: w in Order(s, path) ==>
          w in s.writers && w in s0.writers && s.writers[w].req == s0.writers[w].req && DidAsAsked(s.writers[w])
  {
    ReachableInv(s0, steps);
    var s := Run(s0, steps);
    assert PathInv(s0, s, path);
    hide Run, Inv, Initial, TimelyRun, Replay, Legal, DidAsAsked;
    forall w | w in Order(s, path)
      ensures w in s.writers && w in s0.writers && s.writers[w].req == s0.writers[w].req && DidAsAsked(s.writers[w])
    {
      WritersStay(s0, steps);
      EditsAreRequested(s0, steps, w);
    }
  }

  lemma {:induction false} WritersStay(s0: State, steps: seq<Step>)
    ensures Run(s0, steps).writers.Keys == s0.writers.Keys
  {
    if steps != [] {
      WritersStay(s0, Front(steps));
      var s := Run(s0, Front(steps));
      if s.writers.Keys != {} {
        var w :| w in s.writers;
        hide Next;
        OneStepKeepsRequest(s, Last(steps), w);
      }
    }
  }

  /** A write that reports success is in the history of its file, with the edit it was asked for; one that is
      not there did nothing. */
  lemma SuccessMeansApplied(s0: State, steps: seq<Step>, w: WriterId)
    requires Initial(s0) && TimelyRun(s0, steps) && w in s0.writers
    ensures w in Run(s0, steps).writers
    ensures var s := Run(s0, steps); var x := s.writers[w];
      && x.req == s0.writers[w].req
      && (x.pc == Done(true) ==> x.effect.Some? && Requested(x.effect.value, x.req) && w in Order(s, x.req.path))
      && (w !in Order(s, x.req.path) ==> x.effect == None)
  {
    ReachableInv(s0, steps);
    EditsAreRequested(s0, steps, w);
    assert WriterInv(Run(s0, steps), w);
  }

  // ---- What the files hold ----

  /** Replayed appends are the old text followed by the entries. */
  lemma {:induction false} ReplayOfAppends(file: Option<string>, order: seq<WriterId>, writers: map<WriterId, Writer>, entries: seq<string>)
    requires |entries| == |order|
    requires forall k :: 0 <= k < |order| ==>
      && order[k] in writers
      && (writers[order[k]].effect.None? ==> entries[k] == "")
      && (writers[order[k]].effect.Some? ==>
            writers[order[k]].effect.value.Appended? && entries[k] == writers[order[k]].effect.value.text)
    ensures var after := Replay(file, order, writers);
      && after.GetOr("") == file.GetOr("") + Concat(entries)
      && (after.None? ==> file.None?) && (file.Some? ==> after.Some?)
  {
    if order != [] {
      ReplayOfAppends(file, Front(order), writers, Front(entries));
    } else {
      assert file.GetOr("") + "" == file.GetOr("");
    }
  }

  /** In every timely run whose writes to a path are all appends, the file is the text it had followed by one entry
      for each writer that wrote, in the order of the lock: a comment with stamp and writer, then the content. */
  lemma AppendsAddUp(s0: State, steps: seq<Step>, path: Path) returns (entries: seq<string>)
    requires Initial(s0) && TimelyRun(s0, steps)
    requires forall w :: w in s0.writers && s0.writers[w].req.path == path ==> s0.writers[w].req.op == Append
    ensures var s := Run(s0, steps); var order := Order(s, path);
      && |entries| == |order|
      && (forall k :: 0 <= k < |order| ==>
            && order[k] in s.writers && order[k] in s0.writers
            && (s.writers[order[k]].effect.None? ==> entries[k] == "")
            && (s.writers[order[k]].effect.Some? ==>
                  var edit, r := s.writers[order[k]].effect.value, s0.writers[order[k]].req;
                  && edit.Appended?
                  && entries[k] == "\n<!-- " + edit.stamp + " written-by: " + r.writtenBy + " -->\n" + r.content + "\n"))
      && File(s, path).GetOr("") == File(s0, path).GetOr("") + Concat(entries)
      && (File(s, path).None? ==> File(s0, path).None?) && (File(s0, path).Some? ==> File(s, path).Some?)
  {
    var s := Run(s0, steps);
    var order := Order(s, path);
    NoUpdateIsLost(s0, steps, path);
    ReachableInv(s0, steps);
    assert PathInv(s0, s, path);
    hide Run, Inv, Initial, TimelyRun, Replay, Legal;
    forall k | 0 <= k < |order|
      ensures order[k] in s.writers && order[k] in s0.writers && s.writers[order[k]].req == s0.writers[order[k]].req
      ensures s.writers[order[k]].effect.Some? ==> s.writers[order[k]].effect.value.Appended?
    {
      assert order[k] in order;
    }
    entries := seq(|order|, k requires 0 <= k < |order| =>
      if s.writers[order[k]].effect.Some? then s.writers[order[k]].effect.value.text else "");
    ReplayOfAppends(File(s0, path), order, s.writers, entries);
  }

  /** In every timely run whose writes to a missing file are all creates, at most one of them writes, and then the file is
      its content with the comment of its writer. */
  lemma CreatedOnce(s0: State, steps: seq<Step>, path: Path)
    requires Initial(s0) && TimelyRun(s0, steps) && path !in s0.files
    requires forall w :: w in s0.writers && s0.writers[w].req.path == path ==> s0.writers[w].req.op == Create
    ensures var s := Run(s0, steps);
      && (path !in s.files ==> forall w :: w in Order(s, path) ==> w in s.writers && s.writers[w].effect == None)
      && (path in s.files ==>
            exists w :: (
              && w in Order(s, path) && w in s0.writers
              && s.files[path] == s0.writers[w].req.content + "\n<!-- written-by: " + s0.writers[w].req.writtenBy + " -->\n"
              && forall v :: v in Order(s, path) && v != w ==> v in s.writers && s.writers[v].effect == None))
  {
    var s := Run(s0, steps);
    var order := Order(s, path);
    NoUpdateIsLost(s0, steps, path);
    hide Run, Inv, Initial, TimelyRun, Replay, Legal;
    forall v | v in order ensures s.writers[v].effect.Some? ==> s.writers[v].effect == Some(Created(CreatedText(s0.writers[v].req))) {
      ReachedPath(s0, steps, path, v);
    }
    ReplayOfCreates(order, s.writers);
  }

  lemma ReachedPath(s0: State, steps: seq<Step>, path: Path, v: WriterId)
    requires Initial(s0) && TimelyRun(s0, steps) && v in Order(Run(s0, steps), path)
    ensures v in Run(s0, steps).writers && Run(s0, steps).writers[v].req.path == path
  {
    ReachableInv(s0, steps);
    assert PathInv(s0, Run(s0, steps), path);
  }

  /** Lawfully replayed creates of a missing file: the first one that wrote made it, and no other wrote. */
  lemma {:induction false} ReplayOfCreates(order: seq<WriterId>, writers: map<WriterId, Writer>)
    requires Legal(None, order, writers)
    requires forall v :: v in order ==> v in writers && (writers[v].effect.Some? ==> writers[v].effect.value.Created?)
    ensures Replay(None, order, writers) == None ==> forall v :: v in order ==> writers[v].effect == None
    ensures Replay(None, order, writers).Some? ==>
      exists w :: (
        && w in order && writers[w].effect == Some(Created(Replay(None, order, writers).value))
        && forall v :: v in order && v != w ==> writers[v].effect == None)
  {
    if order != [] {
      assert order == Front(order) + [Last(order)];
      ReplayOfCreates(Front(order), writers);
    }
  }

  /** A grant keeps others out for five seconds and no longer, and the server may drop it only then. */
  lemma GrantLastsFiveSeconds(s: State, w: WriterId, ms: nat)
    requires w in s.writers && s.writers[w].pc == Idle && !L.Taken(s.locks, s.writers[w].req.path, s.now)
    ensures var path := s.writers[w].req.path;
      var later := Next(Next(s, Acquire(w)), Tick(ms));
      && (L.Taken(later.locks, path, s.now + ms) <==> ms < 5_000)
      && (path in Next(later, Purge(path)).locks <==> ms < 5_000)
  {
  }

  ghost predicate FreshTokens(locks: L.Locks, next: L.Token) {
    && (forall p :: p in locks ==> locks[p].token < next)
    && (forall p, q :: p in locks && q in locks && locks[p].token == locks[q].token ==> p == q)
  }

  lemma StepKeepsTokensFresh(s: State, step: Step)
    requires FreshTokens(s.locks, s.nextToken)
    ensures FreshTokens(Next(s, step).locks, Next(s, step).nextToken)
  {
    hide FileOperation;
  }

  lemma {:induction false} TokensStayFresh(s0: State, steps: seq<Step>)
    requires Initial(s0)
    ensures FreshTokens(Run(s0, steps).locks, Run(s0, steps).nextToken)
  {
    hide Next;
    if steps != [] {
      TokensStayFresh(s0, Front(steps));
      StepKeepsTokensFresh(Run(s0, Front(steps)), Last(steps));
    }
  }

  /** Whatever the writers do, timely or not, the locks of different paths never carry the same token. */
  lemma TokensDiffer(s0: State, steps: seq<Step>, p: Path, q: Path)
    requires Initial(s0)
    ensures var locks := Run(s0, steps).locks;
      p in locks && q in locks && locks[p].token == locks[q].token ==> p == q
  {
    TokensStayFresh(s0, steps);
  }

  // ---- Refused writes ----

  ghost predicate NeverLocked(s: State, w: WriterId) {
    w in s.writers && s.writers[w].effect == None && forall path :: w !in Order(s, path)
  }

  lemma OperationMoves(file: Option<string>, x: Writer, fails: bool, stamp: string)
    ensures FileOperation(file, x, fails, stamp).0 != Idle
  {
    hide ReplaceSection, CreatedText, AppendedText;
  }

  lemma NotBackToIdle(s: State, step: Step, w: WriterId)
    requires w in s.writers
    ensures var s' := Next(s, step);
      w in s'.writers && (s'.writers[w].pc == Idle ==> s.writers[w].pc == Idle && step != Acquire(w))
  {
    if !Global(step) && step.w in s.writers {
      StepLeavesOthers(s, step);
      OwnStep(s, step);
      if step.Io? {
        OperationMoves(File(s, s.writers[step.w].req.path), s.writers[step.w], step.fails, step.stamp);
      }
      if step.Acquire? {
        AcquireMoves(s, step.w);
      }
      hide Next, FileOperation, LeavesOthers;
    }
  }

  lemma AcquireMoves(s: State, w: WriterId)
    requires w in s.writers
    ensures w in Next(s, Acquire(w)).writers && Next(s, Acquire(w)).writers[w].pc != Idle
  {
    hide L.AcquireAt;
  }

  /** Only its own acquire moves a writer that waits, and nothing moves one that is done. */
  lemma WaitingStays(s: State, step: Step, w: WriterId)
    requires w in s.writers && (s.writers[w].pc.Done? || (s.writers[w].pc == Idle && step != Acquire(w)))
    ensures var s' := Next(s, step);
      && w in s'.writers && s'.writers[w] == s.writers[w]
      && forall path :: w in Order(s', path) ==> w in Order(s, path)
  {
    if !Global(step) && step.w in s.writers {
      hide Next, IoStep;
      StepLeavesOthers(s, step);
      OwnStep(s, step);
    }
  }

  lemma {:induction false} IdleWasNeverLocked(s0: State, steps: seq<Step>, w: WriterId)
    requires Initial(s0) && w in s0.writers
    ensures w in Run(s0, steps).writers
    ensures Run(s0, steps).writers[w].pc == Idle ==> NeverLocked(Run(s0, steps), w)
  {
    if steps != [] {
      IdleWasNeverLocked(s0, Front(steps), w);
      var s := Run(s0, Front(steps));
      hide Initial, Next;
      NotBackToIdle(s, Last(steps), w);
      if s.writers[w].pc == Idle && Last(steps) != Acquire(w) {
        WaitingStays(s, Last(steps), w);
      }
    }
  }

  lemma {:induction false} RefusedStaysRefused(s: State, more: seq<Step>, w: WriterId)
    requires NeverLocked(s, w) && s.writers[w].pc == Done(false)
    ensures NeverLocked(Run(s, more), w) && Run(s, more).writers[w].pc == Done(false)
  {
    if more != [] {
      RefusedStaysRefused(s, Front(more), w);
      hide Next;
      WaitingStays(Run(s, Front(more)), Last(more), w);
    }
  }

  lemma {:induction false} RunOn(s0: State, a: seq<Step>, b: seq<Step>)
    ensures Run(s0, a + b) == Run(Run(s0, a), b)
  {
    hide Next;
    if b == [] {
      assert a + b == a;
    } else {
      assert Front(a + b) == a + Front(b);
      RunOn(s0, a, Front(b));
    }
  }

  /** A refused acquire is final and leaves no trace: whatever happens later, the writer reports failure, stands in
      no lock order, has edited nothing, and everything else is as if it had never asked. */
  lemma RefusedChangesNothing(s0: State, steps: seq<Step>, w: WriterId, more: seq<Step>)
    requires Initial(s0) && w in s0.writers
    requires var s := Run(s0, steps); w in s.writers && s.writers[w].pc == Idle && L.Taken(s.locks, s.writers[w].req.path, s.now)
    ensures w in Run(s0, steps).writers
    ensures var s := Run(s0, steps); Run(s0, steps + [Acquire(w)]) == SetWriter(s, w, s.writers[w].(pc := Done(false)))
    ensures var t := Run(s0, steps + [Acquire(w)] + more);
      && w in t.writers && t.writers[w].pc == Done(false) && t.writers[w].effect == None
      && forall path :: w !in Order(t, path)
  {
    assert Front(steps + [Acquire(w)]) == steps;
    IdleWasNeverLocked(s0, steps, w);
    var s, refused := Run(s0, steps), Run(s0, steps + [Acquire(w)]);
    assert refused == Next(s, Acquire(w));
    hide Run, Initial;
    assert forall path :: Order(refused, path) == Order(s, path);
    RunOn(s0, steps + [Acquire(w)], more);
    RefusedStaysRefused(refused, more, w);
  }

  // ---- Why the time limit matters ----

  lemma CreateFindsMissing(s: State, w: WriterId)
    requires w in s.writers && s.writers[w].pc == Idle && s.writers[w].req.op == Create
    requires !L.Taken(s.locks, s.writers[w].req.path, s.now) && s.writers[w].req.path !in s.files
    ensures var x := s.writers[w]; var t := Next(Next(Next(s, Acquire(w)), Record(w)), Io(w, false, ""));
      && t.files == s.files && t.now == s.now && x.req.path in t.locks && t.locks[x.req.path].expiresAt == s.now + LOCK_TTL_MS
      && t.writers == s.writers[w := x.(pc := Missing, token := s.nextToken, expiresAt := s.now + LOCK_TTL_MS)]
  {
    var x, path := s.writers[w], s.writers[w].req.path;
    var granted := x.(pc := Granted, token := s.nextToken, expiresAt := s.now + LOCK_TTL_MS);
    var s1 := Next(s, Acquire(w));
    assert s1.writers == s.writers[w := granted] && s1.files == s.files && s1.now == s.now;
    assert path in s1.locks && s1.locks[path].expiresAt == s.now + LOCK_TTL_MS;
    hide AcquireStep, CreatedText, AppendedText;
    var s2 := Next(s1, Record(w));
    assert s2.writers == s.writers[w := granted.(pc := Locked)] && s2.files == s.files && s2.locks == s1.locks && s2.now == s.now;
    assert Next(s2, Io(w, false, "")) == SetWriter(s2, w, granted.(pc := Missing));
  }

  lemma BothMissing(s: State, v: WriterId, w: WriterId)
    requires v in s.writers && w in s.writers && v != w
    requires s.writers[v].req.path == s.writers[w].req.path
    requires s.writers[v].req.op == s.writers[w].req.op == Create
    requires s.writers[v].pc == s.writers[w].pc == Missing
    ensures var s' := Next(Next(s, Io(v, false, "")), Io(w, false, ""));
      && v in s'.writers && s'.writers[v] == s.writers[v].(pc := Wrote, effect := Some(Created(CreatedText(s.writers[v].req))))
      && w in s'.writers && s'.writers[w] == s.writers[w].(pc := Wrote, effect := Some(Created(CreatedText(s.writers[w].req))))
      && File(s', s.writers[w].req.path) == Some(CreatedText(s.writers[w].req))
  {
    hide CreatedText;
  }

  /** The first create outlives its lock while it is about to write; the second takes the lock. */
  function LateCreate(v: WriterId, w: WriterId): seq<Step> {
    [Acquire(v)] + [Record(v)] + [Io(v, false, "")] + [Tick(LOCK_TTL_MS)]
    + [Acquire(w)] + [Record(w)] + [Io(w, false, "")] + [Io(v, false, "")] + [Io(w, false, "")]
  }

  lemma OneMoreStep(s: State, a: seq<Step>, step: Step)
    ensures Run(s, a + [step]) == Next(Run(s, a), step)
  {
    assert Front(a + [step]) == a;
  }

  lemma ThreeSteps(s: State, a: seq<Step>, x: Step, y: Step, z: Step)
    ensures Run(s, a + [x] + [y] + [z]) == Next(Next(Next(Run(s, a), x), y), z)
  {
    hide Next, Run;
    OneMoreStep(s, a, x);
    OneMoreStep(s, a + [x], y);
    OneMoreStep(s, a + [x] + [y], z);
  }

  /** Two creates of one path from the start: when the first one outlives its lock, both report their text written
      and the text of the first one is gone. This run is not timely. */
  lemma LateCreateOverwrites(s0: State, v: WriterId, w: WriterId)
    requires Initial(s0) && v in s0.writers && w in s0.writers && v != w
    requires s0.writers[v].req.path == s0.writers[w].req.path && s0.writers[w].req.path !in s0.files
    requires s0.writers[v].req.op == s0.writers[w].req.op == Create
    ensures var s := Run(s0, LateCreate(v, w)); var text := CreatedText(s0.writers[w].req);
      && v in s.writers && s.writers[v].pc == Wrote && s.writers[v].effect == Some(Created(CreatedText(s0.writers[v].req)))
      && w in s.writers && s.writers[w].pc == Wrote && s.writers[w].effect == Some(Created(text))
      && File(s, s0.writers[w].req.path) == Some(text)
    ensures !TimelyRun(s0, LateCreate(v, w))
  {
    hide CreatedText, Timely;
    var a: seq<Step> := [Acquire(v)] + [Record(v)] + [Io(v, false, "")];
    var b := a + [Tick(LOCK_TTL_MS)];
    var c := b + [Acquire(w)] + [Record(w)] + [Io(w, false, "")];
    assert [] + [Acquire(v)] == [Acquire(v)] && Run(s0, []) == s0;
    hide Run;
    ThreeSteps(s0, [], Acquire(v), Record(v), Io(v, false, ""));
    CreateFindsMissing(s0, v);
    OneMoreStep(s0, a, Tick(LOCK_TTL_MS));
    var late := Run(s0, b);
    ThreeSteps(s0, b, Acquire(w), Record(w), Io(w, false, ""));
    CreateFindsMissing(late, w);
    OneMoreStep(s0, c, Io(v, false, ""));
    OneMoreStep(s0, c + [Io(v, false, "")], Io(w, false, ""));
    BothMissing(Run(s0, c), v, w);
    NotTimely(s0, LateCreate(v, w), b, v);
  }

  lemma NotTimely(s0: State, steps: seq<Step>, b: seq<Step>, v: WriterId)
    requires b <= steps && v in Run(s0, b).writers && Holds(Run(s0, b).writers[v])
    requires Run(s0, b).now >= Run(s0, b).writers[v].expiresAt
    ensures !TimelyRun(s0, steps)
  {
    assert steps[..|b|] == b;
    hide Run;
    assert !Timely(Run(s0, steps[..|b|]));
  }

  // ---- Paths and files ----

  ghost predicate BothHold(s: State, v: WriterId, w: WriterId) {
    v in s.writers && w in s.writers && Holds(s.writers[v]) && Holds(s.writers[w])
  }

  /** Two writes on paths of the given set that resolve to one file hold their locks at once. */
  ghost predicate Clash(resolve: Path -> string, used: set<Path>, s0: State, steps: seq<Step>, v: WriterId, w: WriterId) {
    var s := Run(s0, steps);
    && Initial(s0) && TimelyRun(s0, steps) && v != w && BothHold(s, v, w)
    && s.writers[v].req.path in used && s.writers[w].req.path in used
    && resolve(s.writers[v].req.path) == resolve(s.writers[w].req.path)
  }

  lemma TwoGrants(s: State, p: Path, q: Path)
    requires p != q && s.locks == map[] && s.now == 0 && s.writers.Keys == {0, 1}
    requires s.writers[0].pc == s.writers[1].pc == Idle && s.writers[0].req.path == p && s.writers[1].req.path == q
    ensures var s1 := Next(s, Acquire(0)); var s2 := Next(s1, Acquire(1));
      && Timely(s) && Timely(s1) && Timely(s2) && BothHold(s2, 0, 1)
      && s2.writers[0].req == s.writers[0].req && s2.writers[1].req == s.writers[1].req
  {
    var s1 := Next(s, Acquire(0));
    assert s1.writers == s.writers[0 := s.writers[0].(pc := Granted, token := s.nextToken, expiresAt := LOCK_TTL_MS)];
    assert q !in s1.locks && s1.now == 0;
    OneGrant(s1, 1);
    hide Next;
  }

  lemma OneGrant(s: State, w: WriterId)
    requires w in s.writers && s.writers[w].pc == Idle && s.writers[w].req.path !in s.locks && s.now == 0
    ensures var s' := Next(s, Acquire(w));
      && s'.now == 0
      && s'.writers == s.writers[w := s.writers[w].(pc := Granted, token := s.nextToken, expiresAt := LOCK_TTL_MS)]
  {
  }

  function TwoWriters(p: Path, q: Path): State {
    var a := Writer(0, Request(p, Create, "", ""), Idle, 0, 0, None);
    var b := Writer(0, Request(q, Create, "", ""), Idle, 0, 0, None);
    State(0, map[], 0, map[], map[], map[0 := a, 1 := b], map[])
  }

  lemma TwoGrantsAreTimely(s0: State, p: Path, q: Path)
    requires p != q && s0 == TwoWriters(p, q)
    ensures var steps := [Acquire(0)] + [Acquire(1)];
      && TimelyRun(s0, steps) && Run(s0, steps) == Next(Next(s0, Acquire(0)), Acquire(1))
  {
    var one: seq<Step> := [Acquire(0)];
    var steps := one + [Acquire(1)];
    assert [] + [Acquire(0)] == one && Run(s0, []) == s0;
    TwoGrants(s0, p, q);
    hide Run, Next, Timely, TwoWriters;
    OneMoreStep(s0, [], Acquire(0));
    OneMoreStep(s0, one, Acquire(1));
    forall k | 0 <= k <= |steps| ensures Timely(Run(s0, steps[..k])) {
      assert steps[..0] == [] && steps[..1] == one && steps[..2] == steps;
    }
  }

  lemma AliasesClash(resolve: Path -> string, used: set<Path>, p: Path, q: Path) returns (s0: State, steps: seq<Step>)
    requires p in used && q in used && p != q && resolve(p) == resolve(q)
    ensures Clash(resolve, used, s0, steps, 0, 1)
  {
    s0, steps := TwoWriters(p, q), [Acquire(0)] + [Acquire(1)];
    assert Initial(s0) && s0.writers[0].req.path == p && s0.writers[1].req.path == q;
    TwoGrants(s0, p, q);
    hide Run, Next, Timely, BothHold, TwoWriters, TimelyRun, Initial;
    TwoGrantsAreTimely(s0, p, q);
  }

  /** The lock key is the path as requested, not the file it resolves to. So writes on a set of paths exclude each
      other per file, in every timely run, exactly when no two of the paths resolve to one file. */
  lemma OneWritePerFileExactly(resolve: Path -> string, used: set<Path>)
    ensures (forall p, q :: p in used && q in used && resolve(p) == resolve(q) ==> p == q)
      <==> forall s0, steps, v, w :: !Clash(resolve, used, s0, steps, v, w)
  {
    if forall p, q :: p in used && q in used && resolve(p) == resolve(q) ==> p == q {
      forall s0, steps, v, w ensures !Clash(resolve, used, s0, steps, v, w) {
        if Clash(resolve, used, s0, steps, v, w) {
          OneWritePerPath(s0, steps, v, w);
        }
      }
    } else {
      var p, q :| p in used && q in used && resolve(p) == resolve(q) && p != q;
      var s0, steps := AliasesClash(resolve, used, p, q);
    }
  }
}
