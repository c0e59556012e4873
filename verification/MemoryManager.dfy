/** The memory manager as the program has it: one object whose writes run from the lock to its release.
    The last lemma ties it to the step system of module MemoryWrites, in which writes interleave. */
module MemoryManager {
  import opened Prelude
  import opened SectionText
  import opened MemoryWrites
  import L = DistributedLock

  /** Whether the first and the second file operation of a write, and the final stat, raise an error. */
  datatype Faults = Faults(first: bool, second: bool, stat: bool)

  /** What a write that has the lock makes of its file, and whether it reports success. */
  function FileAfter(file: Option<string>, r: Request, stamp: string, faults: Faults): (Option<string>, bool) {
    match r.op
    case Create =>
      if faults.first || file.Some? || faults.second then (file, false)
      else (Some(CreatedText(r)), !faults.stat)
    case Append =>
      if faults.first then (file, false)
      else (Some(file.GetOr("") + AppendedText(r, stamp)), !faults.stat)
    case UpdateSection(section) =>
      if section == "" || faults.first || file.None? || faults.second then (file, false)
      else (Some(ReplaceSection(file.value, section, r.content, stamp, r.writtenBy)), !faults.stat)
  }

  function LockKey(path: Path): string {
    "lock:" + path
  }

  lemma LockFreed(locks: L.Locks, key: string, token: L.Token, expiresAt: int)
    ensures L.ReleaseAt(locks[key := L.Held(token, expiresAt)], key, token) == locks - {key}
  {
  }

  lemma TokenForgotten(tokens: map<Path, L.Token>, path: Path, token: L.Token)
    ensures tokens[path := token] - {path} == tokens - {path}
  {
  }

  class Manager {
    const locks: L.InMemoryDistributedLock
    var lockTokens: map<Path, L.Token>
    var files: map<Path, string>

    constructor (locks: L.InMemoryDistributedLock)
      ensures this.locks == locks && lockTokens == map[] && files == map[]
    {
      this.locks := locks;
      lockTokens, files := map[], map[];
    }

    method AcquireLock(path: Path, now: int, drawn: L.Token) returns (ok: bool)
      modifies this`lockTokens, locks
      ensures ok == !L.Taken(old(locks.locks), LockKey(path), now)
      ensures ok ==> lockTokens == old(lockTokens)[path := drawn]
      ensures ok ==> locks.locks == old(locks.locks)[LockKey(path) := L.Held(drawn, now + LOCK_TTL_MS)]
      ensures !ok ==> lockTokens == old(lockTokens) && locks.locks == old(locks.locks)
    {
      var token := locks.Acquire(LockKey(path), LOCK_TTL_MS, now, drawn);
      if token.None? {
        return false;
      }
      lockTokens := lockTokens[path := token.value];
      ok := true;
    }

    method ReleaseLock(path: Path)
      modifies this`lockTokens, locks
      ensures lockTokens == old(lockTokens) - {path}
      ensures locks.locks ==
        if path in old(lockTokens) then L.ReleaseAt(old(locks.locks), LockKey(path), old(lockTokens)[path]) else old(locks.locks)
    {
      if path in lockTokens {
        locks.Release(LockKey(path), lockTokens[path]);
        lockTokens := lockTokens - {path};
      }
    }

    method CreateFile(r: Request, faults: Faults) returns (ok: bool)
      modifies this`files
      ensures ok == (r.path !in old(files) && !faults.first && !faults.second)
      ensures files == if ok then old(files)[r.path := CreatedText(r)] else old(files)
    {
      if faults.first || r.path in files || faults.second {
        return false;
      }
      files := files[r.path := r.content + "\n<!-- written-by: " + r.writtenBy + " -->\n"];
      ok := true;
    }

    method AppendToFile(r: Request, stamp: string, faults: Faults) returns (ok: bool)
      modifies this`files
      ensures ok == !faults.first
      ensures files ==
        if ok then
          old(files)[r.path := (if r.path in old(files) then old(files)[r.path] else "") + AppendedText(r, stamp)]
        else old(files)
    {
      if faults.first {
        return false;
      }
      var entry := "\n<!-- " + stamp + " written-by: " + r.writtenBy + " -->\n" + r.content + "\n";
      var before := if r.path in files then files[r.path] else "";
      files := files[r.path := before + entry];
      ok := true;
    }

    method UpdateSection(r: Request, section: string, stamp: string, faults: Faults) returns (ok: bool)
      modifies this`files
      ensures ok == (section != "" && r.path in old(files) && !faults.first && !faults.second)
      ensures files ==
        if ok then old(files)[r.path := ReplaceSection(old(files)[r.path], section, r.content, stamp, r.writtenBy)]
        else old(files)
    {
      if section == "" || faults.first || r.path !in files {
        return false;
      }
      var raw := files[r.path];
      var updated := ReplaceSection(raw, section, r.content, stamp, r.writtenBy);
      if faults.second {
        return false;
      }
      files := files[r.path := updated];
      ok := true;
    }

    /** A locked file is refused and nothing changes; otherwise the file becomes what its operation makes of
        it, every other file stays, and afterwards the lock of the path is free whatever went wrong. */
    method Write(r: Request, now: int, drawn: L.Token, stamp: string, faults: Faults) returns (success: bool)
      modifies this, locks
      ensures L.Taken(old(locks.locks), LockKey(r.path), now) ==>
        !success && files == old(files) && lockTokens == old(lockTokens) && locks.locks == old(locks.locks)
      ensures !L.Taken(old(locks.locks), LockKey(r.path), now) ==>
        && (if r.path in files then Some(files[r.path]) else None, success)
          == FileAfter(if r.path in old(files) then Some(old(files)[r.path]) else None, r, stamp, faults)
        && files - {r.path} == old(files) - {r.path}
        && locks.locks == old(locks.locks) - {LockKey(r.path)} && lockTokens == old(lockTokens) - {r.path}
    {
      hide ReplaceSection, CreatedText, AppendedText, L.Taken, L.ReleaseAt;
      LockFreed(locks.locks, LockKey(r.path), drawn, now + LOCK_TTL_MS);
      TokenForgotten(lockTokens, r.path, drawn);
      var locked := AcquireLock(r.path, now, drawn);
      if !locked {
        return false;
      }
      match r.op {
        case Create => success := CreateFile(r, faults);
        case Append => success := AppendToFile(r, stamp, faults);
        case UpdateSection(section) => success := UpdateSection(r, section, stamp, faults);
      }
      if success && faults.stat {
        success := false;
      }
      ReleaseLock(r.path);
    }
  }

  /** The locks of different paths are different. */
  lemma LockKeyIsInjective(p: Path, q: Path)
    requires LockKey(p) == LockKey(q)
    ensures p == q
  {
    assert LockKey(p)[5..] == p && LockKey(q)[5..] == q;
  }

  /** A successful write leaves exactly this text. */
  lemma WrittenText(file: Option<string>, r: Request, stamp: string, faults: Faults)
    requires FileAfter(file, r, stamp, faults).1
    ensures r.op == Create ==>
      && file == None
      && FileAfter(file, r, stamp, faults).0 == Some(r.content + "\n<!-- written-by: " + r.writtenBy + " -->\n")
    ensures r.op == Append ==>
      FileAfter(file, r, stamp, faults).0 ==
        Some((if file.Some? then file.value else "") +
             ("\n<!-- " + stamp + " written-by: " + r.writtenBy + " -->\n" + r.content + "\n"))
    ensures r.op.UpdateSection? ==>
      && file.Some? && r.op.section != ""
      && FileAfter(file, r, stamp, faults).0 == Some(ReplaceSection(file.value, r.op.section, r.content, stamp, r.writtenBy))
  {
    hide ReplaceSection;
  }

  /** The steps of one write with nothing in between; a step that does not apply is skipped. */
  function WriteSteps(w: WriterId, stamp: string, faults: Faults): seq<Step> {
    [Acquire(w)] + [Record(w)] + [Io(w, faults.first, stamp)] + [Io(w, faults.second, stamp)] + [Stat(w, faults.stat)]
    + [MemoryWrites.ReleaseLock(w)] + [Forget(w)]
  }

  function LockNext(s: State, w: WriterId): State {
    Next(Next(s, Acquire(w)), Record(w))
  }

  function EditNext(s: State, w: WriterId, stamp: string, faults: Faults): State {
    Next(Next(Next(s, Io(w, faults.first, stamp)), Io(w, faults.second, stamp)), Stat(w, faults.stat))
  }

  function CloseNext(s: State, w: WriterId): State {
    Next(Next(s, MemoryWrites.ReleaseLock(w)), Forget(w))
  }

  lemma OneStep(s: State, a: seq<Step>, b: Step)
    ensures Run(s, a + [b]) == Next(Run(s, a), b)
  {
    assert Front(a + [b]) == a;
  }

  lemma RunsThrough(s: State, w: WriterId, stamp: string, faults: Faults)
    ensures Run(s, WriteSteps(w, stamp, faults)) == CloseNext(EditNext(LockNext(s, w), w, stamp, faults), w)
  {
    assert Run(s, []) == s;
    hide Next, Run;
    var a := [Acquire(w)];
    assert [] + a == a;
    var b := a + [Record(w)];
    var c := b + [Io(w, faults.first, stamp)];
    var d := c + [Io(w, faults.second, stamp)];
    var e := d + [Stat(w, faults.stat)];
    var f := e + [MemoryWrites.ReleaseLock(w)];
    OneStep(s, [], Acquire(w));
    OneStep(s, a, Record(w));
    OneStep(s, b, Io(w, faults.first, stamp));
    OneStep(s, c, Io(w, faults.second, stamp));
    OneStep(s, d, Stat(w, faults.stat));
    OneStep(s, e, MemoryWrites.ReleaseLock(w));
    OneStep(s, f, Forget(w));
  }

  function KeyOf(s: State, w: WriterId): (ManagerId, Path)
    requires w in s.writers
  {
    (s.writers[w].manager, s.writers[w].req.path)
  }

  lemma GrantedState(s: State, w: WriterId)
    requires w in s.writers && s.writers[w].pc == Idle && !L.Taken(s.locks, s.writers[w].req.path, s.now)
    ensures var t := LockNext(s, w); var x := s.writers[w];
      && t.files == s.files && w in t.writers && t.writers[w].pc == Locked
      && t.writers[w].req == x.req && t.writers[w].manager == x.manager
      && t.locks == s.locks[x.req.path := L.Held(s.nextToken, s.now + LOCK_TTL_MS)]
      && t.lockTokens == s.lockTokens[KeyOf(s, w) := s.nextToken]
  {
  }

  /** The writer's request, the locks and the files of other paths are the same. */
  predicate SameWrite(s: State, t: State, w: WriterId) {
    && w in s.writers && w in t.writers
    && t.writers[w].req == s.writers[w].req && t.writers[w].manager == s.writers[w].manager
    && t.locks == s.locks && t.lockTokens == s.lockTokens
    && t.files - {s.writers[w].req.path} == s.files - {s.writers[w].req.path}
  }

  ghost predicate Edited(s: State, t: State, w: WriterId, stamp: string, faults: Faults)
    requires w in s.writers
  {
    var (file, ok) := FileAfter(File(s, s.writers[w].req.path), s.writers[w].req, stamp, faults);
    && SameWrite(s, t, w)
    && File(t, s.writers[w].req.path) == file && t.writers[w].pc == if ok then Wrote else Closing(false)
  }

  lemma CreateOperations(s: State, w: WriterId, stamp: string, faults: Faults)
    requires w in s.writers && s.writers[w].pc == Locked && s.writers[w].req.op.Create? && !faults.stat
    ensures Edited(s, Next(Next(s, Io(w, faults.first, stamp)), Io(w, faults.second, stamp)), w, stamp, faults)
  {
    hide CreatedText;
    var x := s.writers[w];
    assert Next(s, Io(w, faults.first, stamp))
        == SetWriter(s, w, x.(pc := if faults.first || x.req.path in s.files then Closing(false) else Missing));
  }

  lemma AppendOperations(s: State, w: WriterId, stamp: string, faults: Faults)
    requires w in s.writers && s.writers[w].pc == Locked && s.writers[w].req.op.Append? && !faults.stat
    ensures Edited(s, Next(Next(s, Io(w, faults.first, stamp)), Io(w, faults.second, stamp)), w, stamp, faults)
  {
    hide AppendedText;
  }

  lemma UpdateOperations(s: State, w: WriterId, stamp: string, faults: Faults)
    requires w in s.writers && s.writers[w].pc == Locked && s.writers[w].req.op.UpdateSection? && !faults.stat
    ensures Edited(s, Next(Next(s, Io(w, faults.first, stamp)), Io(w, faults.second, stamp)), w, stamp, faults)
  {
    hide ReplaceSection;
    var x := s.writers[w];
    var t := Next(s, Io(w, faults.first, stamp));
    if x.req.op.section != "" && !faults.first && x.req.path in s.files {
      assert t == SetWriter(s, w, x.(pc := HasRead(s.files[x.req.path])));
    } else {
      assert t == SetWriter(s, w, x.(pc := Closing(false)));
    }
  }

  lemma FileOperations(s: State, w: WriterId, stamp: string, faults: Faults)
    requires w in s.writers && s.writers[w].pc == Locked && !faults.stat
    ensures Edited(s, Next(Next(s, Io(w, faults.first, stamp)), Io(w, faults.second, stamp)), w, stamp, faults)
  {
    hide Next, Edited;
    match s.writers[w].req.op
    case Create => CreateOperations(s, w, stamp, faults);
    case Append => AppendOperations(s, w, stamp, faults);
    case UpdateSection(_) => UpdateOperations(s, w, stamp, faults);
  }

  lemma Statted(s: State, w: WriterId, fails: bool)
    requires w in s.writers && (s.writers[w].pc == Wrote || s.writers[w].pc == Closing(false))
    ensures var t := Next(s, Stat(w, fails));
      SameWrite(s, t, w) && t.files == s.files && t.writers[w].pc == Closing(s.writers[w].pc == Wrote && !fails)
  {
  }

  lemma EditedState(s: State, w: WriterId, stamp: string, faults: Faults)
    requires w in s.writers && s.writers[w].pc == Locked
    ensures var x := s.writers[w];
      var t := EditNext(s, w, stamp, faults);
      var (file, ok) := FileAfter(File(s, x.req.path), x.req, stamp, faults);
      SameWrite(s, t, w) && File(t, x.req.path) == file && t.writers[w].pc == Closing(ok)
  {
    hide Next, ReplaceSection, CreatedText, AppendedText;
    FileOperations(s, w, stamp, faults.(stat := false));
    Statted(Next(Next(s, Io(w, faults.first, stamp)), Io(w, faults.second, stamp)), w, faults.stat);
  }

  lemma ClosedState(s: State, w: WriterId)
    requires w in s.writers && s.writers[w].pc.Closing? && KeyOf(s, w) in s.lockTokens
    requires s.writers[w].req.path in s.locks && s.locks[s.writers[w].req.path].token == s.lockTokens[KeyOf(s, w)]
    ensures var t := CloseNext(s, w);
      && t.files == s.files && w in t.writers && t.writers[w].pc == Done(s.writers[w].pc == Closing(true))
      && t.locks == s.locks - {s.writers[w].req.path} && t.lockTokens == s.lockTokens - {KeyOf(s, w)}
  {
  }

  /** A write with nothing in between does in the step system what the method does: to the file, to the other files,
      to the locks, to the recorded tokens, and in what it reports. */
  lemma WriteIsARun(s: State, w: WriterId, stamp: string, faults: Faults)
    requires w in s.writers && s.writers[w].pc == Idle && !L.Taken(s.locks, s.writers[w].req.path, s.now)
    ensures var t := Run(s, WriteSteps(w, stamp, faults)); var r := s.writers[w].req;
      var (file, success) := FileAfter(File(s, r.path), r, stamp, faults);
      && w in t.writers && File(t, r.path) == file && t.writers[w].pc == Done(success)
      && t.files - {r.path} == s.files - {r.path}
      && t.locks == s.locks - {r.path} && t.lockTokens == s.lockTokens - {KeyOf(s, w)}
  {
    hide Run, LockNext, EditNext, CloseNext, FileAfter;
    RunsThrough(s, w, stamp, faults);
    GrantedState(s, w);
    var locked := LockNext(s, w);
    EditedState(locked, w, stamp, faults);
    var edited := EditNext(locked, w, stamp, faults);
    ClosedState(edited, w);
    assert edited.locks - {s.writers[w].req.path} == s.locks - {s.writers[w].req.path};
    assert edited.lockTokens - {KeyOf(s, w)} == s.lockTokens - {KeyOf(s, w)};
  }

  /** A refused write does nothing in either. */
  lemma RefusedWriteIsARun(s: State, w: WriterId, stamp: string, faults: Faults)
    requires w in s.writers && s.writers[w].pc == Idle && L.Taken(s.locks, s.writers[w].req.path, s.now)
    ensures Run(s, WriteSteps(w, stamp, faults)) == SetWriter(s, w, s.writers[w].(pc := Done(false)))
  {
    var refused := SetWriter(s, w, s.writers[w].(pc := Done(false)));
    assert Next(s, Acquire(w)) == refused;
    RunsThrough(s, w, stamp, faults);
    hide Run;
    forall step: Step | !Global(step) && step.w == w ensures Next(refused, step) == refused {
      OwnStep(refused, step);
    }
    hide Next;
  }
}
