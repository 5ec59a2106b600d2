/** Single calls and whole runs of Projeto1's file system. */
module Runs {
  import opened Base
  import opened Layout
  import opened Tables
  import opened Directory
  import opened Invariants
  import opened Effects
  import opened Operations
  import opened Simulation
  import FS = FileSystem

  function Plain(r: Outcome<(State, int)>): Outcome<(State, FS.Reply)> {
    var v :- r;
    Ok((v.0, FS.Reply(v.1, [])))
  }

  /** One call. */
  function Step(s: State, op: FS.Op): (r: Outcome<(State, FS.Reply)>)
    requires Shape(s) && FS.WellFormed(op)
    ensures r.Ok? ==> SameShape(s, r.value.0)
  {
    match op
    case OpenOp(path, mode) => Plain(Open(s, path, mode))
    case CloseOp(h) => Plain(Ok(Close(s, h)))
    case WriteOp(h, buffer) => Plain(Write(s, h, buffer))
    case ReadOp(h, len) => var r :- Read(s, h, len); Ok((r.0, FS.Reply(r.1, r.2)))
    case LinkOp(target, link) => Plain(Link(s, target, link))
    case SymLinkOp(target, link) => Plain(SymLink(s, target, link))
    case UnlinkOp(path) => Plain(Unlink(s, path))
  }

  // ---------- the handle invariant, call by call ----------

  ghost predicate HandlesOn(s: State, n: int, ok: Handle -> bool)
    requires Shape(s)
  {
    forall h :: ValidHandle(s, h) && s.handles[h].inum == n ==> ok(s.handles[h])
  }

  lemma PutHandles(s: State, c: Change)
    requires Applies(s, c) && HandlesOk(s)
    ensures HandlesOk(Put(s, c)) <==> HandlesOn(s, c.n, (h: Handle) => c.taken && h.offset <= c.node.size)
  {
  }

  lemma AddHandleKeeps(s: State, n: int, offset: SizeT)
    requires Shape(s) && HandlesOk(s) && 1 <= n < |s.inodes| && s.inodeBits[n] && offset <= s.inodes[n].size
    ensures HandlesOk(AddHandle(s, n, offset).0)
  {
  }

  lemma DeadInodeKeeps(s: State, n: nat, node: Inode)
    requires Shape(s) && HandlesOk(s) && n < |s.inodes| && !s.inodeBits[n]
    ensures HandlesOk(s.(inodes := s.inodes[n := node]))
  {
  }

  lemma BindHandles(s: State, n: nat, node: Inode, name: CString)
    requires CanBind(s, n, node, name) && HandlesOk(s)
    ensures HandlesOk(Put(s, BindChange(s, n, node, name)))
  {
  }

  lemma CreateFileHandles(s: State, path: CString)
    requires Inv(s) && |path| > 0 && CreateFile(s, 0, path).Ok?
    ensures HandlesOk(CreateFile(s, 0, path).value.0)
  {
    NewFileAgrees(s);
    var n := First(s.inodeBits, IsFree, 0);
    if n != -1 {
      var node := NewNode(s, n, TFile);
      if HasRoom(RootDir(s), path[1..]) {
        CreateFileUnfolds(s, path, n);
        BindHandles(s, n, node, path[1..]);
        AddHandleKeeps(Put(s, BindChange(s, n, node, path[1..])), n, 0);
      } else {
        CreateFileFails(s, path, n);
        DeadInodeKeeps(s, n, node);
      }
    }
  }

  lemma SymLinkHandles(s: State, target: CString, link: CString)
    requires Inv(s) && |link| > 0 && SymLink(s, target, link).Ok?
    ensures HandlesOk(SymLink(s, target, link).value.0)
  {
    NewFileAgrees(s);
    var n := First(s.inodeBits, IsFree, 0);
    if FS.Bound(Abs(s), target) && n != -1 {
      LookupAgrees(s, target);
      BoundFacts(s, target);
      SymLinkUnfolds(s, target, link, n);
      if HasRoom(RootDir(s), link[1..]) {
        BindHandles(s, n, LinkNode(s, n, target), link[1..]);
      } else {
        DeadInodeKeeps(s, n, LinkNode(s, n, target));
      }
    } else {
      SymLinkTrivial(s, target, link);
    }
  }

  lemma LinkHandles(s: State, target: CString, link: CString)
    requires Inv(s) && |link| > 0 && Link(s, target, link).Ok?
    ensures HandlesOk(Link(s, target, link).value.0)
  {
    LookupAgrees(s, target);
    if FS.Bound(Abs(s), target) {
      BoundFacts(s, target);
      var n := FS.Target(Abs(s), target);
      LinkUnfolds(s, target, link, n);
      if Linkable(s, n) && HasRoom(RootDir(s), link[1..]) {
        PutHandles(s, LinkChange(s, n, link[1..]));
      }
    } else {
      LinkUnfolds(s, target, link, -1);
    }
  }

  /** The inode goes and no handle is on it. */
  ghost predicate SafeRemoval(s: State, n: int)
    requires Shape(s) && 0 <= n < |s.inodes|
  {
    s.inodes[n].links == 1 ==> HandlesOn(s, n, h => false)
  }

  lemma UnlinkHandles(s: State, path: CString)
    requires Inv(s) && Unlink(s, path).Ok?
    ensures !FS.Bound(Abs(s), path) ==> HandlesOk(Unlink(s, path).value.0)
    ensures FS.Bound(Abs(s), path) ==>
              var n := FS.Target(Abs(s), path);
              0 <= n < |s.inodes| && (HandlesOk(Unlink(s, path).value.0) <==> SafeRemoval(s, n))
  {
    if FS.Bound(Abs(s), path) {
      BoundHasBytes(s, path);
      UnlinkBound(s, path);
      var n, k := FS.Target(Abs(s), path), First(RootDir(s), Matches(path[1..]), 0);
      PutHandles(s, RemoveChange(s, n, k, OneLinkLess(s, n)));
    } else {
      UnlinkUnbound(s, path);
    }
  }

  // ---------- single calls ----------

  /** What a caller must respect for the invariants to survive, in the tables' terms. */
  ghost predicate SafeCall(s: State, op: FS.Op)
    requires Inv(s) && FS.Coherent(Abs(s))
  {
    match op
    case OpenOp(path, mode) => FS.SafeOpen(Abs(s), path, mode)
    case UnlinkOp(path) =>
      FS.Bound(Abs(s), path) ==> (BoundFacts(s, path); SafeRemoval(s, FS.Target(Abs(s), path)))
    case _ => true
  }

  /** The call unlinks a soft link. */
  ghost predicate UnlinksLink(s: State, op: FS.Op)
    requires RootOk(s)
  {
    op.UnlinkOp? && FS.Bound(Abs(s), op.path) && 0 <= FS.Target(Abs(s), op.path) < |s.inodes|
    && s.inodes[FS.Target(Abs(s), op.path)].kind.TSoftLink?
  }

  lemma OpenStep(s: State, path: CString, mode: Mode)
    requires Inv(s) && FS.Coherent(Abs(s))
    ensures var r := Open(s, path, mode);
            r.Ok? && TablesOk(r.value.0) && (HandlesOk(r.value.0) <==> FS.SafeOpen(Abs(s), path, mode))
  {
    if FS.Bound(Abs(s), path) {
      BoundFacts(s, path);
      OpenBoundAbs(s, path, mode);
      FS.OpenCoherence(Abs(s), path, mode);
      InvIsCoherent(Open(s, path, mode).value.0);
    } else {
      OpenUnboundIs(s, path, mode);
      if ValidPath(path) && mode.creat {
        CreateFileOk(s, path);
        CreateFileHandles(s, path);
      }
    }
  }

  lemma WriteStep(s: State, h: int, buffer: seq<Byte>)
    requires Inv(s) && FS.Coherent(Abs(s))
    ensures Shows(Write(s, h, buffer), FS.Write(Abs(s), h, buffer))
    ensures Inv(Write(s, h, buffer).value.0) && RootDir(Write(s, h, buffer).value.0) == RootDir(s)
  {
    HandleIsOpen(s, h);
    if ValidHandle(s, h) {
      WriteTakenAbs(s, h, buffer);
      FS.WriteCoherence(Abs(s), h, buffer);
      InvIsCoherent(Write(s, h, buffer).value.0);
    }
  }

  lemma ReadStep(s: State, h: int, len: SizeT)
    requires Inv(s) && FS.Coherent(Abs(s))
    ensures var r, f := Read(s, h, len), FS.Read(Abs(s), h, len);
            && r.Ok? && Inv(r.value.0) && RootDir(r.value.0) == RootDir(s)
            && Abs(r.value.0) == f.0 && FS.Reply(r.value.1, r.value.2) == f.1
  {
    HandleIsOpen(s, h);
    if ValidHandle(s, h) {
      ReadTakenAbs(s, h, len);
      FS.HandleCoherence(Abs(s), h, len);
      InvIsCoherent(Read(s, h, len).value.0);
    }
  }

  lemma CloseStep(s: State, h: int)
    requires Inv(s)
    ensures Shows(Ok(Close(s, h)), FS.Close(Abs(s), h))
    ensures Inv(Close(s, h).0) && RootDir(Close(s, h).0) == RootDir(s)
  {
    CloseAbs(s, h);
  }

  /** What NoPanic and InvIffSafe say of an outcome. */
  ghost predicate Survives(s: State, op: FS.Op, r: Outcome<(State, FS.Reply)>)
    requires Inv(s) && FS.Coherent(Abs(s))
  {
    && (r.Abort? <==> UnlinksLink(s, op))
    && (r.Ok? ==> Shape(r.value.0) && TablesOk(r.value.0) && (Inv(r.value.0) <==> SafeCall(s, op)))
  }

  lemma OpenSurvives(s: State, path: CString, mode: Mode)
    requires Inv(s) && FS.Coherent(Abs(s))
    ensures Survives(s, FS.OpenOp(path, mode), Step(s, FS.OpenOp(path, mode)))
  {
    OpenStep(s, path, mode);
  }

  lemma UnlinkAbortsOnLinks(s: State, path: CString)
    requires TablesOk(s)
    ensures Unlink(s, path).Abort? <==> UnlinksLink(s, FS.UnlinkOp(path))
  {
    UnlinkAborts(s, path);
    if FS.Bound(Abs(s), path) {
      BoundFacts(s, path);
    }
  }

  lemma UnlinkHandlesSafe(s: State, path: CString)
    requires Inv(s) && FS.Coherent(Abs(s)) && Unlink(s, path).Ok?
    ensures HandlesOk(Unlink(s, path).value.0) <==> SafeCall(s, FS.UnlinkOp(path))
  {
    UnlinkHandles(s, path);
  }

  lemma UnlinkSurvives(s: State, path: CString)
    requires Inv(s) && FS.Coherent(Abs(s))
    ensures Survives(s, FS.UnlinkOp(path), Step(s, FS.UnlinkOp(path)))
  {
    UnlinkAborts(s, path);
    UnlinkAbortsOnLinks(s, path);
    if Unlink(s, path).Ok? {
      UnlinkHandlesSafe(s, path);
    }
  }

  lemma LinksSurvive(s: State, op: FS.Op)
    requires Inv(s) && FS.Coherent(Abs(s)) && FS.WellFormed(op) && (op.LinkOp? || op.SymLinkOp?)
    ensures Survives(s, op, Step(s, op))
  {
    match op
    case LinkOp(target, link) => LinkKeepsOk(s, target, link); LinkHandles(s, target, link);
    case SymLinkOp(target, link) => SymLinkOk(s, target, link); SymLinkHandles(s, target, link);
  }

  lemma HandlesSurvive(s: State, op: FS.Op)
    requires Inv(s) && FS.Coherent(Abs(s)) && (op.CloseOp? || op.WriteOp? || op.ReadOp?)
    ensures Survives(s, op, Step(s, op))
  {
    match op
    case CloseOp(h) => CloseStep(s, h);
    case WriteOp(h, buffer) => WriteStep(s, h, buffer);
    case ReadOp(h, len) => ReadStep(s, h, len);
  }

  lemma CallSurvives(s: State, op: FS.Op)
    requires Inv(s) && FS.Coherent(Abs(s)) && FS.WellFormed(op)
    ensures Survives(s, op, Step(s, op))
  {
    match op
    case OpenOp(path, mode) => OpenSurvives(s, path, mode);
    case UnlinkOp(path) => UnlinkSurvives(s, path);
    case LinkOp(_, _) => LinksSurvive(s, op);
    case SymLinkOp(_, _) => LinksSurvive(s, op);
    case _ => HandlesSurvive(s, op);
  }

  /** No assertion fails and no copy leaves its block, except that unlinking a soft link aborts. */
  lemma NoPanic(s: State, op: FS.Op)
    requires Inv(s) && FS.WellFormed(op)
    ensures Step(s, op).Abort? <==> UnlinksLink(s, op)
  {
    InvIsCoherent(s);
    CallSurvives(s, op);
  }

  /** Every call keeps the tables in agreement, and the handles too exactly when it is safe. */
  lemma InvIffSafe(s: State, op: FS.Op)
    requires Inv(s) && FS.WellFormed(op) && Step(s, op).Ok?
    ensures TablesOk(Step(s, op).value.0) && FS.Coherent(Abs(s))
    ensures Inv(Step(s, op).value.0) <==> SafeCall(s, op)
  {
    InvIsCoherent(s);
    CallSurvives(s, op);
  }

  /** With distinct names, safety can be read off the file system the client sees. */
  lemma SafeCallAgrees(s: State, op: FS.Op)
    requires Inv(s) && Distinct(RootDir(s)) && FS.Coherent(Abs(s))
    ensures SafeCall(s, op) <==> FS.Safe(Abs(s), op)
  {
    if op.UnlinkOp? && FS.Bound(Abs(s), op.path) {
      BoundFacts(s, op.path);
      LastNameIsOneLink(s, First(RootDir(s), Matches(op.path[1..]), 0));
      SafeRemovalAgrees(s, FS.Target(Abs(s), op.path));
    }
  }

  lemma SafeRemovalAgrees(s: State, n: int)
    requires RootOk(s)
    ensures HandlesOn(s, n, h => false) <==> FS.NoneOpen(Abs(s), n)
  {
    if FS.NoneOpen(Abs(s), n) {
      forall h | ValidHandle(s, h) ensures s.handles[h].inum != n {
        assert h in Abs(s).open;
      }
    }
  }

  /** One call on the tables is one call on the file system the client sees. */
  ghost predicate StepShows(r: Outcome<(State, FS.Reply)>, f: Outcome<(FS.Fs, FS.Reply)>) {
    && (r.Abort? <==> f.Abort?)
    && (r.Ok? ==> && TablesOk(r.value.0) && Distinct(RootDir(r.value.0))
                  && Abs(r.value.0) == f.value.0 && r.value.1 == f.value.1)
  }

  lemma StepSimulates(s: State, op: FS.Op)
    requires Inv(s) && Distinct(RootDir(s)) && FS.WellFormed(op) && FS.Fresh(Abs(s), op)
    ensures FS.Coherent(Abs(s)) && StepShows(Step(s, op), FS.Step(Abs(s), op))
  {
    InvIsCoherent(s);
    match op
    case OpenOp(path, mode) => OpenAbs(s, path, mode);
    case CloseOp(h) => CloseStep(s, h);
    case WriteOp(h, buffer) => WriteStep(s, h, buffer);
    case ReadOp(h, len) => ReadStep(s, h, len);
    case LinkOp(target, link) => LinkShows(s, target, link);
    case SymLinkOp(target, link) => SymLinkAbs(s, target, link);
    case UnlinkOp(path) => UnlinkAbs(s, path);
  }

  // ---------- whole runs ----------

  function Run(s: State, ops: seq<FS.Call>): (r: Outcome<(State, seq<FS.Reply>)>)
    requires Shape(s)
    ensures r.Ok? ==> SameShape(s, r.value.0)
    decreases |ops|
  {
    if ops == [] then Ok((s, []))
    else
      var (next, reply) :- Step(s, ops[0]);
      var (last, replies) :- Run(next, ops[1..]);
      Ok((last, [reply] + replies))
  }

  lemma RunCons(s: State, op: FS.Call, ops: seq<FS.Call>)
    requires Shape(s) && Step(s, op).Ok? && Run(Step(s, op).value.0, ops).Ok?
    ensures var (next, reply) := Step(s, op).value;
            var (last, replies) := Run(next, ops).value;
            Run(s, [op] + ops) == Ok((last, [reply] + replies))
  {
    assert ([op] + ops)[1..] == ops;
  }

  /** One run after another is one run. */
  lemma {:induction false} RunThen(s: State, first: seq<FS.Call>, second: seq<FS.Call>)
    requires Shape(s) && Run(s, first).Ok?
    ensures var (mid, replies) := Run(s, first).value;
            var r := Run(mid, second);
            Run(s, first + second) == if r.Ok? then Ok((r.value.0, replies + r.value.1)) else Abort
    decreases |first|
  {
    var (mid, replies) := Run(s, first).value;
    if first == [] {
      assert first + second == second;
      assert Run(mid, second).Ok? ==> replies + Run(mid, second).value.1 == Run(mid, second).value.1;
    } else {
      var (next, reply) := Step(s, first[0]).value;
      RunThen(next, first[1..], second);
      TailOfSum(first, second);
      if Run(mid, second).Ok? {
        TailOfSum(replies, Run(mid, second).value.1);
      }
    }
  }

  /** Every call of the run is safe where it is made. */
  ghost predicate SafeRun(s: State, ops: seq<FS.Call>)
    requires Inv(s)
    decreases |ops|
  {
    ops == [] ||
    (InvIsCoherent(s);
     SafeCall(s, ops[0]) &&
     (Step(s, ops[0]).Ok? ==> (InvIffSafe(s, ops[0]); SafeRun(Step(s, ops[0]).value.0, ops[1..]))))
  }

  lemma RunPrefix(s: State, ops: seq<FS.Call>, k: nat)
    requires Shape(s) && 1 <= k <= |ops| && Step(s, ops[0]).Ok?
    ensures var before, after := Run(s, ops[..k]), Run(Step(s, ops[0]).value.0, ops[1..][..k - 1]);
            && (before.Ok? <==> after.Ok?) && (before.Ok? ==> before.value.0 == after.value.0)
  {
    assert ops[..k][0] == ops[0] && ops[..k][1..] == ops[1..][..k - 1];
  }

  /** The run finishes, and the tables are good before it and after each of its calls. */
  ghost predicate Throughout(s: State, ops: seq<FS.Call>, good: State -> bool)
    requires Shape(s)
  {
    forall k :: 0 <= k <= |ops| ==> Run(s, ops[..k]).Ok? && good(Run(s, ops[..k]).value.0)
  }

  lemma ThroughoutFirst(s: State, ops: seq<FS.Call>, good: State -> bool)
    requires Shape(s) && ops != [] && Step(s, ops[0]).Ok?
    ensures Throughout(s, ops, good) <==> good(s) && Throughout(Step(s, ops[0]).value.0, ops[1..], good)
  {
    var next, rest := Step(s, ops[0]).value.0, ops[1..];
    assert ops[..0] == [];
    forall k | 1 <= k <= |ops|
      ensures Run(s, ops[..k]).Ok? <==> Run(next, rest[..k - 1]).Ok?
      ensures Run(s, ops[..k]).Ok? ==> Run(s, ops[..k]).value.0 == Run(next, rest[..k - 1]).value.0
    {
      RunPrefix(s, ops, k);
    }
    if Throughout(s, ops, good) {
      assert Run(s, ops[..0]).Ok? && good(Run(s, ops[..0]).value.0);
      forall k | 0 <= k <= |rest| ensures Run(next, rest[..k]).Ok? && good(Run(next, rest[..k]).value.0) {
        assert Run(s, ops[..k + 1]).Ok? && good(Run(s, ops[..k + 1]).value.0);
      }
    } else if good(s) && Throughout(next, rest, good) {
      forall k | 0 <= k <= |ops| ensures Run(s, ops[..k]).Ok? && good(Run(s, ops[..k]).value.0) {
        if k > 0 {
          assert Run(next, rest[..k - 1]).Ok? && good(Run(next, rest[..k - 1]).value.0);
        }
      }
    }
  }

  lemma ThroughoutNone(s: State, good: State -> bool)
    requires Shape(s)
    ensures Throughout(s, [], good) <==> good(s)
  {
    var none: seq<FS.Call> := [];
    assert none[..0] == [] && Run(s, none[..0]) == Ok((s, []));
  }

  lemma ThroughoutStarts(s: State, ops: seq<FS.Call>, good: State -> bool)
    requires Shape(s) && Throughout(s, ops, good)
    ensures good(s)
  {
    assert ops[..0] == [] && Run(s, ops[..0]).Ok? && good(Run(s, ops[..0]).value.0);
  }

  lemma ThroughoutEnds(s: State, ops: seq<FS.Call>, good: State -> bool)
    requires Shape(s) && Throughout(s, ops, good)
    ensures Run(s, ops).Ok? && good(Run(s, ops).value.0)
  {
    assert ops[..|ops|] == ops;
  }

  /** A run that finishes is safe exactly when every invariant holds after each of its calls. */
  lemma {:induction false} SafeRunExactly(s: State, ops: seq<FS.Call>)
    requires Inv(s) && Run(s, ops).Ok?
    ensures SafeRun(s, ops) <==> Throughout(s, ops, Inv)
    decreases |ops|
  {
    if ops == [] {
      ThroughoutNone(s, Inv);
    } else {
      var next := Step(s, ops[0]).value.0;
      InvIffSafe(s, ops[0]);
      ThroughoutFirst(s, ops, Inv);
      if Inv(next) {
        SafeRunExactly(next, ops[1..]);
      } else if Throughout(next, ops[1..], Inv) {
        ThroughoutStarts(next, ops[1..], Inv);
      }
    }
  }

  /** No call of the run unlinks a soft link. */
  ghost predicate SparesLinks(s: State, ops: seq<FS.Call>)
    requires Inv(s) && SafeRun(s, ops)
    decreases |ops|
  {
    ops == [] ||
    (!UnlinksLink(s, ops[0]) &&
     (Step(s, ops[0]).Ok? ==> (InvIffSafe(s, ops[0]); SparesLinks(Step(s, ops[0]).value.0, ops[1..]))))
  }

  /** Safe runs keep every invariant, even with duplicate names, and finish exactly when
      they unlink no soft link. */
  lemma {:induction false} SafeRuns(s: State, ops: seq<FS.Call>)
    requires Inv(s) && SafeRun(s, ops)
    ensures Run(s, ops).Ok? <==> SparesLinks(s, ops)
    ensures Run(s, ops).Ok? ==> Inv(Run(s, ops).value.0)
    decreases |ops|
  {
    if ops == [] {
    } else {
      NoPanic(s, ops[0]);
      if Step(s, ops[0]).Ok? {
        InvIffSafe(s, ops[0]);
        SafeRuns(Step(s, ops[0]).value.0, ops[1..]);
      }
    }
  }

  /** From any good state, a run that respects what the client can see behaves, reply by
      reply, like the file system the client sees, and ends in a good state. */
  lemma {:induction false} RunSimulates(s: State, ops: seq<FS.Call>)
    requires Inv(s) && Distinct(RootDir(s)) && FS.Coherent(Abs(s)) && FS.Allowed(Abs(s), ops)
    ensures Run(s, ops).Abort? <==> FS.Run(Abs(s), ops).Abort?
    ensures Run(s, ops).Ok? ==>
              var (t, replies) := Run(s, ops).value;
              Inv(t) && Distinct(RootDir(t)) && FS.Run(Abs(s), ops) == Ok((Abs(t), replies))
    decreases |ops|
  {
    if ops == [] {
    } else {
      StepSimulates(s, ops[0]);
      if Step(s, ops[0]).Ok? {
        SafeCallAgrees(s, ops[0]);
        InvIffSafe(s, ops[0]);
        InvIsCoherent(Step(s, ops[0]).value.0);
        RunSimulates(Step(s, ops[0]).value.0, ops[1..]);
      }
    }
  }

  // ---------- the beginning ----------

  lemma FreshDirectory(block: seq<Byte>, limit: int)
    ensures var dir := Dir(MarkEmpty(block, Slots(block)));
            && DirOk(dir, limit) && Distinct(dir) && LiveNames(dir) == {}
            && forall n :: n != NO_INUM ==> Count(dir, n) == 0
  {
    var dir := Dir(MarkEmpty(block, Slots(block)));
    MarkEmptyReads(block, Slots(block));
    assert forall i :: 0 <= i < |dir| ==> !Live(dir[i]);
    forall n | n != NO_INUM ensures Count(dir, n) == 0 {
      CountPositive(dir, n);
    }
  }

  lemma InitTables(memory: State)
    requires Shape(memory) && |memory.inodes| > 0 && |memory.blocks| > 0
    ensures var (s, v) := Init(memory);
            && v == 0 && RootOk(s) && s.inodes[0].block == 0
            && s.blocks[0] == MarkEmpty(memory.blocks[0], Slots(memory.blocks[0]))
            && (forall n :: 1 <= n < |s.inodes| ==> !s.inodeBits[n])
            && (forall b :: 0 <= b < |s.blocks| ==> (s.blockBits[b] <==> b == 0))
            && (forall h :: 0 <= h < |s.handles| ==> !s.handleBits[h])
  {
  }

  lemma EmptyRoot(s: State)
    requires RootOk(s) && s.inodes[0].block == 0
    requires forall n :: 1 <= n < |s.inodes| ==> !s.inodeBits[n]
    requires forall b :: 0 <= b < |s.blocks| ==> (s.blockBits[b] <==> b == 0)
    ensures Backed(Owned(s.inodes, s.inodeBits), s.blockBits) && SizesOk(s.inodes, s.inodeBits, s.blockSize)
  {
    assert 0 in Owned(s.inodes, s.inodeBits);
    forall b | 0 <= b < |s.blockBits| && s.blockBits[b]
      ensures exists n :: n in Owned(s.inodes, s.inodeBits) && Owned(s.inodes, s.inodeBits)[n] == b
    {
      assert Owned(s.inodes, s.inodeBits)[0] == 0;
    }
  }

  /** tfs_init succeeds exactly when there is room for the root, makes it inode 0, and shows
      the client an empty file system, whatever memory held before. */
  lemma InitEstablishes(memory: State)
    requires Shape(memory)
    ensures var (s, v) := Init(memory);
            && (v == 0 <==> |memory.inodes| > 0 && |memory.blocks| > 0)
            && (v == 0 ==> && Inv(s) && Distinct(RootDir(s)) && Abs(s) == FS.Empty(LimitsOf(memory)))
  {
    if |memory.inodes| > 0 && |memory.blocks| > 0 {
      InitTables(memory);
      var s := Init(memory).0;
      FreshDirectory(memory.blocks[0], |s.inodes|);
      EmptyRoot(s);
      InitAbs(s);
    }
  }

  lemma InitAbs(s: State)
    requires RootOk(s) && LiveNames(RootDir(s)) == {}
    requires forall n :: 1 <= n < |s.inodes| ==> !s.inodeBits[n]
    requires forall h :: 0 <= h < |s.handles| ==> !s.handleBits[h]
    ensures Abs(s) == FS.Empty(LimitsOf(s))
  {
  }

  /** The refinement: from tfs_init on, every run a client may make shows the client's file system. */
  lemma RefinesFromInit(memory: State, ops: seq<FS.Call>)
    requires Shape(memory) && Init(memory).1 == 0
    requires FS.Allowed(FS.Empty(LimitsOf(memory)), ops)
    ensures var fs, r := FS.Empty(LimitsOf(memory)), Run(Init(memory).0, ops);
            && (r.Abort? <==> FS.Run(fs, ops).Abort?)
            && (r.Ok? ==> Inv(r.value.0) && FS.Run(fs, ops) == Ok((Abs(r.value.0), r.value.1)))
  {
    InitEstablishes(memory);
    RunSimulates(Init(memory).0, ops);
  }
}
