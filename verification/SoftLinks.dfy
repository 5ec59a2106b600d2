/** Soft links follow names: what opening one does, now and after any run. */
module SoftLinks {
  import opened Base
  import opened Tables
  import opened Directory
  import opened Invariants
  import opened Operations
  import opened Simulation
  import opened Runs
  import opened Always
  import opened Guarantees
  import FS = FileSystem

  /** The path is bound to a soft link that stores this text. */
  ghost predicate LinksTo(fs: FS.Fs, path: CString, text: CString) {
    FS.Bound(fs, path) && FS.Target(fs, path) in fs.nodes && fs.nodes[FS.Target(fs, path)].kind == FS.SoftLink(text)
  }

  ghost predicate UnboundOrFile(fs: FS.Fs, path: CString) {
    FS.Bound(fs, path) ==> FS.Target(fs, path) in fs.nodes && fs.nodes[FS.Target(fs, path)].kind.File?
  }

  /** A call that completes leaves every soft link in place. */
  lemma LinkStays(fs: FS.Fs, op: FS.Call, path: CString, text: CString)
    requires FS.Coherent(fs) && LinksTo(fs, path, text) && FS.Fresh(fs, op) && FS.Step(fs, op).Ok?
    ensures LinksTo(FS.Step(fs, op).value.0, path, text)
  {
  }

  lemma {:induction false} LinkOutlivesRun(fs: FS.Fs, ops: seq<FS.Call>, path: CString, text: CString)
    requires FS.Coherent(fs) && FS.Allowed(fs, ops) && LinksTo(fs, path, text) && FS.Run(fs, ops).Ok?
    ensures LinksTo(FS.Run(fs, ops).value.0, path, text)
    decreases |ops|
  {
    if ops == [] {
    } else {
      LinkStays(fs, ops[0], path, text);
      FS.CoherentIffSafe(fs, ops[0]);
      LinkOutlivesRun(FS.Step(fs, ops[0]).value.0, ops[1..], path, text);
    }
  }

  /** Opening a link without flags is opening the path it stores. */
  lemma PlainOpenFollows(s: State, path: CString, text: CString)
    requires NamesOk(s) && LinksTo(Abs(s), path, text) && UnboundOrFile(Abs(s), text)
    ensures Open(s, path, PLAINLY) == Open(s, text, PLAINLY)
  {
    var n := FS.Target(Abs(s), path);
    LookupAgrees(s, path);
    LookupAgrees(s, text);
    BoundFacts(s, path);
    ResolveAgrees(s, n);
    OpenExistingUnfolds(s, n, PLAINLY, FS.Resolve(Abs(s), n), s);
    if FS.Bound(Abs(s), text) {
      BoundFacts(s, text);
      OpenExistingUnfolds(s, FS.Target(Abs(s), text), PLAINLY, FS.Target(Abs(s), text), s);
    }
  }

  /** After any completed run, the link still opens whatever its text names at that moment:
      nothing while the target is unlinked, and the new file once it is created again. */
  lemma SoftLinksFollowNames(s: State, ops: seq<FS.Call>, path: CString, text: CString)
    requires Inv(s) && Distinct(RootDir(s)) && FS.Coherent(Abs(s)) && FS.Allowed(Abs(s), ops)
    requires LinksTo(Abs(s), path, text) && Run(s, ops).Ok?
    ensures var t := Run(s, ops).value.0;
            && Inv(t) && LinksTo(Abs(t), path, text)
            && (UnboundOrFile(Abs(t), text) ==> Open(t, path, PLAINLY) == Open(t, text, PLAINLY))
  {
    RunSimulates(s, ops);
    LinkOutlivesRun(Abs(s), ops, path, text);
    var t := Run(s, ops).value.0;
    if UnboundOrFile(Abs(t), text) {
      PlainOpenFollows(t, path, text);
    }
  }

  lemma CutIsItself(target: CString)
    ensures target[..Min(|target|, MAX_FILE_NAME - 1)] == target <==> |target| < MAX_FILE_NAME
  {
  }

  /** tfs_sym_link stores the first 39 bytes of its target path, so a path to a name of 39 bytes is
      cut: the new link stores the target itself exactly when the path has at most 39 bytes. */
  lemma SymLinkStoresPath(s: State, target: CString, link: CString)
    requires Inv(s) && Distinct(RootDir(s)) && ValidPath(link) && link[1..] !in LiveNames(RootDir(s))
    requires SymLink(s, target, link).Ok? && SymLink(s, target, link).value.1 == 0
    ensures var t := SymLink(s, target, link).value.0;
            && TablesOk(t) && LinksTo(Abs(t), link, target[..Min(|target|, MAX_FILE_NAME - 1)])
            && (LinksTo(Abs(t), link, target) <==> |target| < MAX_FILE_NAME)
  {
    SymLinkAbs(s, target, link);
    CutIsItself(target);
  }

  // ---------- opening a link with flags ----------

  /** Opening n, a link that leads to m, does what opening m does. */
  ghost predicate OpensAlike(s: State, n: int, m: int, mode: Mode)
    requires RootOk(s) && 0 <= n < |s.inodes| && 0 <= m < |s.inodes| && m in Abs(s).nodes
  {
    var cutLink, cutTarget := mode.trunc && s.inodes[n].size > 0, mode.trunc && s.inodes[m].size > 0;
    var dest, full := FS.Resolve(Abs(s), m), First(s.handleBits, IsFree, 0) == -1;
    || n == m
    || if dest == -1 then full && !cutLink
       else !cutLink && !cutTarget
            && (full || (dest == m && (mode.append ==> s.inodes[n].size == s.inodes[m].size)))
  }

  /** Truncating one inode or another is the same only if neither has bytes. */
  lemma PreparedAlike(s: State, n: nat, m: nat, mode: Mode)
    requires Shape(s) && n < |s.inodes| && m < |s.inodes| && n != m && Truncate(s, n).Ok? && Truncate(s, m).Ok?
    ensures Prepared(s, n, mode) == Prepared(s, m, mode) <==>
            !(mode.trunc && (s.inodes[n].size > 0 || s.inodes[m].size > 0))
  {
    PreparedSame(s, n, mode);
    PreparedSame(s, m, mode);
  }

  lemma AddHandleAlike(s: State, t: State, n: int, a: SizeT, m: int, b: SizeT)
    requires Shape(s) && Shape(t) && t.handles == s.handles && t.handleBits == s.handleBits
    ensures AddHandle(s, n, a) == AddHandle(t, m, b) <==>
            s == t && (First(s.handleBits, IsFree, 0) == -1 || (n == m && a == b))
  {
    var h := First(s.handleBits, IsFree, 0);
    if h != -1 && AddHandle(s, n, a) == AddHandle(t, m, b) {
      assert AddHandle(s, n, a).0.handles[h] == Handle(n, a) && AddHandle(t, m, b).0.handles[h] == Handle(m, b);
      assert s == AddHandle(s, n, a).0.(handles := s.handles, handleBits := s.handleBits);
    }
  }

  /** The link itself, and where it leads. */
  lemma LinkLeads(s: State, path: CString, text: CString)
    requires AlwaysOk(s) && LinksTo(Abs(s), path, text) && FS.Bound(Abs(s), text)
    ensures var n, m := FS.Target(Abs(s), path), FS.Target(Abs(s), text);
            && 1 <= n < |s.inodes| && 1 <= m < |s.inodes| && m in Abs(s).nodes && FS.Resolve(Abs(s), n) == m
  {
    BoundFacts(s, path);
    BoundFacts(s, text);
  }

  /** In every reachable state: TRUNC and APPEND act on the link's own inode, and one link only is
      followed, so opening a link is opening what it leads to exactly when neither has bytes to cut off,
      both start at the same offset, and it leads to a file or to itself. */
  lemma FlaggedOpenFollowsExactly(s: State, path: CString, text: CString, mode: Mode)
    requires AlwaysOk(s) && LinksTo(Abs(s), path, text) && FS.Bound(Abs(s), text)
    ensures var n, m := FS.Target(Abs(s), path), FS.Target(Abs(s), text);
            && 1 <= n < |s.inodes| && 1 <= m < |s.inodes| && m in Abs(s).nodes
            && (Open(s, path, mode) == Open(s, text, mode) <==> OpensAlike(s, n, m, mode))
  {
    var n, m := FS.Target(Abs(s), path), FS.Target(Abs(s), text);
    LinkLeads(s, path, text);
    OpenBoundUnfolds(s, path, mode, n);
    OpenBoundUnfolds(s, text, mode, m);
    if n != m {
      OpensAlikeExactly(s, n, m, FS.Resolve(Abs(s), m), mode);
    }
  }

  lemma OpensAlikeExactly(s: State, n: nat, m: nat, dest: int, mode: Mode)
    requires RootOk(s) && n < |s.inodes| && m < |s.inodes| && n != m && m in Abs(s).nodes
    requires Truncate(s, n).Ok? && Truncate(s, m).Ok? && dest == FS.Resolve(Abs(s), m)
    ensures var s1, s2 := Prepared(s, n, mode), Prepared(s, m, mode);
            var a := AddHandle(s1, m, if mode.append then s1.inodes[n].size else 0);
            var b := if dest == -1 then (s, -1) else AddHandle(s2, dest, if mode.append then s2.inodes[m].size else 0);
            a == b <==> OpensAlike(s, n, m, mode)
  {
    var s1, s2 := Prepared(s, n, mode), Prepared(s, m, mode);
    PreparedSame(s, n, mode);
    PreparedSame(s, m, mode);
    if dest != -1 {
      PreparedAlike(s, n, m, mode);
      AddHandleAlike(s1, s2, m, if mode.append then s1.inodes[n].size else 0,
                     dest, if mode.append then s2.inodes[m].size else 0);
    }
  }

  /** In every reachable state: a link whose text is not bound cannot be opened, not even with CREAT.
      Opening the text fails too and changes nothing, exactly when it would create no file. */
  lemma DanglingOpenFollowsExactly(s: State, path: CString, text: CString, mode: Mode)
    requires AlwaysOk(s) && LinksTo(Abs(s), path, text) && !FS.Bound(Abs(s), text)
    ensures Open(s, path, mode) == Ok((s, -1)) && Open(s, text, mode).Ok?
    ensures Open(s, text, mode).value.1 == -1 && Unchanged(s, Open(s, text, mode).value.0) <==> !Creates(s, text, mode)
  {
    OpenBoundUnfolds(s, path, mode, FS.Target(Abs(s), path));
    OpenAlways(s, text, mode);
    OpenUnboundIs(s, text, mode);
    if ValidPath(text) {
      CreateTakes(s, text);
    }
    if Open(s, text, mode).value.1 == -1 {
      FailedOpen(s, text, mode);
    }
  }

  // ---------- chains of links ----------

  ghost predicate HandlesOnFiles(fs: FS.Fs) {
    forall h :: h in fs.open ==> fs.open[h].inum in fs.nodes && fs.nodes[fs.open[h].inum].kind.File?
  }

  /** The call opens a link that leads to another link: the code follows one hop only. */
  ghost predicate OpensChain(fs: FS.Fs, op: FS.Call)
    requires FS.Coherent(fs)
  {
    && op.OpenOp? && FS.Bound(fs, op.path) && FS.NewHandle(fs) != -1
    && FS.Resolve(fs, FS.Target(fs, op.path)) != -1
    && fs.nodes[FS.Resolve(fs, FS.Target(fs, op.path))].kind.SoftLink?
  }

  lemma OpenOnFiles(fs: FS.Fs, op: FS.Call)
    requires FS.Coherent(fs) && HandlesOnFiles(fs) && op.OpenOp?
    ensures HandlesOnFiles(FS.Open(fs, op.path, op.mode).0) <==> !OpensChain(fs, op)
  {
    var after := FS.Open(fs, op.path, op.mode).0;
    if FS.Bound(fs, op.path) && FS.Resolve(fs, FS.Target(fs, op.path)) != -1 {
      var n, h := FS.Target(fs, op.path), FS.NewHandle(fs);
      assert FS.NewHandle(FS.Truncated(fs, n, op.mode)) == h;
      assert h != -1 ==> h in after.open && after.open[h].inum == FS.Resolve(fs, n);
    }
  }

  lemma UnlinkOnFiles(fs: FS.Fs, path: CString)
    requires FS.Coherent(fs) && HandlesOnFiles(fs) && FS.SafeUnlink(fs, path) && FS.Unlink(fs, path).Ok?
    ensures HandlesOnFiles(FS.Unlink(fs, path).value.0)
  {
  }

  lemma StepOnFiles(fs: FS.Fs, op: FS.Call)
    requires FS.Coherent(fs) && HandlesOnFiles(fs) && FS.Safe(fs, op) && FS.Step(fs, op).Ok?
    ensures HandlesOnFiles(FS.Step(fs, op).value.0) <==> !OpensChain(fs, op)
  {
    match op
    case OpenOp(path, mode) => OpenOnFiles(fs, op);
    case UnlinkOp(path) => UnlinkOnFiles(fs, path);
    case CloseOp(h) =>
    case WriteOp(h, buffer) => assert FS.Write(fs, h, buffer).0.open.Keys == fs.open.Keys;
    case ReadOp(h, len) => assert FS.Read(fs, h, len).0.open.Keys == fs.open.Keys;
    case LinkOp(target, link) =>
    case SymLinkOp(target, link) =>
  }

  /** Every handle is on a TAKEN T_FILE inode. */
  ghost predicate OnFiles(s: State)
    requires Shape(s)
  {
    forall h :: ValidHandle(s, h) ==>
      && 1 <= s.handles[h].inum < |s.inodes| && s.inodeBits[s.handles[h].inum]
      && s.inodes[s.handles[h].inum].kind.TFile?
  }

  lemma OnFilesAgrees(s: State)
    requires NamesOk(s)
    ensures OnFiles(s) <==> HandlesOnFiles(Abs(s))
  {
    forall h | ValidHandle(s, h) ensures h in Abs(s).open && Abs(s).open[h] == s.handles[h] {}
    forall n | 1 <= n < |s.inodes| && s.inodeBits[n] ensures s.inodes[n].kind.TFile? <==> Abs(s).nodes[n].kind.File? {
      assert Counted(s.inodes[n], true, Count(RootDir(s), n));
    }
  }

  /** Under a call that a client may make, handles stay on files, never on links, exactly unless it opens
      a chain of links. */
  lemma HandlesStayOnFiles(s: State, op: FS.Call)
    requires Inv(s) && Distinct(RootDir(s)) && FS.Coherent(Abs(s)) && FS.Safe(Abs(s), op) && FS.Fresh(Abs(s), op)
    requires OnFiles(s) && Step(s, op).Ok?
    ensures OnFiles(Step(s, op).value.0) <==> !OpensChain(Abs(s), op)
  {
    StepSimulates(s, op);
    OnFilesAgrees(s);
    OnFilesAgrees(Step(s, op).value.0);
    StepOnFiles(Abs(s), op);
  }

  /** No call of the run opens a link that leads to a link. */
  ghost predicate OpensNoChain(fs: FS.Fs, ops: seq<FS.Call>)
    requires FS.Coherent(fs) && FS.Allowed(fs, ops)
    decreases |ops|
  {
    ops == [] ||
    (!OpensChain(fs, ops[0]) &&
     (FS.Step(fs, ops[0]).Ok? ==>
       (FS.CoherentIffSafe(fs, ops[0]); OpensNoChain(FS.Step(fs, ops[0]).value.0, ops[1..]))))
  }

  ghost predicate GoodHandles(s: State) {
    Shape(s) && OnFiles(s)
  }

  /** During a run that a client may make, handles stay on files exactly when no call opens a chain. */
  lemma {:induction false} ChainsExactly(s: State, ops: seq<FS.Call>)
    requires InOrder(s) && FS.Coherent(Abs(s)) && FS.Allowed(Abs(s), ops) && Run(s, ops).Ok? && OnFiles(s)
    ensures OpensNoChain(Abs(s), ops) <==> Throughout(s, ops, GoodHandles)
    decreases |ops|
  {
    if ops == [] {
      ThroughoutNone(s, GoodHandles);
    } else {
      var next := Step(s, ops[0]).value.0;
      AllowedCallExactly(s, ops[0]);
      AllowedRest(s, ops);
      HandlesStayOnFiles(s, ops[0]);
      ThroughoutFirst(s, ops, GoodHandles);
      if OnFiles(next) {
        ChainsExactly(next, ops[1..]);
      } else if Throughout(next, ops[1..], GoodHandles) {
        ThroughoutStarts(next, ops[1..], GoodHandles);
      }
    }
  }

  lemma AllowedRest(s: State, ops: seq<FS.Call>)
    requires InOrder(s) && FS.Coherent(Abs(s)) && FS.Allowed(Abs(s), ops) && ops != [] && Step(s, ops[0]).Ok?
    ensures FS.Safe(Abs(s), ops[0]) && FS.Fresh(Abs(s), ops[0]) && InOrder(Step(s, ops[0]).value.0)
    ensures FS.Coherent(Abs(Step(s, ops[0]).value.0)) && FS.Allowed(Abs(Step(s, ops[0]).value.0), ops[1..])
  {
    AllowedCallExactly(s, ops[0]);
  }

  /** From tfs_init on, a run that a client may make and that opens no chain of links leaves every
      handle on a TAKEN T_FILE inode, within its size and within a block. */
  lemma EveryHandleIsOnAFile(memory: State, ops: seq<FS.Call>)
    requires Shape(memory) && Init(memory).1 == 0 && FS.Allowed(FS.Empty(LimitsOf(memory)), ops)
    requires OpensNoChain(FS.Empty(LimitsOf(memory)), ops) && Run(Init(memory).0, ops).Ok?
    ensures var t := Run(Init(memory).0, ops).value.0;
            && Inv(t) && OnFiles(t)
            && forall h :: ValidHandle(t, h) ==> t.handles[h].offset <= t.inodes[t.handles[h].inum].size <= t.blockSize
  {
    InitEstablishes(memory);
    RefinesFromInit(memory, ops);
    NoHandles(Init(memory).0);
    ChainsExactly(Init(memory).0, ops);
    ThroughoutEnds(Init(memory).0, ops, GoodHandles);
  }

  lemma NoHandles(s: State)
    requires RootOk(s) && Abs(s).open == map[]
    ensures OnFiles(s)
  {
    forall h | ValidHandle(s, h) ensures h in Abs(s).open {}
  }
}
