/** Projeto2's file system, without links: each operation as one step, and as the micro-steps
    it takes while it holds g_library_mutex. Its inodes have no link count and no target; the
    model keeps those fields, and no operation here reads them. */
module Locked {
  import opened Base
  import opened Layout
  import opened Tables
  import opened Directory
  import opened Invariants
  import opened Effects
  import opened Operations
  import opened Simulation
  import opened Runs
  import opened Always
  import opened Guarantees
  import FS = FileSystem

  type Request = op: FS.Call | !op.LinkOp? && !op.SymLinkOp? witness FS.CloseOp(0)

  // ---------- operations as one step ----------

  function OpenFound(s: State, n: nat, mode: Mode): (r: Outcome<(State, int)>)
    requires Shape(s) && n < |s.inodes|
    ensures r.Ok? ==> SameShape(s, r.value.0)
  {
    var t :- if mode.trunc then Truncate(s, n) else Ok(s);
    Ok(AddHandle(t, n, if mode.append then t.inodes[n].size else 0))
  }

  function OpenPlain(s: State, path: CString, mode: Mode): (r: Outcome<(State, int)>)
    requires Shape(s)
    ensures r.Ok? ==> SameShape(s, r.value.0)
  {
    if !ValidPath(path) then Ok((s, -1))
    else
      var root :- InodeGet(s, ROOT_DIR_INUM);
      var found :- Lookup(s, root, path);
      if found >= 0 then
        var n :- InodeGet(s, found);
        OpenFound(s, n, mode)
      else if mode.creat then CreateFile(s, root, path)
      else Ok((s, -1))
  }

  /** The inode goes first, then the record that names it. */
  function UnlinkPlain(s: State, path: CString): (r: Outcome<(State, int)>)
    requires Shape(s)
    ensures r.Ok? ==> SameShape(s, r.value.0)
  {
    if !ValidPath(path) then Ok((s, -1))
    else
      var root :- InodeGet(s, ROOT_DIR_INUM);
      var found :- Lookup(s, root, path);
      if found == -1 then Ok((s, -1))
      else
        var t :- InodeDelete(s, found);
        ClearDirEntry(t, root, path[1..])
  }

  /** One operation, run alone. */
  function Do(s: State, op: Request): (r: Outcome<(State, FS.Reply)>)
    requires Shape(s)
    ensures r.Ok? ==> SameShape(s, r.value.0)
  {
    match op
    case OpenOp(path, mode) => Runs.Plain(OpenPlain(s, path, mode))
    case CloseOp(h) => Runs.Plain(Ok(Close(s, h)))
    case WriteOp(h, buffer) => Runs.Plain(Write(s, h, buffer))
    case ReadOp(h, len) => var r :- Read(s, h, len); Ok((r.0, FS.Reply(r.1, r.2)))
    case UnlinkOp(path) => Runs.Plain(UnlinkPlain(s, path))
  }

  function DoAll(s: State, ops: seq<Request>): (r: Outcome<(State, seq<FS.Reply>)>)
    requires Shape(s)
    ensures r.Ok? ==> SameShape(s, r.value.0)
    decreases |ops|
  {
    if ops == [] then Ok((s, []))
    else
      var (next, reply) :- Do(s, ops[0]);
      var (last, replies) :- DoAll(next, ops[1..]);
      Ok((last, [reply] + replies))
  }

  // ---------- what sequential runs keep ----------

  /** Every file has exactly one name. */
  ghost predicate Bijective(fs: FS.Fs) {
    && (forall n :: n in fs.nodes ==> fs.nodes[n].kind.File?)
    && (forall a, b :: a in fs.names && b in fs.names && a != b ==> fs.names[a] != fs.names[b])
    && (forall n :: n in fs.nodes ==> exists name :: name in fs.names && fs.names[name] == n)
  }

  ghost predicate Good(s: State) {
    Inv(s) && Distinct(RootDir(s)) && Bijective(Abs(s))
  }

  lemma BindKeepsBijective(fs: FS.Fs, name: CString, n: int)
    requires FS.Coherent(fs) && Bijective(fs) && name !in fs.names && n !in fs.nodes
    ensures Bijective(FS.Bind(fs, name, n, FS.File))
  {
    var fs' := FS.Bind(fs, name, n, FS.File);
    forall m | m in fs'.nodes ensures exists a :: a in fs'.names && fs'.names[a] == m {
      if m == n {
        assert fs'.names[name] == n;
      } else {
        var a :| a in fs.names && fs.names[a] == m;
        assert fs'.names[a] == m;
      }
    }
  }

  lemma SameFilesBijective(fs: FS.Fs, fs': FS.Fs)
    requires Bijective(fs) && fs'.names == fs.names && fs'.nodes.Keys == fs.nodes.Keys
    requires forall n :: n in fs.nodes ==> fs'.nodes[n].kind == fs.nodes[n].kind
    ensures Bijective(fs')
  {
  }

  lemma OpenKeepsBijective(fs: FS.Fs, path: CString, mode: Mode)
    requires FS.Coherent(fs) && Bijective(fs)
    ensures Bijective(FS.Open(fs, path, mode).0)
  {
    var fs' := FS.Open(fs, path, mode).0;
    if !FS.Bound(fs, path) && fs'.names != fs.names {
      BindKeepsBijective(fs, path[1..], FS.NewFile(fs));
      SameFilesBijective(FS.Bind(fs, path[1..], FS.NewFile(fs), FS.File), fs');
    } else {
      SameFilesBijective(fs, fs');
    }
  }

  lemma UnlinkKeepsBijective(fs: FS.Fs, path: CString)
    requires FS.Coherent(fs) && Bijective(fs)
    ensures FS.Unlink(fs, path).Ok? && Bijective(FS.Unlink(fs, path).value.0)
    ensures FS.Unlink(fs, path) ==
            Ok(if FS.Bound(fs, path) then
                 (fs.(names := fs.names - {path[1..]}, nodes := fs.nodes - {FS.Target(fs, path)}), 0)
               else (fs, -1))
  {
    if FS.Bound(fs, path) {
      var fs' := FS.Unlink(fs, path).value.0;
      assert FS.LastName(fs, path[1..]);
      forall m | m in fs'.nodes ensures exists a :: a in fs'.names && fs'.names[a] == m {
        var a :| a in fs.names && fs.names[a] == m;
        assert fs'.names[a] == m;
      }
    }
  }

  lemma StepKeepsBijective(fs: FS.Fs, op: Request)
    requires FS.Coherent(fs) && Bijective(fs)
    ensures FS.Step(fs, op).Ok? && Bijective(FS.Step(fs, op).value.0)
  {
    match op
    case OpenOp(path, mode) => OpenKeepsBijective(fs, path, mode);
    case UnlinkOp(path) => UnlinkKeepsBijective(fs, path);
    case CloseOp(h) => SameFilesBijective(fs, FS.Close(fs, h).0);
    case WriteOp(h, buffer) => SameFilesBijective(fs, FS.Write(fs, h, buffer).0);
    case ReadOp(h, len) => SameFilesBijective(fs, FS.Read(fs, h, len).0);
  }

  /** Names are distinct, every TAKEN inode but the root is a file, and each has one record. */
  ghost predicate OneNamed(s: State) {
    && AlwaysOk(s) && Distinct(RootDir(s))
    && forall n :: 1 <= n < |s.inodes| && s.inodeBits[n] ==> s.inodes[n].kind.TFile? && s.inodes[n].links == 1
  }

  lemma GoodIsOneNamed(s: State)
    requires Good(s)
    ensures OneNamed(s)
  {
    InvIsAlways(s);
    forall n | 1 <= n < |s.inodes| && s.inodeBits[n] ensures s.inodes[n].kind.TFile? && s.inodes[n].links == 1 {
      assert n in Nodes(s) && Nodes(s)[n].kind.File? && Counted(s.inodes[n], true, Count(RootDir(s), n));
      var name :| name in Abs(s).names && Abs(s).names[name] == n;
      var k :| 0 <= k < |RootDir(s)| && Live(RootDir(s)[k]) && NameOf(RootDir(s)[k]) == name;
      BoundIndex(RootDir(s), |s.inodes|, k);
      LastNameIsOneLink(s, k);
    }
  }

  /** A bound path leads to a file whose only link is its record. */
  lemma OneLink(s: State, path: CString)
    requires OneNamed(s) && FS.Bound(Abs(s), path)
    ensures var n, k := FS.Target(Abs(s), path), First(RootDir(s), Matches(path[1..]), 0);
            && 1 <= n < |s.inodes| && s.inodeBits[n] && n in Nodes(s) && 0 <= k < |RootDir(s)|
            && s.inodes[n].kind.TFile? && s.inodes[n].links == 1
            && CanRemove(s, n, k, s.inodes[n]) && NameOf(RootDir(s)[k]) == path[1..]
  {
    BoundFacts(s, path);
  }

  lemma OpenPlainIs(s: State, path: CString, mode: Mode)
    requires OneNamed(s)
    ensures OpenPlain(s, path, mode) == Open(s, path, mode)
  {
    LookupAgrees(s, path);
    if FS.Bound(Abs(s), path) {
      OneLink(s, path);
    }
  }

  lemma UnlinkPlainUnbound(s: State, path: CString)
    requires NamesOk(s) && !FS.Bound(Abs(s), path)
    ensures UnlinkPlain(s, path) == Ok((s, -1))
  {
    LookupAgrees(s, path);
  }

  lemma UnlinkPlainBound(s: State, path: CString, n: nat, k: int)
    requires OneNamed(s) && FS.Bound(Abs(s), path) && n == FS.Target(Abs(s), path)
    requires k == First(RootDir(s), Matches(path[1..]), 0)
    ensures 1 <= n < |s.inodes| && k >= 0 && CanRemove(s, n, k, s.inodes[n])
    ensures UnlinkPlain(s, path) == Ok((Put(s, RemoveChange(s, n, k, s.inodes[n])), 0))
  {
    LookupAgrees(s, path);
    OneLink(s, path);
    ClearAgreesWithFind(RootDir(s), |s.inodes|, path[1..]);
    TakenBytesOk(s, n);
    DeleteThenClear(s, path[1..], n);
  }

  lemma DeleteThenClear(s: State, name: CString, n: nat)
    requires RootOk(s) && 1 <= n < |s.inodes| && s.inodeBits[n] && s.inodes[n].links == 1
    requires First(RootDir(s), Named(name), 0) >= 0
    requires s.inodes[n].size > 0 ==> ValidBlock(s, s.inodes[n].block)
    ensures InodeDelete(s, n).Ok?
    ensures ClearDirEntry(InodeDelete(s, n).value, 0, name) ==
            Ok((Put(s, RemoveChange(s, n, First(RootDir(s), Named(name), 0), s.inodes[n])), 0))
  {
    assert s.inodes[n := s.inodes[n]] == s.inodes;
  }

  lemma UnlinkPlainShows(s: State, path: CString)
    requires Good(s) && FS.Bound(Abs(s), path)
    ensures var r, fs, n := UnlinkPlain(s, path), Abs(s), FS.Target(Abs(s), path);
            && r.Ok? && r.value.1 == 0 && TablesOk(r.value.0) && Distinct(RootDir(r.value.0))
            && Abs(r.value.0) == fs.(names := fs.names - {path[1..]}, nodes := fs.nodes - {n})
  {
    GoodIsOneNamed(s);
    OneLink(s, path);
    var n, k := FS.Target(Abs(s), path), First(RootDir(s), Matches(path[1..]), 0);
    UnlinkPlainBound(s, path, n, k);
    RemoveAbs(s, n, k, s.inodes[n]);
  }

  lemma UnlinkPlainStep(s: State, path: CString)
    requires Good(s) && FS.Coherent(Abs(s))
    ensures var r, f := UnlinkPlain(s, path), FS.Unlink(Abs(s), path);
            && r.Ok? && f.Ok? && TablesOk(r.value.0) && Distinct(RootDir(r.value.0))
            && Abs(r.value.0) == f.value.0 && r.value.1 == f.value.1
  {
    UnlinkKeepsBijective(Abs(s), path);
    if FS.Bound(Abs(s), path) {
      UnlinkPlainShows(s, path);
    } else {
      UnlinkPlainUnbound(s, path);
    }
  }

  lemma DoIsStep(s: State, op: Request)
    requires OneNamed(s) && !op.UnlinkOp?
    ensures Do(s, op) == Step(s, op)
  {
    if op.OpenOp? {
      OpenPlainIs(s, op.path, op.mode);
    }
  }

  lemma DoShows(s: State, op: Request)
    requires Good(s) && FS.Coherent(Abs(s))
    ensures StepShows(Do(s, op), FS.Step(Abs(s), op))
  {
    if op.UnlinkOp? {
      UnlinkPlainStep(s, op.path);
    } else {
      GoodIsOneNamed(s);
      DoIsStep(s, op);
      StepSimulates(s, op);
    }
  }

  /** An operation of Projeto2 never aborts, is the operation the client sees, keeps files and
      names in bijection, and keeps the invariants exactly when it is safe. */
  lemma DoSimulates(s: State, op: Request)
    requires Good(s)
    ensures FS.Coherent(Abs(s)) && FS.Step(Abs(s), op).Ok?
    ensures Do(s, op).Ok? && TablesOk(Do(s, op).value.0) && Distinct(RootDir(Do(s, op).value.0))
    ensures Abs(Do(s, op).value.0) == FS.Step(Abs(s), op).value.0 && Do(s, op).value.1 == FS.Step(Abs(s), op).value.1
    ensures Bijective(Abs(Do(s, op).value.0))
    ensures Inv(Do(s, op).value.0) <==> FS.Safe(Abs(s), op)
  {
    InvIsCoherent(s);
    StepKeepsBijective(Abs(s), op);
    DoShows(s, op);
    InvIsCoherent(Do(s, op).value.0);
    FS.CoherentIffSafe(Abs(s), op);
  }

  /** tfs_init leaves a good state. */
  lemma InitGood(memory: State)
    requires Shape(memory) && Init(memory).1 == 0
    ensures Good(Init(memory).0) && OneNamed(Init(memory).0)
  {
    InitEstablishes(memory);
    GoodIsOneNamed(Init(memory).0);
  }

  /** A sequence that respects what the client can see never aborts, replies like the file
      system the client sees, and keeps names pairwise distinct, one for each file, besides the
      other invariants. */
  lemma {:induction false} DoAllSimulates(s: State, ops: seq<Request>)
    requires Good(s) && FS.Coherent(Abs(s)) && FS.Allowed(Abs(s), ops)
    ensures DoAll(s, ops).Ok? && Good(DoAll(s, ops).value.0)
    ensures FS.Run(Abs(s), ops) == Ok((Abs(DoAll(s, ops).value.0), DoAll(s, ops).value.1))
    decreases |ops|
  {
    if ops == [] {
    } else {
      DoSimulates(s, ops[0]);
      var (next, reply) := Do(s, ops[0]).value;
      InvIsCoherent(next);
      DoAllSimulates(next, ops[1..]);
    }
  }

  // ---------- what all sequential runs keep ----------

  /** Every TAKEN inode has the kind it had, or is a new file. */
  ghost predicate OnlyFilesMade(s: State, t: State) {
    && SameShape(s, t)
    && forall n :: 1 <= n < |s.inodes| && t.inodeBits[n] ==>
         t.inodes[n].kind == if s.inodeBits[n] then s.inodes[n].kind else TFile
  }

  lemma CreateMakesFiles(s: State, path: CString)
    requires RootOk(s) && |path| > 0 && CreateFile(s, 0, path).Ok?
    ensures OnlyFilesMade(s, CreateFile(s, 0, path).value.0)
  {
    NewFileAgrees(s);
    var n := First(s.inodeBits, IsFree, 0);
    if n != -1 {
      if HasRoom(RootDir(s), path[1..]) {
        CreateFileUnfolds(s, path, n);
      } else {
        CreateFileFails(s, path, n);
      }
    }
  }

  lemma PreparedMakesNone(s: State, n: nat, mode: Mode, dest: int, offset: SizeT)
    requires Shape(s) && n < |s.inodes| && Truncate(s, n).Ok?
    ensures OnlyFilesMade(s, s) && OnlyFilesMade(s, AddHandle(Prepared(s, n, mode), dest, offset).0)
  {
  }

  lemma OpenBoundMakesNone(s: State, path: CString, mode: Mode)
    requires AlwaysOk(s) && FS.Bound(Abs(s), path)
    ensures Open(s, path, mode).Ok? && OnlyFilesMade(s, Open(s, path, mode).value.0)
  {
    var n := FS.Target(Abs(s), path);
    OpenBoundUnfolds(s, path, mode, n);
    PreparedMakesNone(s, n, mode, FS.Resolve(Abs(s), n),
                      if mode.append then Prepared(s, n, mode).inodes[n].size else 0);
  }

  lemma OpenMakesFiles(s: State, path: CString, mode: Mode)
    requires AlwaysOk(s) && Open(s, path, mode).Ok?
    ensures OnlyFilesMade(s, Open(s, path, mode).value.0)
  {
    if FS.Bound(Abs(s), path) {
      OpenBoundMakesNone(s, path, mode);
    } else {
      OpenUnboundIs(s, path, mode);
      if ValidPath(path) && mode.creat {
        CreateMakesFiles(s, path);
      }
    }
  }

  lemma WriteMakesNone(s: State, h: int, buffer: seq<Byte>)
    requires AlwaysOk(s) && Write(s, h, buffer).Ok?
    ensures OnlyFilesMade(s, Write(s, h, buffer).value.0)
  {
    if ValidHandle(s, h) {
      assert HandleBounded(s, s.handles[h]);
      WriteTakes(s, h, buffer);
    }
  }

  lemma StepMakesFiles(s: State, op: Request)
    requires AlwaysOk(s) && !op.UnlinkOp? && Step(s, op).Ok?
    ensures OnlyFilesMade(s, Step(s, op).value.0)
  {
    match op
    case OpenOp(path, mode) => OpenMakesFiles(s, path, mode);
    case CloseOp(h) =>
    case WriteOp(h, buffer) => WriteMakesNone(s, h, buffer);
    case ReadOp(h, len) => assert Read(s, h, len).value.0.inodes == s.inodes;
  }

  /** A new record names a FREE inode, so no inode gets a second one. */
  lemma OneRecordEach(s: State, op: Request, n: nat)
    requires OneNamed(s) && 1 <= n < |s.inodes| && !op.UnlinkOp?
    ensures Count(DirAfter(s, op), n) <= 1
  {
    var dir, m := RootDir(s), First(s.inodeBits, IsFree, 0);
    assert Counted(s.inodes[n], s.inodeBits[n], Count(dir, n));
    if op.OpenOp? && DirAfter(s, op) != dir {
      var k := First(dir, IsEmptySlot, 0);
      assert IsFree(s.inodeBits[m]) && IsEmptySlot(dir[k]);
      CountUpdate(dir, k, Record(op.path[1..], m), n);
    }
  }

  lemma StaysOneNamed(s: State, t: State, op: Request)
    requires OneNamed(s) && !op.UnlinkOp? && AlwaysOk(t) && OnlyFilesMade(s, t) && RootDir(t) == DirAfter(s, op)
    ensures OneNamed(t)
  {
    OthersDistinct(s, op);
    forall n | 1 <= n < |t.inodes| && t.inodeBits[n] ensures t.inodes[n].kind.TFile? && t.inodes[n].links == 1 {
      OneRecordEach(s, op, n);
      assert Counted(t.inodes[n], true, Count(RootDir(t), n));
    }
  }

  lemma RemoveOneNamed(s: State, n: nat, k: nat)
    requires OneNamed(s) && n < |s.inodes| && CanRemove(s, n, k, s.inodes[n]) && s.inodeBits[n]
    ensures OneNamed(Put(s, RemoveChange(s, n, k, s.inodes[n])))
  {
    TakenBytesOk(s, n);
    RemoveAlways(s, n, k, s.inodes[n]);
  }

  lemma UnlinkOneNamed(s: State, path: CString)
    requires OneNamed(s)
    ensures UnlinkPlain(s, path).Ok? && OneNamed(UnlinkPlain(s, path).value.0)
  {
    if FS.Bound(Abs(s), path) {
      OneLink(s, path);
      var n, k := FS.Target(Abs(s), path), First(RootDir(s), Matches(path[1..]), 0);
      UnlinkPlainBound(s, path, n, k);
      RemoveOneNamed(s, n, k);
    } else {
      UnlinkPlainUnbound(s, path);
    }
  }

  /** The handle was left so far behind that the copy would leave fs_data or the caller's buffer. */
  ghost predicate Astray(s: State, op: Request)
    requires RootOk(s)
  {
    ReadsAstray(s, op) || WritesAstray(s, op)
  }

  /** An operation of Projeto2 aborts exactly when it is astray; otherwise names stay distinct, and every
      TAKEN inode keeps its one record, safe or not. */
  lemma DoAlways(s: State, op: Request)
    requires OneNamed(s)
    ensures Do(s, op).Abort? <==> Astray(s, op)
    ensures Do(s, op).Ok? ==> OneNamed(Do(s, op).value.0)
  {
    if op.UnlinkOp? {
      UnlinkOneNamed(s, op.path);
    } else {
      DoIsStep(s, op);
      CallAlways(s, op);
      if Step(s, op).Ok? {
        StepMakesFiles(s, op);
        StaysOneNamed(s, Step(s, op).value.0, op);
      }
    }
  }

  /** No operation of the sequence is astray where it is made. */
  ghost predicate NoneAstray(s: State, ops: seq<Request>)
    requires OneNamed(s)
    decreases |ops|
  {
    ops == [] || (!Astray(s, ops[0]) && (DoAlways(s, ops[0]); NoneAstray(Do(s, ops[0]).value.0, ops[1..])))
  }

  /** Any sequence at all keeps names distinct and one record for each TAKEN inode, and finishes exactly
      when none of its operations is astray. */
  lemma {:induction false} DoAllAlways(s: State, ops: seq<Request>)
    requires OneNamed(s)
    ensures DoAll(s, ops).Ok? <==> NoneAstray(s, ops)
    ensures DoAll(s, ops).Ok? ==> OneNamed(DoAll(s, ops).value.0)
    decreases |ops|
  {
    if ops == [] {
    } else {
      DoAlways(s, ops[0]);
      if Do(s, ops[0]).Ok? {
        DoAllAlways(Do(s, ops[0]).value.0, ops[1..]);
      }
    }
  }

  /** Between its two halves an unlink leaves a record that names a FREE inode. */
  lemma UnlinkDangles(s: State, path: CString)
    requires Good(s) && FS.Bound(Abs(s), path)
    ensures var n := FS.Target(Abs(s), path);
            InodeDelete(s, n).Ok? && !TablesOk(InodeDelete(s, n).value)
  {
    BoundFacts(s, path);
    var n := FS.Target(Abs(s), path);
    if s.inodes[n].size > 0 {
      OwnerHasBlock(s, n);
    }
    DeleteLeavesRecords(s, n);
    assert !Counted(s.inodes[n], false, Count(RootDir(s), n));
    var t := InodeDelete(s, n).value;
    assert !NodesOk(t.inodes, t.inodeBits, RootDir(t));
  }

  lemma DeleteLeavesRecords(s: State, n: nat)
    requires RootOk(s) && 1 <= n < |s.inodes| && s.inodeBits[n]
    requires s.inodes[n].size > 0 ==> ValidBlock(s, s.inodes[n].block)
    ensures var r := InodeDelete(s, n);
            r.Ok? && RootOk(r.value) && RootDir(r.value) == RootDir(s)
            && r.value.inodes == s.inodes && r.value.inodeBits == s.inodeBits[n := false]
  {
  }
}
