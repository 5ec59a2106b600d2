/** Inputs on which the code does something other than its interface suggests. Each is a run from
    tfs_init on tables large enough for it, followed by the call that goes astray. The exact
    conditions are in Always.CallAlways, Runs.InvIffSafe, Conservation.LeaksExactly,
    Guarantees.WriteIsolation, Guarantees.ComesBackExactly, Guarantees.FailureAtomicity,
    Always.DistinctIffFresh, SoftLinks.FlaggedOpenFollowsExactly, SoftLinks.DanglingOpenFollowsExactly,
    SoftLinks.HandlesStayOnFiles and SoftLinks.SymLinkStoresPath. */
module Departures {
  import opened Base
  import opened Layout
  import opened Tables
  import opened Directory
  import opened Invariants
  import opened Effects
  import opened Simulation
  import opened Operations
  import opened Always
  import opened Guarantees
  import opened Streams
  import Conservation
  import Runs
  import FS = FileSystem

  const FILE_PATH: CString := [47, 102]    // "/f"
  const OTHER_PATH: CString := [47, 103]   // "/g"
  const LINK_PATH: CString := [47, 108]    // "/l"
  const CHAIN_PATH: CString := [47, 109]   // "/m"
  const CREATE := Mode(true, false, false)
  const TRUNCATE := Mode(false, true, false)

  const CREATING: FS.Call := FS.OpenOp(FILE_PATH, CREATE)
  const WRITING: FS.Call := FS.WriteOp(0, [7])
  const WRITING_OTHER: FS.Call := FS.WriteOp(1, [1, 2, 3])
  const WRITING_AGAIN: FS.Call := FS.WriteOp(0, [9])
  const CLOSING: FS.Call := FS.CloseOp(0)
  const CREATING_OTHER: FS.Call := FS.OpenOp(OTHER_PATH, CREATE)
  const TRUNCATING: FS.Call := FS.OpenOp(FILE_PATH, TRUNCATE)
  const TRUNCATING_LINK: FS.Call := FS.OpenOp(LINK_PATH, TRUNCATE)
  const UNLINKING: FS.Call := FS.UnlinkOp(FILE_PATH)
  const LINKING_TWICE: FS.Call := FS.LinkOp(FILE_PATH, FILE_PATH)
  const LINKING: FS.Call := FS.SymLinkOp(FILE_PATH, LINK_PATH)

  /** Tables with room for this much. */
  predicate Roomy(memory: State, inodes: nat, records: nat, blocks: nat, handles: nat) {
    && Shape(memory) && |memory.inodes| >= inodes > 0 && |memory.blocks| >= blocks > 0
    && |memory.handles| >= handles && memory.blockSize >= ENTRY_SIZE * records
  }

  predicate Ample(l: FS.Limits, inodes: nat, records: nat, blocks: nat, handles: nat) {
    l.inodes >= inodes && l.names >= records && l.blocks >= blocks && l.handles >= handles && l.blockSize > 0
  }

  // ---------- runs that a client may make ----------

  /** From tfs_init, the calls can be made, and show the client this file system. */
  ghost predicate Leads(memory: State, ops: seq<FS.Call>, fs: FS.Fs) {
    && Shape(memory) && Init(memory).1 == 0 && FS.Allowed(FS.Empty(LimitsOf(memory)), ops)
    && FS.Run(FS.Empty(LimitsOf(memory)), ops).Ok? && FS.Run(FS.Empty(LimitsOf(memory)), ops).value.0 == fs
    && FS.Coherent(fs)
  }

  lemma LeadsNowhere(memory: State, inodes: nat, records: nat, blocks: nat, handles: nat)
    requires Roomy(memory, inodes, records, blocks, handles)
    ensures Leads(memory, [], FS.Empty(LimitsOf(memory)))
    ensures Ample(LimitsOf(memory), inodes, records, blocks, handles)
  {
    Runs.InitEstablishes(memory);
  }

  lemma LeadsOn(memory: State, ops: seq<FS.Call>, fs: FS.Fs, op: FS.Call, next: FS.Fs, reply: FS.Reply)
    requires Leads(memory, ops, fs) && FS.Safe(fs, op) && FS.Fresh(fs, op) && FS.Step(fs, op) == Ok((next, reply))
    ensures Leads(memory, ops + [op], next)
  {
    FS.CoherentIffSafe(fs, op);
    FS.RunCons(fs, op, [], next, reply);
    assert [op] + [] == [op];
    FS.RunThen(FS.Empty(LimitsOf(memory)), ops, fs, FS.Run(FS.Empty(LimitsOf(memory)), ops).value.1, [op]);
  }

  /** The tables show the client this file system. */
  ghost predicate GoodTables(s: State, fs: FS.Fs) {
    Inv(s) && Distinct(RootDir(s)) && FS.Coherent(fs) && Abs(s) == fs && AlwaysOk(s)
  }

  lemma LeadsShows(memory: State, ops: seq<FS.Call>, fs: FS.Fs) returns (s: State)
    requires Leads(memory, ops, fs)
    ensures Leaves(memory, ops, s) && GoodTables(s, fs)
  {
    Runs.InitEstablishes(memory);
    Runs.RunSimulates(Init(memory).0, ops);
    s := Runs.Run(Init(memory).0, ops).value.0;
    InvIsAlways(s);
  }

  /** One more call on good tables, safe or not. */
  lemma StepFollows(s: State, fs: FS.Fs, op: FS.Call)
    requires GoodTables(s, fs) && FS.Fresh(fs, op)
    ensures Runs.StepShows(Runs.Step(s, op), FS.Step(fs, op))
    ensures Runs.Step(s, op).Ok? ==> AlwaysOk(Runs.Step(s, op).value.0)
  {
    Runs.StepSimulates(s, op);
    CallAlways(s, op);
  }

  lemma StepTo(s: State, fs: FS.Fs, op: FS.Call, next: FS.Fs, reply: FS.Reply) returns (t: State)
    requires GoodTables(s, fs) && FS.Fresh(fs, op) && FS.Step(fs, op) == Ok((next, reply))
    ensures Runs.Step(s, op) == Ok((t, reply)) && TablesOk(t) && AlwaysOk(t) && Abs(t) == next
  {
    StepFollows(s, fs, op);
    t := Runs.Step(s, op).value.0;
  }

  /** One more call that a client may make. */
  lemma Follows(memory: State, ops: seq<FS.Call>, s: State, fs: FS.Fs, op: FS.Call, next: FS.Fs, reply: FS.Reply)
    returns (t: State)
    requires Leads(memory, ops, fs) && Leaves(memory, ops, s) && GoodTables(s, fs)
    requires FS.Safe(fs, op) && FS.Fresh(fs, op) && FS.Step(fs, op) == Ok((next, reply))
    ensures Runs.Step(s, op) == Ok((t, reply)) && Leaves(memory, ops + [op], t) && GoodTables(t, next)
    ensures Leads(memory, ops + [op], next)
  {
    LeadsOn(memory, ops, fs, op, next, reply);
    t := LeadsShows(memory, ops + [op], next);
    StepFollows(s, fs, op);
    LeavesOn(memory, ops, s, op, Runs.Step(s, op).value.0, reply);
  }

  /** One more call after such a run: s is before it and t after it. */
  lemma GoesOn(memory: State, ops: seq<FS.Call>, fs: FS.Fs, op: FS.Call, next: FS.Fs, reply: FS.Reply)
    returns (s: State, t: State)
    requires Leads(memory, ops, fs) && FS.Fresh(fs, op) && FS.Step(fs, op) == Ok((next, reply))
    ensures Leaves(memory, ops, s) && Runs.Step(s, op) == Ok((t, reply))
    ensures TablesOk(t) && AlwaysOk(t) && Abs(t) == next
  {
    s := LeadsShows(memory, ops, fs);
    t := StepTo(s, fs, op, next, reply);
  }

  /** The same run, followed by one call or by another. */
  lemma GoesTwoWays(memory: State, ops: seq<FS.Call>, fs: FS.Fs, op: FS.Call, next: FS.Fs, reply: FS.Reply,
                    op': FS.Call, next': FS.Fs, reply': FS.Reply)
    returns (s: State, t: State, u: State)
    requires Leads(memory, ops, fs) && FS.Fresh(fs, op) && FS.Fresh(fs, op')
    requires FS.Step(fs, op) == Ok((next, reply)) && FS.Step(fs, op') == Ok((next', reply'))
    ensures Leaves(memory, ops, s) && Runs.Step(s, op) == Ok((t, reply)) && Runs.Step(s, op') == Ok((u, reply'))
    ensures TablesOk(t) && Abs(t) == next && TablesOk(u) && Abs(u) == next'
  {
    s, t := GoesOn(memory, ops, fs, op, next, reply);
    s, u := GoesOn(memory, ops, fs, op', next', reply');
  }

  lemma {:induction false} RunLast(s: State, ops: seq<FS.Call>, t: State, op: FS.Call)
    requires Shape(s) && Runs.Run(s, ops).Ok? && Runs.Run(s, ops).value.0 == t && Runs.Step(t, op).Abort?
    ensures Runs.Run(s, ops + [op]).Abort?
    decreases |ops|
  {
    if ops == [] {
      assert (ops + [op])[1..] == [];
    } else {
      assert (ops + [op])[1..] == ops[1..] + [op];
      RunLast(Runs.Step(s, ops[0]).value.0, ops[1..], t, op);
    }
  }

  lemma AbortsAfter(memory: State, ops: seq<FS.Call>, fs: FS.Fs, op: FS.Call)
    requires Leads(memory, ops, fs) && FS.Fresh(fs, op) && FS.Step(fs, op).Abort?
    ensures Runs.Run(Init(memory).0, ops + [op]).Abort?
  {
    var s := LeadsShows(memory, ops, fs);
    StepFollows(s, fs, op);
    RunLast(Init(memory).0, ops, s, op);
  }

  /** A handle and its file, read off the view. */
  lemma HandleSeen(t: State, h: int)
    requires TablesOk(t) && h in Abs(t).open && Abs(t).open[h].inum in Abs(t).nodes
    ensures var n := Abs(t).open[h].inum;
            && ValidHandle(t, h) && t.handles[h] == Abs(t).open[h] && 1 <= n < |t.inodes|
            && t.inodes[n].size == |Abs(t).nodes[n].content|
            && (Abs(t).nodes[n].kind.SoftLink? <==> t.inodes[n].kind.TSoftLink?)
  {
    NodeFacts(t);
  }

  lemma ContentSeen(t: State, n: int)
    requires RootOk(t) && n in Abs(t).nodes
    ensures 1 <= n < |t.inodes| && Content(t, n) == Abs(t).nodes[n].content
  {
  }

  // ---------- file systems along the way ----------

  function FirstHandle(l: FS.Limits, offset: SizeT): map<int, Handle> {
    if l.handles == 0 then map[] else map[0 := Handle(1, offset)]
  }

  /** The path was created, and its handle, if there is one, has written these bytes. */
  function WithFile(l: FS.Limits, path: CString, bytes: seq<Byte>): FS.Fs
    requires |path| > 0 && |bytes| < SIZE_T
  {
    FS.Fs(map[path[1..] := 1], map[1 := FS.Node(FS.File, bytes)], FirstHandle(l, |bytes|), l)
  }

  lemma Created(l: FS.Limits, path: CString)
    requires Ample(l, 2, 1, 1, 0) && ValidPath(path) && |path| <= MAX_FILE_NAME
    ensures FS.Coherent(FS.Empty(l)) && FS.Safe(FS.Empty(l), FS.OpenOp(path, CREATE))
    ensures FS.Step(FS.Empty(l), FS.OpenOp(path, CREATE)) ==
            Ok((WithFile(l, path, []), FS.Reply(if l.handles == 0 then -1 else 0, [])))
  {
    assert FS.NewFile(FS.Empty(l)) == 1;
    assert FS.NewHandle(FS.Empty(l)) == if l.handles == 0 then -1 else 0;
  }

  lemma LeadsToFile(memory: State, path: CString)
    requires Roomy(memory, 2, 1, 1, 0) && ValidPath(path) && |path| <= MAX_FILE_NAME
    ensures Leads(memory, [FS.OpenOp(path, CREATE)], WithFile(LimitsOf(memory), path, []))
  {
    var l := LimitsOf(memory);
    LeadsNowhere(memory, 2, 1, 1, 0);
    Created(l, path);
    LeadsOn(memory, [], FS.Empty(l), FS.OpenOp(path, CREATE), WithFile(l, path, []),
            FS.Reply(if l.handles == 0 then -1 else 0, []));
    assert [] + [FS.OpenOp(path, CREATE)] == [FS.OpenOp(path, CREATE)];
  }

  /** The path, and "/l" which stores it. */
  function WithLink(l: FS.Limits, path: CString, bytes: seq<Byte>): FS.Fs
    requires |path| > 0 && |bytes| < SIZE_T
  {
    var text := path[..Min(|path|, MAX_FILE_NAME - 1)];
    FS.Fs(map[path[1..] := 1, LINK_PATH[1..] := 2],
          map[1 := FS.Node(FS.File, bytes), 2 := FS.Node(FS.SoftLink(text), [])], FirstHandle(l, |bytes|), l)
  }

  lemma Linked(l: FS.Limits, path: CString, bytes: seq<Byte>)
    requires Ample(l, 3, 2, 1, 0) && ValidPath(path) && path[1..] != LINK_PATH[1..]
    requires |bytes| < SIZE_T && FS.Coherent(WithFile(l, path, bytes))
    ensures FS.Fresh(WithFile(l, path, bytes), FS.SymLinkOp(path, LINK_PATH))
    ensures FS.Step(WithFile(l, path, bytes), FS.SymLinkOp(path, LINK_PATH)) ==
            Ok((WithLink(l, path, bytes), FS.Reply(0, [])))
  {
    var fs := WithFile(l, path, bytes);
    assert FS.Least(fs.nodes.Keys, 1, l.inodes) == FS.Least(fs.nodes.Keys, 2, l.inodes) == 2;
    assert FS.CanSymLink(fs, path, LINK_PATH);
    assert FS.SymLink(fs, path, LINK_PATH).0.nodes == WithLink(l, path, bytes).nodes;
  }

  lemma LeadsToLink(memory: State, path: CString)
    requires Roomy(memory, 3, 2, 1, 0) && ValidPath(path) && |path| <= MAX_FILE_NAME && path[1..] != LINK_PATH[1..]
    ensures Leads(memory, [FS.OpenOp(path, CREATE)] + [FS.SymLinkOp(path, LINK_PATH)],
                  WithLink(LimitsOf(memory), path, []))
  {
    var l := LimitsOf(memory);
    LeadsNowhere(memory, 3, 2, 1, 0);
    LeadsToFile(memory, path);
    Linked(l, path, []);
    LeadsOn(memory, [FS.OpenOp(path, CREATE)], WithFile(l, path, []), FS.SymLinkOp(path, LINK_PATH),
            WithLink(l, path, []), FS.Reply(0, []));
  }

  lemma Written(l: FS.Limits)
    requires Ample(l, 2, 1, 2, 1) && FS.Coherent(WithFile(l, FILE_PATH, []))
    ensures FS.Safe(WithFile(l, FILE_PATH, []), WRITING) && FS.Fresh(WithFile(l, FILE_PATH, []), WRITING)
    ensures FS.Step(WithFile(l, FILE_PATH, []), WRITING) == Ok((WithFile(l, FILE_PATH, [7]), FS.Reply(1, [])))
  {
    var fs := WithFile(l, FILE_PATH, []);
    assert [7][..1] == [7] && FS.NonEmpty(fs.nodes) == {} && FS.Overwrite([], 0, [7]) == [7];
    assert FS.WriteCount(fs, 0, [7]) == 1;
    assert FS.Wrote(fs, 0, [7]).nodes == WithFile(l, FILE_PATH, [7]).nodes;
    assert FS.Wrote(fs, 0, [7]).open == WithFile(l, FILE_PATH, [7]).open;
  }

  lemma LeadsToByte(memory: State)
    requires Roomy(memory, 2, 1, 2, 1)
    ensures Leads(memory, [CREATING] + [WRITING], WithFile(LimitsOf(memory), FILE_PATH, [7]))
  {
    var l := LimitsOf(memory);
    LeadsNowhere(memory, 2, 1, 2, 1);
    LeadsToFile(memory, FILE_PATH);
    Written(l);
    LeadsOn(memory, [CREATING], WithFile(l, FILE_PATH, []), WRITING, WithFile(l, FILE_PATH, [7]), FS.Reply(1, []));
  }

  // ---------- an abort ----------

  lemma LinkUnlinked(l: FS.Limits)
    requires FS.Coherent(WithLink(l, FILE_PATH, []))
    ensures FS.Step(WithLink(l, FILE_PATH, []), FS.UnlinkOp(LINK_PATH)).Abort?
  {
  }

  /** Create "/f", make a soft link "/l" to it, unlink the link: the last call aborts. */
  lemma UnlinkingALinkAborts(memory: State)
    requires Roomy(memory, 3, 2, 1, 0)
    ensures Runs.Run(Init(memory).0, [CREATING] + [LINKING] + [FS.UnlinkOp(LINK_PATH)]).Abort?
  {
    LeadsToLink(memory, FILE_PATH);
    LinkUnlinked(LimitsOf(memory));
    AbortsAfter(memory, [CREATING] + [LINKING], WithLink(LimitsOf(memory), FILE_PATH, []), FS.UnlinkOp(LINK_PATH));
  }

  // ---------- handles left behind ----------

  function PastEnd(l: FS.Limits): FS.Fs {
    FS.Fs(map[FILE_PATH[1..] := 1], map[1 := FS.Node(FS.File, [])], map[0 := Handle(1, 1), 1 := Handle(1, 0)], l)
  }

  lemma ByteTruncated(l: FS.Limits)
    requires FS.Coherent(WithFile(l, FILE_PATH, [7])) && l.handles >= 2
    ensures FS.Step(WithFile(l, FILE_PATH, [7]), TRUNCATING) == Ok((PastEnd(l), FS.Reply(1, [])))
  {
    var cut := FS.Truncated(WithFile(l, FILE_PATH, [7]), 1, TRUNCATE);
    assert cut.nodes == PastEnd(l).nodes && cut.open == map[0 := Handle(1, 1)];
    assert FS.Least(cut.open.Keys, 0, l.handles) == FS.Least(cut.open.Keys, 1, l.handles) == 1;
    assert FS.AddOpen(cut, 1, 0).0.open == PastEnd(l).open;
  }

  lemma EmptyAllows(l: FS.Limits)
    ensures FS.Coherent(FS.Empty(l)) && FS.Safe(FS.Empty(l), CREATING) && FS.Fresh(FS.Empty(l), CREATING)
    ensures !FS.Bound(FS.Empty(l), FILE_PATH)
  {
  }

  /** Create "/f": the first block is the root's. */
  lemma CreatedTables(memory: State) returns (s: State)
    requires Roomy(memory, 2, 1, 2, 1)
    ensures Leads(memory, [CREATING], WithFile(LimitsOf(memory), FILE_PATH, []))
    ensures Leaves(memory, [CREATING], s) && GoodTables(s, WithFile(LimitsOf(memory), FILE_PATH, []))
    ensures forall b :: 0 <= b < |s.blocks| ==> (s.blockBits[b] <==> b == 0)
  {
    var l := LimitsOf(memory);
    LeadsNowhere(memory, 2, 1, 2, 1);
    var s0 := LeadsShows(memory, [], FS.Empty(l));
    Created(l, FILE_PATH);
    EmptyAllows(l);
    s := Follows(memory, [], s0, FS.Empty(l), CREATING, WithFile(l, FILE_PATH, []), FS.Reply(0, []));
    assert [] + [CREATING] == [CREATING];
    Runs.InitTables(memory);
    CreatingTakesNoBlock(s0, FILE_PATH, s, 0);
  }

  lemma CreatingTakesNoBlock(s: State, path: CString, t: State, h: nat)
    requires NamesOk(s) && ValidPath(path) && !FS.Bound(Abs(s), path) && Open(s, path, CREATE) == Ok((t, h))
    ensures t.blockBits == s.blockBits && SameShape(s, t)
    ensures forall n :: 0 <= n < |s.inodes| && s.inodeBits[n] ==> t.inodes[n] == s.inodes[n]
  {
    OpenUnboundIs(s, path, CREATE);
    CreateTakes(s, path);
  }

  /** Create "/f" and write one byte: its inode 1 has block 1, and no other block but the root's is TAKEN. */
  lemma ByteTables(memory: State) returns (s: State)
    requires Roomy(memory, 2, 1, 2, 1)
    ensures Leads(memory, [CREATING] + [WRITING], WithFile(LimitsOf(memory), FILE_PATH, [7]))
    ensures Leaves(memory, [CREATING] + [WRITING], s) && GoodTables(s, WithFile(LimitsOf(memory), FILE_PATH, [7]))
    ensures 1 < |s.inodes| && s.inodes[1].block == 1 && s.inodes[1].size == 1
    ensures forall b :: 0 <= b < |s.blocks| ==> (s.blockBits[b] <==> b < 2)
  {
    var l := LimitsOf(memory);
    var s0 := CreatedTables(memory);
    LeadsNowhere(memory, 2, 1, 2, 1);
    Written(l);
    s := Follows(memory, [CREATING], s0, WithFile(l, FILE_PATH, []), WRITING, WithFile(l, FILE_PATH, [7]),
                 FS.Reply(1, []));
    ByteTaken(s0, s, l);
  }

  lemma ByteTaken(s: State, t: State, l: FS.Limits)
    requires GoodTables(s, WithFile(l, FILE_PATH, [])) && l.handles >= 1 && |s.blocks| >= 2
    requires Runs.Step(s, WRITING) == Ok((t, FS.Reply(1, [])))
    requires forall b :: 0 <= b < |s.blocks| ==> (s.blockBits[b] <==> b == 0)
    ensures 1 < |t.inodes| && t.inodes[1].block == 1 && t.inodes[1].size == 1
    ensures forall b :: 0 <= b < |t.blocks| ==> (t.blockBits[b] <==> b < 2)
  {
    HandleSeen(s, 0);
    WriteTakes(s, 0, [7]);
    assert First(s.blockBits, IsFree, 0) == First(s.blockBits, IsFree, 1) == 1;
  }

  /** The tables after the file was truncated through a second open. */
  lemma PastEndTables(memory: State) returns (s: State, t: State)
    requires Roomy(memory, 2, 1, 2, 2)
    ensures Leaves(memory, [CREATING] + [WRITING], s) && Runs.Step(s, TRUNCATING) == Ok((t, FS.Reply(1, [])))
    ensures Leaves(memory, [CREATING] + [WRITING] + [TRUNCATING], t)
    ensures TablesOk(t) && AlwaysOk(t) && Abs(t) == PastEnd(LimitsOf(memory))
    ensures 1 < |t.inodes| && t.inodes[1].block == 1 && t.inodes[1].size == 0
    ensures 1 < |t.blocks| == |memory.blocks| && !t.blockBits[1]
  {
    var l := LimitsOf(memory);
    s := ByteTables(memory);
    ByteTruncated(l);
    t := StepTo(s, WithFile(l, FILE_PATH, [7]), TRUNCATING, PastEnd(l), FS.Reply(1, []));
    LeavesOn(memory, [CREATING] + [WRITING], s, TRUNCATING, t, FS.Reply(1, []));
    BlockGivenUp(s, t, FILE_PATH);
  }

  lemma BlockGivenUp(s: State, t: State, path: CString)
    requires AlwaysOk(s) && FS.Bound(Abs(s), path) && FS.Target(Abs(s), path) == 1 && 1 in Abs(s).nodes
    requires FS.Resolve(Abs(s), 1) == 1 && Open(s, path, TRUNCATE) == Ok((t, 1))
    requires 1 < |s.inodes| && s.inodes[1].block == 1 && s.inodes[1].size == 1 && |s.blocks| >= 2
    ensures 1 < |t.inodes| && t.inodes[1].block == 1 && t.inodes[1].size == 0
    ensures 1 < |t.blocks| == |s.blocks| == |t.blockBits| && !t.blockBits[1]
  {
    OpenBoundUnfolds(s, path, TRUNCATE, 1);
  }

  /** How far a read of one block's length from offset 1 of block 1 goes. */
  lemma ThreeBlocks(t: State)
    requires Shape(t) && |t.blocks| >= 2
    ensures BlockStart(t, 1) == t.blockSize && DataSize(t) >= 2 * t.blockSize
    ensures BlockStart(t, 1) + 1 + t.blockSize > DataSize(t) <==> |t.blocks| == 2
  {
    if |t.blocks| >= 3 {
      MemoryInBlock(t, 2, 0, 0);
      assert BlockStart(t, 2) == 2 * t.blockSize;
    }
  }

  lemma PastEndReads(t: State, l: FS.Limits)
    requires TablesOk(t) && AlwaysOk(t) && Abs(t) == PastEnd(l) && |t.blocks| >= 2
    requires 1 < |t.inodes| && t.inodes[1].block == 1 && t.inodes[1].size == 0
    ensures ValidHandle(t, 0) && t.handles[0] == Handle(1, 1) && !HandlesOk(t)
    ensures Read(t, 0, t.blockSize).Abort? <==> |t.blocks| == 2
  {
    HandleSeen(t, 0);
    ThreeBlocks(t);
    ReadAlways(t, 0, t.blockSize);
  }

  /** Create "/f", write one byte, and open it once more with TRUNC: the open succeeds, and the first
      handle is left past the end of the file. A read of a block's length through it leaves the block; it
      aborts exactly when no block follows. */
  lemma TruncatingUnderAHandle(memory: State) returns (s: State, t: State)
    requires Roomy(memory, 2, 1, 2, 2)
    ensures Leaves(memory, [CREATING] + [WRITING], s) && Runs.Step(s, TRUNCATING) == Ok((t, FS.Reply(1, [])))
    ensures Shape(t) && !HandlesOk(t) && (Read(t, 0, t.blockSize).Abort? <==> |memory.blocks| == 2)
  {
    s, t := PastEndTables(memory);
    PastEndReads(t, LimitsOf(memory));
  }

  lemma ReadsNextBlock(t: State) returns (u: State, data: seq<Byte>)
    requires AlwaysOk(t) && |t.blocks| >= 3 && ValidHandle(t, 0) && t.handles[0] == Handle(1, 1)
    requires 1 < |t.inodes| && t.inodes[1].block == 1 && t.inodes[1].size == 0 && Read(t, 0, t.blockSize).Ok?
    ensures Read(t, 0, t.blockSize) == Ok((u, t.blockSize, data))
    ensures |data| == t.blockSize && |t.blocks[2]| > 0 && data[t.blockSize - 1] == t.blocks[2][0]
  {
    var size := t.blockSize;
    ThreeBlocks(t);
    ReadIffInBounds(t, 0, size);
    MemoryInBlock(t, 2, 0, 1);
    assert BlockStart(t, 2) == size + size;
    assert Memory(t)[size + size..size + size + 1][0] == t.blocks[2][0..1][0];
    var (v, count, bytes) := Read(t, 0, size).value;
    u, data := v, bytes;
  }

  lemma WriteWraps(t: State)
    requires AlwaysOk(t) && ValidHandle(t, 0) && t.handles[0] == Handle(1, 1)
    requires 1 < |t.inodes| && t.inodes[1].size == 0 && 1 < |t.blockBits| && !t.blockBits[1]
    requires Read(t, 0, t.blockSize).Ok? && Read(t, 0, t.blockSize).value.1 == t.blockSize
    ensures Write(Read(t, 0, t.blockSize).value.0, 0, [9]).Abort?
  {
    assert IsFree(t.blockBits[1]);
    ReadAlways(t, 0, t.blockSize);
    WriteAlways(Read(t, 0, t.blockSize).value.0, 0, [9]);
  }

  /** With a third block, that read completes: its last byte is the first one of the next block, and the
      handle is left past the end of a block, where the count of a write wraps and the write aborts. */
  lemma ReadingPastABlock(memory: State) returns (t: State, u: State, data: seq<Byte>)
    requires Roomy(memory, 2, 1, 3, 2)
    ensures Leaves(memory, [CREATING] + [WRITING] + [TRUNCATING], t)
    ensures Shape(t) && Runs.Step(t, FS.ReadOp(0, t.blockSize)) == Ok((u, FS.Reply(t.blockSize, data)))
    ensures |data| == t.blockSize > 0 && |t.blocks| >= 3 && |t.blocks[2]| > 0
    ensures data[t.blockSize - 1] == t.blocks[2][0] && Runs.Step(u, FS.WriteOp(0, [9])).Abort?
  {
    var s;
    s, t := PastEndTables(memory);
    PastEndReads(t, LimitsOf(memory));
    u, data := ReadsNextBlock(t);
    WriteWraps(t);
  }

  function Deleted(l: FS.Limits): FS.Fs {
    FS.Fs(map[], map[], map[0 := Handle(1, 0)], l)
  }

  lemma FileUnlinked(l: FS.Limits)
    requires FS.Coherent(WithFile(l, FILE_PATH, [])) && l.handles >= 1
    ensures FS.Step(WithFile(l, FILE_PATH, []), UNLINKING) == Ok((Deleted(l), FS.Reply(0, [])))
  {
  }

  lemma UnlinkKeepsSize(s: State, l: FS.Limits)
    requires GoodTables(s, WithFile(l, FILE_PATH, [])) && Unlink(s, FILE_PATH).Ok?
    ensures 1 < |s.inodes| && Unlink(s, FILE_PATH).value.0.inodes[1].size == 0
  {
    BoundHasBytes(s, FILE_PATH);
    UnlinkBound(s, FILE_PATH);
    NodeFacts(s);
    assert 1 in Nodes(s) && Nodes(s)[1].content == [];
  }

  /** Create "/f" and unlink it while it is open: the handle is left on a FREE inode, and one byte
      written through it takes a block that no inode owns. */
  lemma DeletingAnOpenFile(memory: State) returns (s: State, t: State)
    requires Roomy(memory, 2, 1, 2, 1)
    ensures Leaves(memory, [CREATING], s) && Runs.Step(s, UNLINKING) == Ok((t, FS.Reply(0, [])))
    ensures Shape(t) && !HandlesOk(t)
    ensures Runs.Step(t, WRITING).Ok? && !TablesOk(Runs.Step(t, WRITING).value.0)
  {
    var l := LimitsOf(memory);
    LeadsNowhere(memory, 2, 1, 2, 1);
    LeadsToFile(memory, FILE_PATH);
    s := LeadsShows(memory, [CREATING], WithFile(l, FILE_PATH, []));
    t := DeletedAfter(s, l);
    DeletedSeen(t, l);
  }

  lemma DeletedAfter(s: State, l: FS.Limits) returns (t: State)
    requires GoodTables(s, WithFile(l, FILE_PATH, [])) && l.handles >= 1
    ensures Runs.Step(s, UNLINKING) == Ok((t, FS.Reply(0, [])))
    ensures TablesOk(t) && AlwaysOk(t) && Abs(t) == Deleted(l) && 1 < |t.inodes| && t.inodes[1].size == 0
  {
    FileUnlinked(l);
    t := StepTo(s, WithFile(l, FILE_PATH, []), UNLINKING, Deleted(l), FS.Reply(0, []));
    UnlinkKeepsSize(s, l);
  }

  lemma DeletedSeen(t: State, l: FS.Limits)
    requires TablesOk(t) && AlwaysOk(t) && Abs(t) == Deleted(l) && Ample(l, 2, 1, 2, 1) && t.inodes[1].size == 0
    ensures !HandlesOk(t) && Runs.Step(t, WRITING).Ok? && !TablesOk(Runs.Step(t, WRITING).value.0)
  {
    assert 0 in Abs(t).open && Abs(t).open[0] == Handle(1, 0) && 1 !in Nodes(t);
    assert FS.NonEmpty(Nodes(t)) == {};
    RoomForBlock(t);
    CallAlways(t, WRITING);
    Conservation.LeaksExactly(t, WRITING);
  }

  /** Create "/f", unlink it while it is open, and create "/g": it gets the smallest FREE inode, and the
      handle that was left behind is on the new file. */
  lemma ReusingAnInode(memory: State) returns (s: State, t: State, u: State)
    requires Roomy(memory, 2, 1, 2, 2)
    ensures Leaves(memory, [CREATING], s) && Runs.Step(s, UNLINKING) == Ok((t, FS.Reply(0, [])))
    ensures Runs.Step(t, CREATING_OTHER) == Ok((u, FS.Reply(1, [])))
    ensures NamesOk(u) && FS.Bound(Abs(u), OTHER_PATH) && ValidHandle(u, 0) && ValidHandle(u, 1)
    ensures u.handles[0].inum == u.handles[1].inum == FS.Target(Abs(u), OTHER_PATH)
  {
    var l := LimitsOf(memory);
    LeadsNowhere(memory, 2, 1, 2, 2);
    LeadsToFile(memory, FILE_PATH);
    s := LeadsShows(memory, [CREATING], WithFile(l, FILE_PATH, []));
    t := DeletedAfter(s, l);
    OtherCreated(t, l);
    u := Open(t, OTHER_PATH, CREATE).value.0;
  }

  lemma OtherCreated(t: State, l: FS.Limits)
    requires AlwaysOk(t) && Abs(t) == Deleted(l) && Ample(l, 2, 1, 2, 2) && l == LimitsOf(t)
    ensures Open(t, OTHER_PATH, CREATE).Ok? && Open(t, OTHER_PATH, CREATE).value.1 == 1
    ensures var u := Open(t, OTHER_PATH, CREATE).value.0;
            && NamesOk(u) && FS.Bound(Abs(u), OTHER_PATH) && FS.Target(Abs(u), OTHER_PATH) == 1
            && ValidHandle(u, 0) && ValidHandle(u, 1) && u.handles[0].inum == u.handles[1].inum == 1
  {
    NewFileAgrees(t);
    NewHandleAgrees(t);
    var used := Abs(t).open.Keys;
    assert FS.Least(used, 0, l.handles) == FS.Least(used, 1, l.handles) == 1;
    assert 0 in Abs(t).open && Abs(t).open[0] == Handle(1, 0) && ValidHandle(t, 0);
    NothingLive(t);
    CreationSucceedsExactly(t, OTHER_PATH, CREATE);
    FilledFinds(RootDir(t), |t.inodes|, OTHER_PATH[1..], 1);
  }

  lemma NothingLive(t: State)
    requires RootOk(t) && Abs(t).names == map[] && |RootDir(t)| > 0
    ensures LiveNames(RootDir(t)) == {} && First(RootDir(t), IsEmptySlot, 0) == 0
  {
    assert LiveNames(RootDir(t)) == Abs(t).names.Keys;
    var dir := RootDir(t);
    forall i | 0 <= i < |dir| && Live(dir[i]) ensures NameOf(dir[i]) in LiveNames(dir) {}
  }

  // ---------- a write into another file ----------

  /** "/f" was created and has one byte, and "/g" was created. */
  function TwoFiles(l: FS.Limits): FS.Fs {
    FS.Fs(map[FILE_PATH[1..] := 1, OTHER_PATH[1..] := 2], map[1 := FS.Node(FS.File, [7]), 2 := FS.Node(FS.File, [])],
          map[0 := Handle(1, 1), 1 := Handle(2, 0)], l)
  }

  lemma OtherMade(l: FS.Limits)
    requires Ample(l, 3, 2, 2, 2) && FS.Coherent(WithFile(l, FILE_PATH, [7]))
    ensures FS.Safe(WithFile(l, FILE_PATH, [7]), CREATING_OTHER)
    ensures FS.Fresh(WithFile(l, FILE_PATH, [7]), CREATING_OTHER)
    ensures FS.Step(WithFile(l, FILE_PATH, [7]), CREATING_OTHER) == Ok((TwoFiles(l), FS.Reply(1, [])))
  {
    var fs := WithFile(l, FILE_PATH, [7]);
    assert FS.Least(fs.nodes.Keys, 1, l.inodes) == FS.Least(fs.nodes.Keys, 2, l.inodes) == 2;
    assert FS.Least(fs.open.Keys, 0, l.handles) == FS.Least(fs.open.Keys, 1, l.handles) == 1;
    assert FS.CanName(fs, OTHER_PATH[1..]);
    assert FS.Bind(fs, OTHER_PATH[1..], 2, FS.File).names == TwoFiles(l).names;
    assert fs.open[1 := Handle(2, 0)] == TwoFiles(l).open;
  }

  /** "/f" is gone, with its handle left behind, and "/g" holds these bytes. */
  function OtherOnly(l: FS.Limits, bytes: seq<Byte>): FS.Fs
    requires |bytes| < SIZE_T
  {
    FS.Fs(map[OTHER_PATH[1..] := 2], map[2 := FS.Node(FS.File, bytes)],
          map[0 := Handle(1, 1), 1 := Handle(2, |bytes|)], l)
  }

  lemma FirstUnlinked(l: FS.Limits)
    requires FS.Coherent(TwoFiles(l))
    ensures FS.Step(TwoFiles(l), UNLINKING) == Ok((OtherOnly(l, []), FS.Reply(0, [])))
  {
    var fs := TwoFiles(l);
    assert FILE_PATH[1..] != OTHER_PATH[1..];
    assert fs.names - {FILE_PATH[1..]} == OtherOnly(l, []).names && fs.nodes - {1} == OtherOnly(l, []).nodes;
  }

  lemma OtherWritten(l: FS.Limits)
    requires l.blockSize >= 88
    ensures 1 in OtherOnly(l, []).open && FS.HandleOk(OtherOnly(l, []), 1)
    ensures FS.Wrote(OtherOnly(l, []), 1, [1, 2, 3]) == OtherOnly(l, [1, 2, 3])
  {
    assert FS.Overwrite([], 0, [1, 2, 3]) == [1, 2, 3];
  }

  /** Inode 1 has one byte, in block 1, and the first n blocks are the TAKEN ones. */
  predicate ByteInBlock(s: State, n: nat) {
    && Shape(s) && 1 < |s.inodes| && s.inodes[1].block == 1 && s.inodes[1].size == 1
    && n <= 2 <= |s.blocks| && forall b :: 0 <= b < |s.blocks| ==> (s.blockBits[b] <==> b < n)
  }

  lemma TwoFilesTables(memory: State) returns (s: State)
    requires Roomy(memory, 3, 2, 2, 2)
    ensures Leaves(memory, [CREATING] + [WRITING] + [CREATING_OTHER], s)
    ensures GoodTables(s, TwoFiles(LimitsOf(memory))) && ByteInBlock(s, 2)
  {
    var l := LimitsOf(memory);
    LeadsNowhere(memory, 3, 2, 2, 2);
    var before := ByteTables(memory);
    OtherMade(l);
    s := Follows(memory, [CREATING] + [WRITING], before, WithFile(l, FILE_PATH, [7]), CREATING_OTHER, TwoFiles(l),
                 FS.Reply(1, []));
    ByteSeen(before, l);
    OtherKeepsByte(before, OTHER_PATH, s);
  }

  lemma ByteSeen(s: State, l: FS.Limits)
    requires RootOk(s) && Abs(s) == WithFile(l, FILE_PATH, [7]) && 1 < |s.inodes|
    ensures s.inodeBits[1] && !FS.Bound(Abs(s), OTHER_PATH)
  {
    assert FILE_PATH[1..] != OTHER_PATH[1..] && 1 in Nodes(s);
  }

  lemma OtherKeepsByte(s: State, path: CString, t: State)
    requires AlwaysOk(s) && ValidPath(path) && !FS.Bound(Abs(s), path) && Open(s, path, CREATE) == Ok((t, 1))
    requires ByteInBlock(s, 2) && s.inodeBits[1]
    ensures ByteInBlock(t, 2)
  {
    CreatingTakesNoBlock(s, path, t, 1);
  }

  lemma UnlinkTables(s: State, path: CString, t: State)
    requires AlwaysOk(s) && FS.Bound(Abs(s), path) && FS.Target(Abs(s), path) == 1 && 1 < |s.inodes|
    requires Unlink(s, path) == Ok((t, 0)) && SameShape(s, t) && !t.inodeBits[1]
    ensures t.inodes[1] == OneLinkLess(s, 1)
    ensures s.inodes[1].size > 0 ==>
              ValidBlock(s, s.inodes[1].block) && t.blockBits == s.blockBits[s.inodes[1].block := false]
  {
    BoundFacts(s, path);
    TakenBytesOk(s, 1);
    UnlinkBound(s, path);
    var c := RemoveChange(s, 1, First(RootDir(s), Matches(path[1..]), 0), OneLinkLess(s, 1));
    assert t == Put(s, c);
    PutParts(s, c);
  }

  lemma ByteFreed(s: State, t: State)
    requires ByteInBlock(s, 2) && SameShape(s, t) && t.inodes[1] == OneLinkLess(s, 1)
    requires t.blockBits == s.blockBits[1 := false]
    ensures ByteInBlock(t, 1)
  {
  }

  lemma FirstGone(s: State, t: State, l: FS.Limits)
    requires RootOk(s) && RootOk(t) && Abs(s) == TwoFiles(l) && Abs(t) == OtherOnly(l, []) && 1 < |t.inodes|
    ensures FS.Bound(Abs(s), FILE_PATH) && FS.Target(Abs(s), FILE_PATH) == 1 && !t.inodeBits[1]
  {
    assert 1 !in Nodes(t);
  }

  /** After "/f" was unlinked, with its handle left behind. */
  lemma OtherOnlyTables(memory: State) returns (s: State)
    requires Roomy(memory, 3, 2, 2, 2)
    ensures Leaves(memory, [CREATING] + [WRITING] + [CREATING_OTHER] + [UNLINKING], s)
    ensures AlwaysOk(s) && Abs(s) == OtherOnly(LimitsOf(memory), []) && ByteInBlock(s, 1)
  {
    var l := LimitsOf(memory);
    var before := TwoFilesTables(memory);
    FirstUnlinked(l);
    s := StepTo(before, TwoFiles(l), UNLINKING, OtherOnly(l, []), FS.Reply(0, []));
    LeavesOn(memory, [CREATING] + [WRITING] + [CREATING_OTHER], before, UNLINKING, s, FS.Reply(0, []));
    FirstGone(before, s, l);
    UnlinkTables(before, FILE_PATH, s);
    ByteFreed(before, s);
  }

  lemma OtherViewed(s: State, l: FS.Limits)
    requires RootOk(s) && Abs(s) == OtherOnly(l, []) && l.blockSize >= 88
    ensures Viewed(s, 1) && s.blockSize == l.blockSize && s.handles[1] == Handle(2, 0) && 2 in Nodes(s)
  {
    OtherWritten(l);
    assert 1 in Abs(s).open && ValidHandle(s, 1);
  }

  lemma BlockReused(s: State)
    requires AlwaysOk(s) && ByteInBlock(s, 1) && ValidHandle(s, 1) && s.handles[1] == Handle(2, 0)
    requires 2 < |s.inodes| && s.inodes[2].size == 0
    requires Write(s, 1, [1, 2, 3]).Ok? && Write(s, 1, [1, 2, 3]).value.1 == 3
    ensures var t := Write(s, 1, [1, 2, 3]).value.0;
            2 < |t.inodes| && t.inodes[1].block == t.inodes[2].block == 1 && t.inodes[1].size == 1
  {
    assert First(s.blockBits, IsFree, 0) == First(s.blockBits, IsFree, 1) == 1;
    assert HandleBounded(s, s.handles[1]);
    WriteTakes(s, 1, [1, 2, 3]);
  }

  lemma OtherCanWrite(s: State, l: FS.Limits)
    requires AlwaysOk(s) && Abs(s) == OtherOnly(l, []) && ByteInBlock(s, 1) && l.blockSize >= 88
    ensures CanWrite(s, 1) && Viewed(s, 1) && Room(s, 1) >= 3 && s.handles[1] == Handle(2, 0)
    ensures 2 < |s.inodes| && s.inodes[2].size == 0
  {
    OtherViewed(s, l);
    FitsIsViewed(s, 1);
    NodeFacts(s);
    assert First(s.blockBits, IsFree, 0) == First(s.blockBits, IsFree, 1) == 1;
  }

  lemma OtherWrites(s: State, bytes: seq<Byte>) returns (t: State)
    requires CanWrite(s, 1) && Viewed(s, 1) && 0 < |bytes| <= Room(s, 1)
    ensures Write(s, 1, bytes) == Ok((t, |bytes|)) && AlwaysOk(t) && Abs(t) == FS.Wrote(Abs(s), 1, bytes)
  {
    assert bytes[..|bytes|] == bytes;
    WroteSome(s, 1, bytes, |bytes|);
    t := Write(s, 1, bytes).value.0;
  }

  /** "/g" takes the block that "/f" had. */
  lemma OtherTakesBlock(s: State, l: FS.Limits) returns (t: State)
    requires AlwaysOk(s) && Abs(s) == OtherOnly(l, []) && ByteInBlock(s, 1) && l.blockSize >= 88
    ensures Write(s, 1, [1, 2, 3]) == Ok((t, 3)) && AlwaysOk(t) && Abs(t) == OtherOnly(l, [1, 2, 3])
    ensures 2 < |t.inodes| && t.inodes[1].block == t.inodes[2].block == 1 && t.inodes[1].size == 1
  {
    OtherCanWrite(s, l);
    t := OtherWrites(s, [1, 2, 3]);
    OtherWritten(l);
    BlockReused(s);
  }

  lemma LeftBehind(s: State, l: FS.Limits)
    requires AlwaysOk(s) && Abs(s) == OtherOnly(l, [1, 2, 3]) && 2 < |s.inodes|
    ensures s.blockSize == l.blockSize && ValidHandle(s, 0) && s.handles[0] == Handle(1, 1)
    ensures s.inodeBits[2] && Content(s, 2) == [1, 2, 3] && s.inodes[2].size == 3 && !s.inodeBits[1]
  {
    assert 0 in Abs(s).open && Abs(s).open[0] == Handle(1, 1);
    assert 2 in Nodes(s) && Nodes(s)[2].content == Content(s, 2) && 1 !in Nodes(s);
    TakenContent(s, 2);
  }

  lemma Struck(s: State) returns (t: State)
    requires AlwaysOk(s) && s.blockSize >= 88 && ValidHandle(s, 0) && s.handles[0] == Handle(1, 1)
    requires 2 < |s.inodes| && s.inodeBits[2] && !s.inodeBits[1] && Content(s, 2) == [1, 2, 3]
    requires s.inodes[1].block == s.inodes[2].block == 1 && s.inodes[1].size == 1 && s.inodes[2].size == 3
    ensures Write(s, 0, [9]) == Ok((t, 1)) && AlwaysOk(t) && RootDir(t) == RootDir(s)
    ensures 2 < |t.inodes| && Content(t, 2) == [1, 9, 3]
  {
    WriteAlways(s, 0, [9]);
    WriteTakes(s, 0, [9]);
    t := Write(s, 0, [9]).value.0;
    WriteShows(s, 0, [9], 2);
  }

  /** Create "/f", write one byte, create "/g", unlink "/f", write three bytes to "/g": it gets the block
      that "/f" had, and a byte written through the handle left on "/f" lands in "/g". */
  lemma WritingIntoAnotherFile(memory: State) returns (s: State, t: State)
    requires Roomy(memory, 3, 2, 2, 2)
    ensures Leaves(memory, [CREATING] + [WRITING] + [CREATING_OTHER] + [UNLINKING] + [WRITING_OTHER], s)
    ensures Runs.Step(s, WRITING_AGAIN) == Ok((t, FS.Reply(1, [])))
    ensures NamesOk(s) && FS.Bound(Abs(s), OTHER_PATH) && FS.Target(Abs(s), OTHER_PATH) == 2
    ensures RootOk(t) && RootDir(t) == RootDir(s) && 2 < |s.inodes| && 2 < |t.inodes|
    ensures Content(s, 2) == [1, 2, 3] && Content(t, 2) == [1, 9, 3]
  {
    var l := LimitsOf(memory);
    var before := OtherOnlyTables(memory);
    s := OtherTakesBlock(before, l);
    LeavesOn(memory, [CREATING] + [WRITING] + [CREATING_OTHER] + [UNLINKING], before, WRITING_OTHER, s,
             FS.Reply(3, []));
    LeftBehind(s, l);
    t := Struck(s);
  }

  // ---------- names ----------

  /** Create "/f" and link "/f" to it: two records carry the name. */
  lemma DuplicateNames(memory: State) returns (s: State, t: State)
    requires Roomy(memory, 2, 2, 1, 0)
    ensures Leaves(memory, [CREATING], s) && Runs.Step(s, LINKING_TWICE).Ok?
    ensures t == Runs.Step(s, LINKING_TWICE).value.0 && NamesOk(t) && !Distinct(RootDir(t))
  {
    var l := LimitsOf(memory);
    LeadsNowhere(memory, 2, 2, 1, 0);
    LeadsToFile(memory, FILE_PATH);
    s := LeadsShows(memory, [CREATING], WithFile(l, FILE_PATH, []));
    t := LinkedTwice(s, l);
  }

  lemma NotFresh(l: FS.Limits)
    requires Ample(l, 2, 2, 1, 0)
    ensures !FS.Fresh(WithFile(l, FILE_PATH, []), LINKING_TWICE)
  {
  }

  lemma LinkedTwice(s: State, l: FS.Limits) returns (t: State)
    requires GoodTables(s, WithFile(l, FILE_PATH, [])) && Ample(l, 2, 2, 1, 0)
    ensures Runs.Step(s, LINKING_TWICE).Ok? && t == Runs.Step(s, LINKING_TWICE).value.0
    ensures NamesOk(t) && !Distinct(RootDir(t))
  {
    NotFresh(l);
    LinkAlways(s, FILE_PATH, FILE_PATH);
    DistinctIffFresh(s, LINKING_TWICE);
    t := Runs.Step(s, LINKING_TWICE).value.0;
  }

  // ---------- soft links ----------

  lemma LeadsToLinkedByte(memory: State)
    requires Roomy(memory, 3, 2, 2, 1)
    ensures Leads(memory, [CREATING] + [WRITING] + [LINKING], WithLink(LimitsOf(memory), FILE_PATH, [7]))
  {
    var l := LimitsOf(memory);
    LeadsNowhere(memory, 3, 2, 2, 1);
    LeadsToByte(memory);
    Linked(l, FILE_PATH, [7]);
    LeadsOn(memory, [CREATING] + [WRITING], WithFile(l, FILE_PATH, [7]), LINKING,
            WithLink(l, FILE_PATH, [7]), FS.Reply(0, []));
  }

  /** The two files again, with the handles 0 and 1. */
  function Reopened(l: FS.Limits, bytes: seq<Byte>): FS.Fs
    requires |bytes| < SIZE_T
  {
    FS.Fs(WithLink(l, FILE_PATH, []).names, WithLink(l, FILE_PATH, bytes).nodes,
          map[0 := Handle(1, 1), 1 := Handle(1, 0)], l)
  }

  lemma LinkTruncated(l: FS.Limits)
    requires FS.Coherent(WithLink(l, FILE_PATH, [7])) && l.handles >= 2
    ensures FS.Step(WithLink(l, FILE_PATH, [7]), TRUNCATING_LINK) == Ok((Reopened(l, [7]), FS.Reply(1, [])))
    ensures FS.Step(WithLink(l, FILE_PATH, [7]), TRUNCATING) == Ok((Reopened(l, []), FS.Reply(1, [])))
  {
    var fs := WithLink(l, FILE_PATH, [7]);
    assert FS.Least(fs.open.Keys, 0, l.handles) == FS.Least(fs.open.Keys, 1, l.handles) == 1;
    assert FILE_PATH[..2] == FILE_PATH;
    assert FS.Truncated(fs, 2, TRUNCATE).nodes == fs.nodes;
    assert FS.Truncated(fs, 1, TRUNCATE).nodes == Reopened(l, []).nodes;
    assert fs.open[1 := Handle(1, 0)] == Reopened(l, []).open;
  }

  /** Create "/f", write one byte, and link "/l" to it softly: opening "/l" with TRUNC leaves the
      byte, opening "/f" with TRUNC cuts it off. */
  lemma TruncatingThroughALink(memory: State) returns (s: State, t: State, u: State)
    requires Roomy(memory, 3, 2, 2, 2)
    ensures Leaves(memory, [CREATING] + [WRITING] + [LINKING], s)
    ensures Runs.Step(s, TRUNCATING_LINK) == Ok((t, FS.Reply(1, [])))
    ensures Runs.Step(s, TRUNCATING) == Ok((u, FS.Reply(1, [])))
    ensures Shape(t) && Shape(u) && 1 < |t.inodes| && 1 < |u.inodes| && Content(t, 1) == [7] && Content(u, 1) == []
  {
    var l := LimitsOf(memory);
    LeadsToLinkedByte(memory);
    LinkTruncated(l);
    s, t, u := GoesTwoWays(memory, [CREATING] + [WRITING] + [LINKING], WithLink(l, FILE_PATH, [7]),
                           TRUNCATING_LINK, Reopened(l, [7]), FS.Reply(1, []),
                           TRUNCATING, Reopened(l, []), FS.Reply(1, []));
    ContentSeen(t, 1);
    ContentSeen(u, 1);
  }

  lemma LeadsToClosedLink(memory: State)
    requires Roomy(memory, 3, 2, 1, 1)
    ensures Leads(memory, [CREATING] + [LINKING] + [CLOSING], WithLink(LimitsOf(memory), FILE_PATH, []).(open := map[]))
  {
    var l := LimitsOf(memory);
    LeadsNowhere(memory, 3, 2, 1, 1);
    LeadsToLink(memory, FILE_PATH);
    var fs := WithLink(l, FILE_PATH, []);
    assert FS.Step(fs, CLOSING) == Ok((fs.(open := map[]), FS.Reply(0, [])));
    LeadsOn(memory, [CREATING] + [LINKING], fs, CLOSING, fs.(open := map[]), FS.Reply(0, []));
  }

  function Dangling(l: FS.Limits): FS.Fs {
    FS.Fs(map[LINK_PATH[1..] := 2], map[2 := FS.Node(FS.SoftLink(FILE_PATH), [])], map[], l)
  }

  lemma LeadsToDangling(memory: State)
    requires Roomy(memory, 3, 2, 1, 1)
    ensures Leads(memory, [CREATING] + [LINKING] + [CLOSING] + [UNLINKING], Dangling(LimitsOf(memory)))
  {
    var l := LimitsOf(memory);
    LeadsToClosedLink(memory);
    TargetUnlinked(l);
    LeadsOn(memory, [CREATING] + [LINKING] + [CLOSING], WithLink(l, FILE_PATH, []).(open := map[]), UNLINKING,
            Dangling(l), FS.Reply(0, []));
  }

  lemma TargetUnlinked(l: FS.Limits)
    requires FS.Coherent(WithLink(l, FILE_PATH, []).(open := map[]))
    ensures FS.Safe(WithLink(l, FILE_PATH, []).(open := map[]), UNLINKING)
    ensures FS.Step(WithLink(l, FILE_PATH, []).(open := map[]), UNLINKING) == Ok((Dangling(l), FS.Reply(0, [])))
  {
    var fs := WithLink(l, FILE_PATH, []).(open := map[]);
    assert FILE_PATH[..2] == FILE_PATH && FILE_PATH[1..] != LINK_PATH[1..];
    assert fs.names - {FILE_PATH[1..]} == Dangling(l).names && fs.nodes - {1} == Dangling(l).nodes;
  }

  lemma DanglingOpened(l: FS.Limits)
    requires Ample(l, 3, 2, 1, 1) && FS.Coherent(Dangling(l))
    ensures FS.Step(Dangling(l), FS.OpenOp(LINK_PATH, CREATE)) == Ok((Dangling(l), FS.Reply(-1, [])))
    ensures var r := FS.Step(Dangling(l), CREATING);
            r.Ok? && r.value.1 == FS.Reply(0, []) && FS.Bound(r.value.0, FILE_PATH)
  {
    assert FS.NewFile(Dangling(l)) == 1 && FS.NewHandle(Dangling(l)) == 0;
  }

  /** Create "/f", link "/l" to it softly, close and unlink "/f": opening "/l" with CREAT fails and
      makes nothing, although opening the path it stores creates the file again. */
  lemma CreatingThroughALink(memory: State) returns (s: State, t: State, u: State)
    requires Roomy(memory, 3, 2, 1, 1)
    ensures Leaves(memory, [CREATING] + [LINKING] + [CLOSING] + [UNLINKING], s)
    ensures Runs.Step(s, FS.OpenOp(LINK_PATH, CREATE)) == Ok((t, FS.Reply(-1, [])))
    ensures Runs.Step(s, CREATING) == Ok((u, FS.Reply(0, [])))
    ensures NamesOk(t) && !FS.Bound(Abs(t), FILE_PATH) && NamesOk(u) && FS.Bound(Abs(u), FILE_PATH)
  {
    var l := LimitsOf(memory);
    LeadsNowhere(memory, 3, 2, 1, 1);
    LeadsToDangling(memory);
    DanglingOpened(l);
    s, t, u := GoesTwoWays(memory, [CREATING] + [LINKING] + [CLOSING] + [UNLINKING], Dangling(l),
                           FS.OpenOp(LINK_PATH, CREATE), Dangling(l), FS.Reply(-1, []),
                           CREATING, FS.Step(Dangling(l), CREATING).value.0, FS.Reply(0, []));
  }

  const CHAINING: FS.Call := FS.SymLinkOp(LINK_PATH, CHAIN_PATH)

  function Chained(l: FS.Limits): FS.Fs {
    var fs := WithLink(l, FILE_PATH, []);
    fs.(names := fs.names[CHAIN_PATH[1..] := 3], nodes := fs.nodes[3 := FS.Node(FS.SoftLink(LINK_PATH), [])])
  }

  lemma LeadsToChain(memory: State)
    requires Roomy(memory, 4, 3, 1, 0)
    ensures Leads(memory, [CREATING] + [LINKING] + [CHAINING], Chained(LimitsOf(memory)))
  {
    var l := LimitsOf(memory);
    LeadsNowhere(memory, 4, 3, 1, 0);
    LeadsToLink(memory, FILE_PATH);
    LinkLinked(l);
    LeadsOn(memory, [CREATING] + [LINKING], WithLink(l, FILE_PATH, []), CHAINING, Chained(l), FS.Reply(0, []));
  }

  lemma LinkLinked(l: FS.Limits)
    requires Ample(l, 4, 3, 1, 0) && FS.Coherent(WithLink(l, FILE_PATH, []))
    ensures FS.Fresh(WithLink(l, FILE_PATH, []), CHAINING)
    ensures FS.Step(WithLink(l, FILE_PATH, []), CHAINING) == Ok((Chained(l), FS.Reply(0, [])))
  {
    var fs := WithLink(l, FILE_PATH, []);
    assert FS.Least(fs.nodes.Keys, 1, l.inodes) == FS.Least(fs.nodes.Keys, 2, l.inodes)
        == FS.Least(fs.nodes.Keys, 3, l.inodes) == 3;
    assert LINK_PATH[..2] == LINK_PATH;
    assert |fs.names| == 2;
  }

  lemma ChainOpened(l: FS.Limits)
    requires FS.Coherent(Chained(l)) && l.handles >= 2
    ensures FS.Step(Chained(l), FS.OpenOp(CHAIN_PATH, PLAINLY)) ==
            Ok((Chained(l).(open := map[0 := Handle(1, 0), 1 := Handle(2, 0)]), FS.Reply(1, [])))
  {
    var fs := Chained(l);
    assert FS.Least(fs.open.Keys, 0, l.handles) == FS.Least(fs.open.Keys, 1, l.handles) == 1;
    assert fs.open[1 := Handle(2, 0)] == map[0 := Handle(1, 0), 1 := Handle(2, 0)];
  }

  lemma ChainSeen(t: State, l: FS.Limits)
    requires TablesOk(t) && Abs(t) == Chained(l).(open := map[0 := Handle(1, 0), 1 := Handle(2, 0)])
    ensures ValidHandle(t, 1) && 0 <= t.handles[1].inum < |t.inodes|
    ensures t.inodes[t.handles[1].inum].kind.TSoftLink?
  {
    HandleSeen(t, 1);
  }

  /** Create "/f", link "/l" to it softly, and "/m" to "/l": opening "/m" gives a handle on the
      inode of "/l", a soft link. */
  lemma OpeningAChain(memory: State) returns (s: State, t: State)
    requires Roomy(memory, 4, 3, 1, 2)
    ensures Leaves(memory, [CREATING] + [LINKING] + [CHAINING], s)
    ensures Runs.Step(s, FS.OpenOp(CHAIN_PATH, PLAINLY)) == Ok((t, FS.Reply(1, [])))
    ensures Shape(t) && ValidHandle(t, 1) && 0 <= t.handles[1].inum < |t.inodes|
    ensures t.inodes[t.handles[1].inum].kind.TSoftLink?
  {
    var l := LimitsOf(memory);
    LeadsNowhere(memory, 4, 3, 1, 2);
    LeadsToChain(memory);
    ChainOpened(l);
    s, t := GoesOn(memory, [CREATING] + [LINKING] + [CHAINING], Chained(l), FS.OpenOp(CHAIN_PATH, PLAINLY),
                   Chained(l).(open := map[0 := Handle(1, 0), 1 := Handle(2, 0)]), FS.Reply(1, []));
    ChainSeen(t, l);
  }

  lemma LongOpened(l: FS.Limits, path: CString) returns (next: FS.Fs)
    requires ValidPath(path) && |path| == MAX_FILE_NAME && FS.Coherent(WithLink(l, path, [])) && l.handles >= 2
    ensures FS.Step(WithLink(l, path, []), FS.OpenOp(LINK_PATH, PLAINLY)) ==
            Ok((WithLink(l, path, []), FS.Reply(-1, [])))
    ensures FS.Step(WithLink(l, path, []), FS.OpenOp(path, PLAINLY)) == Ok((next, FS.Reply(1, [])))
  {
    var fs := WithLink(l, path, []);
    assert |path[..39][1..]| == 38 && |path[1..]| == 39 && |LINK_PATH[1..]| == 1;
    assert FS.Least(fs.open.Keys, 0, l.handles) == FS.Least(fs.open.Keys, 1, l.handles) == 1;
    next := FS.Open(fs, path, PLAINLY).0;
  }

  /** Create a file whose name has 39 bytes, the most there can be, and link "/l" to it softly: the
      file can be opened, but not through the link, which stores a path that was cut. */
  lemma LinkingALongName(memory: State, path: CString) returns (s: State, t: State, u: State)
    requires Roomy(memory, 3, 2, 1, 2) && ValidPath(path) && |path| == MAX_FILE_NAME
    ensures Leaves(memory, [FS.OpenOp(path, CREATE)] + [FS.SymLinkOp(path, LINK_PATH)], s)
    ensures Runs.Step(s, FS.OpenOp(LINK_PATH, PLAINLY)) == Ok((t, FS.Reply(-1, [])))
    ensures Runs.Step(s, FS.OpenOp(path, PLAINLY)) == Ok((u, FS.Reply(1, [])))
  {
    var l := LimitsOf(memory);
    LeadsNowhere(memory, 3, 2, 1, 2);
    assert |path[1..]| == 39 && |LINK_PATH[1..]| == 1;
    LeadsToLink(memory, path);
    var next := LongOpened(l, path);
    var fs := WithLink(l, path, []);
    s, t, u := GoesTwoWays(memory, [FS.OpenOp(path, CREATE)] + [FS.SymLinkOp(path, LINK_PATH)], fs,
                           FS.OpenOp(LINK_PATH, PLAINLY), fs, FS.Reply(-1, []),
                           FS.OpenOp(path, PLAINLY), next, FS.Reply(1, []));
  }

  // ---------- a full handle table ----------

  lemma CreatedInVain(l: FS.Limits)
    requires Ample(l, 3, 2, 1, 1) && l.handles == 1 && FS.Coherent(WithFile(l, FILE_PATH, []))
    ensures var r := FS.Step(WithFile(l, FILE_PATH, []), FS.OpenOp(OTHER_PATH, CREATE));
            r.Ok? && r.value.1 == FS.Reply(-1, []) && FS.Bound(r.value.0, OTHER_PATH)
  {
    var fs := WithFile(l, FILE_PATH, []);
    assert FS.Least(fs.nodes.Keys, 1, l.inodes) == FS.Least(fs.nodes.Keys, 2, l.inodes) == 2;
    assert FS.Least(fs.open.Keys, 0, l.handles) == FS.Least(fs.open.Keys, 1, l.handles) == -1;
    assert FS.CanName(fs, OTHER_PATH[1..]);
  }

  /** With one handle, create "/f" and then "/g": the second open returns -1, yet "/g" is there. */
  lemma CreatingInVain(memory: State) returns (s: State, t: State)
    requires Roomy(memory, 3, 2, 1, 1) && |memory.handles| == 1
    ensures Leaves(memory, [CREATING], s) && Runs.Step(s, FS.OpenOp(OTHER_PATH, CREATE)) == Ok((t, FS.Reply(-1, [])))
    ensures NamesOk(t) && FS.Bound(Abs(t), OTHER_PATH)
  {
    var l := LimitsOf(memory);
    LeadsNowhere(memory, 3, 2, 1, 1);
    LeadsToFile(memory, FILE_PATH);
    CreatedInVain(l);
    var fs := WithFile(l, FILE_PATH, []);
    s, t := GoesOn(memory, [CREATING], fs, FS.OpenOp(OTHER_PATH, CREATE),
                   FS.Step(fs, FS.OpenOp(OTHER_PATH, CREATE)).value.0, FS.Reply(-1, []));
  }
}
