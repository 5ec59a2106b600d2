/** The file system a client sees: names, file contents and open handles. Inumbers are
    file identities; blocks, bitmaps and directory records do not appear, except as
    limits on how much fits. */
module FileSystem {
  import opened Base
  import opened Tables
  import opened Operations

  datatype Kind = File | SoftLink(target: CString)
  datatype Node = Node(kind: Kind, content: seq<Byte>)
  datatype Limits = Limits(inodes: nat, names: nat, blocks: nat, handles: nat, blockSize: SizeT)

  datatype Fs = Fs(names: map<CString, int>, nodes: map<int, Node>, open: map<int, Handle>, limits: Limits)

  datatype Op =
    | OpenOp(path: CString, mode: Mode)
    | CloseOp(handle: int)
    | WriteOp(handle: int, buffer: seq<Byte>)
    | ReadOp(handle: int, len: SizeT)
    | LinkOp(target: CString, link: CString)
    | SymLinkOp(target: CString, link: CString)
    | UnlinkOp(path: CString)

  /** What a call returns, with the bytes a read copies out. */
  datatype Reply = Reply(value: int, data: seq<Byte>)

  predicate NodeOk(fs: Fs, n: int) {
    0 < n && n in fs.nodes && |fs.nodes[n].content| <= fs.limits.blockSize
  }

  predicate HandleOk(fs: Fs, h: int)
    requires h in fs.open
  {
    NodeOk(fs, fs.open[h].inum) && fs.open[h].offset <= |fs.nodes[fs.open[h].inum].content|
  }

  /** Names and handles refer to existing files, and no offset is past its file's end. */
  predicate Coherent(fs: Fs) {
    && (forall n :: n in fs.nodes ==> NodeOk(fs, n))
    && (forall name :: name in fs.names ==> fs.names[name] in fs.nodes)
    && (forall h :: h in fs.open ==> HandleOk(fs, h))
  }

  /** A client's path: '/' and a name. */
  predicate IsPath(path: CString) {
    |path| >= 2 && path[0] == 47
  }

  predicate Bound(fs: Fs, path: CString) {
    IsPath(path) && path[1..] in fs.names
  }

  function Target(fs: Fs, path: CString): int
    requires Bound(fs, path)
  {
    fs.names[path[1..]]
  }

  /** The least number from i up to the limit that is not in use, or -1. */
  function Least(used: set<int>, i: nat, limit: nat): (r: int)
    ensures r == -1 || (i <= r < limit && r !in used)
    ensures forall j :: i <= j < (if r == -1 then limit else r) ==> j in used
    decreases limit - i
  {
    if i >= limit then -1 else if i !in used then i else Least(used, i + 1, limit)
  }

  function NewFile(fs: Fs): int {
    Least(fs.nodes.Keys, 1, fs.limits.inodes)
  }

  function NewHandle(fs: Fs): int {
    Least(fs.open.Keys, 0, fs.limits.handles)
  }

  predicate CanName(fs: Fs, name: CString) {
    1 <= |name| < MAX_FILE_NAME && |fs.names| < fs.limits.names
  }

  function NonEmpty(nodes: map<int, Node>): set<int> {
    set n | n in nodes && nodes[n].content != []
  }

  /** The root directory and every non-empty file take one block each. */
  predicate BlocksFull(fs: Fs) {
    1 + |NonEmpty(fs.nodes)| >= fs.limits.blocks
  }

  function SetContent(fs: Fs, n: int, content: seq<Byte>): Fs
    requires n in fs.nodes
  {
    fs.(nodes := fs.nodes[n := fs.nodes[n].(content := content)])
  }

  function Overwrite(content: seq<Byte>, at: nat, bytes: seq<Byte>): (r: seq<Byte>)
    requires at <= |content|
    ensures |r| == if at + |bytes| > |content| then at + |bytes| else |content|
  {
    content[..at] + bytes + if at + |bytes| < |content| then content[at + |bytes|..] else []
  }

  // ---------- operations ----------

  function AddOpen(fs: Fs, n: int, offset: SizeT): (Fs, int) {
    var h := NewHandle(fs);
    if h == -1 then (fs, -1) else (fs.(open := fs.open[h := Handle(n, offset)]), h)
  }

  /** The file that opening a bound path opens: soft links are followed once. */
  function Resolve(fs: Fs, n: int): int
    requires n in fs.nodes
  {
    match fs.nodes[n].kind
    case File => n
    case SoftLink(target) => if Bound(fs, target) then Target(fs, target) else -1
  }

  function Truncated(fs: Fs, n: int, mode: Mode): Fs
    requires n in fs.nodes
  {
    if mode.trunc then SetContent(fs, n, []) else fs
  }

  function StartOffset(fs: Fs, n: int, mode: Mode): SizeT
    requires NodeOk(fs, n)
  {
    if mode.append && !mode.trunc then |fs.nodes[n].content| else 0
  }

  function Open(fs: Fs, path: CString, mode: Mode): (Fs, int)
    requires Bound(fs, path) ==> NodeOk(fs, Target(fs, path))
  {
    if Bound(fs, path) then
      var n := Target(fs, path);
      var dest := Resolve(fs, n);
      if dest == -1 then (fs, -1) else AddOpen(Truncated(fs, n, mode), dest, StartOffset(fs, n, mode))
    else if IsPath(path) && mode.creat && NewFile(fs) != -1 && CanName(fs, path[1..]) then
      AddOpen(Bind(fs, path[1..], NewFile(fs), File), NewFile(fs), 0)
    else (fs, -1)
  }

  /** A new empty node under a new name. */
  function Bind(fs: Fs, name: CString, n: int, kind: Kind): Fs {
    fs.(names := fs.names[name := n], nodes := fs.nodes[n := Node(kind, [])])
  }

  /** tfs_link makes its link: the target is a file and one more name fits. */
  predicate CanLink(fs: Fs, target: CString, link: CString)
    requires |link| > 0
  {
    && Bound(fs, target) && Target(fs, target) in fs.nodes && fs.nodes[Target(fs, target)].kind.File?
    && CanName(fs, link[1..])
  }

  function Link(fs: Fs, target: CString, link: CString): (Fs, int)
    requires |link| > 0
  {
    if CanLink(fs, target, link) then
      (fs.(names := fs.names[link[1..] := Target(fs, target)]), 0)
    else (fs, -1)
  }

  predicate CanSymLink(fs: Fs, target: CString, link: CString)
    requires |link| > 0
  {
    Bound(fs, target) && NewFile(fs) != -1 && CanName(fs, link[1..])
  }

  /** The link keeps the first 39 bytes of the text it is given. */
  function SymLink(fs: Fs, target: CString, link: CString): (Fs, int)
    requires |link| > 0
  {
    if CanSymLink(fs, target, link) then
      (Bind(fs, link[1..], NewFile(fs), SoftLink(target[..Min(|target|, MAX_FILE_NAME - 1)])), 0)
    else (fs, -1)
  }

  function Close(fs: Fs, h: int): (Fs, int) {
    if h in fs.open then (fs.(open := fs.open - {h}), 0) else (fs, -1)
  }

  /** Handle h moves on by count bytes. */
  function Advance(fs: Fs, h: int, count: nat): Fs
    requires h in fs.open && fs.open[h].offset + count < SIZE_T
  {
    fs.(open := fs.open[h := Handle(fs.open[h].inum, fs.open[h].offset + count)])
  }

  /** The bytes land in the handle's file at the handle's offset, and the handle moves on. */
  function Wrote(fs: Fs, h: int, bytes: seq<Byte>): Fs
    requires h in fs.open && HandleOk(fs, h) && fs.open[h].offset + |bytes| < SIZE_T
  {
    var n := fs.open[h].inum;
    Advance(fs, h, |bytes|).(nodes :=
      fs.nodes[n := fs.nodes[n].(content := Overwrite(fs.nodes[n].content, fs.open[h].offset, bytes))])
  }

  function WriteCount(fs: Fs, h: int, buffer: seq<Byte>): (r: int)
    requires h in fs.open && HandleOk(fs, h)
    ensures 0 <= r <= |buffer| && fs.open[h].offset + r <= fs.limits.blockSize
  {
    Min(|buffer|, fs.limits.blockSize - fs.open[h].offset)
  }

  function Write(fs: Fs, h: int, buffer: seq<Byte>): (Fs, int)
    requires h in fs.open ==> HandleOk(fs, h)
  {
    if h !in fs.open then (fs, -1)
    else if WriteCount(fs, h, buffer) == 0 then (fs, 0)
    else if fs.nodes[fs.open[h].inum].content == [] && BlocksFull(fs) then (fs, -1)
    else (Wrote(fs, h, buffer[..WriteCount(fs, h, buffer)]), WriteCount(fs, h, buffer))
  }

  function ReadCount(fs: Fs, h: int, len: SizeT): (r: int)
    requires h in fs.open && HandleOk(fs, h)
    ensures 0 <= r && fs.open[h].offset + r <= |fs.nodes[fs.open[h].inum].content|
  {
    Min(len, |fs.nodes[fs.open[h].inum].content| - fs.open[h].offset)
  }

  function Read(fs: Fs, h: int, len: SizeT): (Fs, Reply)
    requires h in fs.open ==> HandleOk(fs, h)
  {
    if h !in fs.open then (fs, Reply(-1, []))
    else
      var at, count := fs.open[h].offset, ReadCount(fs, h, len);
      (Advance(fs, h, count), Reply(count, fs.nodes[fs.open[h].inum].content[at..at + count]))
  }

  predicate LastName(fs: Fs, name: CString)
    requires name in fs.names
  {
    forall other :: other in fs.names && other != name ==> fs.names[other] != fs.names[name]
  }

  /** The file goes with its last name. Unlinking a soft link aborts. */
  function Unlink(fs: Fs, path: CString): Outcome<(Fs, int)>
    requires Bound(fs, path) ==> NodeOk(fs, Target(fs, path))
  {
    if !Bound(fs, path) then Ok((fs, -1))
    else if fs.nodes[Target(fs, path)].kind.SoftLink? then Abort
    else
      var nodes := if LastName(fs, path[1..]) then fs.nodes - {Target(fs, path)} else fs.nodes;
      Ok((fs.(names := fs.names - {path[1..]}, nodes := nodes), 0))
  }

  predicate WellFormed(op: Op) {
    op.LinkOp? || op.SymLinkOp? ==> |op.link| > 0
  }

  /** A call with the arguments C requires. */
  type Call = op: Op | WellFormed(op) witness CloseOp(0)

  function Plain(r: (Fs, int)): Outcome<(Fs, Reply)> {
    Ok((r.0, Reply(r.1, [])))
  }

  function Step(fs: Fs, op: Op): Outcome<(Fs, Reply)>
    requires Coherent(fs) && WellFormed(op)
  {
    match op
    case OpenOp(path, mode) => Plain(Open(fs, path, mode))
    case CloseOp(h) => Plain(Close(fs, h))
    case WriteOp(h, buffer) => Plain(Write(fs, h, buffer))
    case ReadOp(h, len) => Ok(Read(fs, h, len))
    case LinkOp(target, link) => Plain(Link(fs, target, link))
    case SymLinkOp(target, link) => Plain(SymLink(fs, target, link))
    case UnlinkOp(path) => var r :- Unlink(fs, path); Plain(r)
  }

  // ---------- what a client must respect ----------

  /** No handle on file n stands past its first byte. */
  predicate NoneAdvanced(fs: Fs, n: int) {
    forall h :: h in fs.open && fs.open[h].inum == n ==> fs.open[h].offset == 0
  }

  predicate NoneOpen(fs: Fs, n: int) {
    forall h :: h in fs.open ==> fs.open[h].inum != n
  }

  /** Truncation must not pass under an advanced handle, and an append through a soft link
      must not start past the end of the file it leads to. */
  predicate SafeOpen(fs: Fs, path: CString, mode: Mode)
    requires Coherent(fs)
  {
    Bound(fs, path) && Resolve(fs, Target(fs, path)) != -1 ==>
      var n := Target(fs, path);
      var dest := Resolve(fs, n);
      && (mode.trunc ==> NoneAdvanced(fs, n))
      && (NewHandle(fs) != -1 ==> StartOffset(fs, n, mode) <= |fs.nodes[dest].content|)
  }

  /** A file's last name must not go while the file is open. */
  predicate SafeUnlink(fs: Fs, path: CString) {
    Bound(fs, path) && LastName(fs, path[1..]) ==> NoneOpen(fs, Target(fs, path))
  }

  predicate Safe(fs: Fs, op: Op)
    requires Coherent(fs)
  {
    match op
    case OpenOp(path, mode) => SafeOpen(fs, path, mode)
    case UnlinkOp(path) => SafeUnlink(fs, path)
    case _ => true
  }

  /** The call does not make a link under a name that is already bound. */
  predicate Fresh(fs: Fs, op: Op)
    requires WellFormed(op)
  {
    match op
    case LinkOp(target, link) => !(CanLink(fs, target, link) && link[1..] in fs.names)
    case SymLinkOp(target, link) => !(CanSymLink(fs, target, link) && link[1..] in fs.names)
    case _ => true
  }

  lemma TruncatedCoherence(fs: Fs, n: int, mode: Mode)
    requires Coherent(fs) && n in fs.nodes
    ensures Coherent(Truncated(fs, n, mode)) <==> (mode.trunc ==> NoneAdvanced(fs, n))
  {
  }

  lemma OpenCoherence(fs: Fs, path: CString, mode: Mode)
    requires Coherent(fs)
    ensures Coherent(Open(fs, path, mode).0) <==> SafeOpen(fs, path, mode)
  {
    if Bound(fs, path) {
      var n := Target(fs, path);
      var dest := Resolve(fs, n);
      if dest != -1 {
        TruncatedCoherence(fs, n, mode);
        AddOpenCoherence(Truncated(fs, n, mode), dest, StartOffset(fs, n, mode));
      }
    } else if IsPath(path) && mode.creat && NewFile(fs) != -1 && CanName(fs, path[1..]) {
      BindCoherence(fs, path[1..], NewFile(fs), File);
      AddOpenCoherence(Bind(fs, path[1..], NewFile(fs), File), NewFile(fs), 0);
    }
  }

  lemma BindCoherence(fs: Fs, name: CString, n: int, kind: Kind)
    requires Coherent(fs) && n > 0 && n !in fs.nodes
    ensures Coherent(Bind(fs, name, n, kind))
  {
  }

  lemma AddOpenCoherence(fs: Fs, n: int, offset: SizeT)
    requires n in fs.nodes
    ensures Coherent(AddOpen(fs, n, offset).0) <==>
            Coherent(fs) && (NewHandle(fs) != -1 ==> offset <= |fs.nodes[n].content|)
  {
    var h := NewHandle(fs);
    if h != -1 {
      var fs' := AddOpen(fs, n, offset).0;
      assert h !in fs.open && h in fs'.open;
      assert forall g :: g in fs.open ==> g in fs'.open && fs'.open[g] == fs.open[g];
    }
  }

  lemma UnlinkCoherence(fs: Fs, path: CString)
    requires Coherent(fs) && Unlink(fs, path).Ok?
    ensures Coherent(Unlink(fs, path).value.0) <==> SafeUnlink(fs, path)
  {
  }

  lemma WriteCoherence(fs: Fs, h: int, buffer: seq<Byte>)
    requires Coherent(fs)
    ensures Coherent(Write(fs, h, buffer).0)
  {
  }

  lemma NamingCoherence(fs: Fs, target: CString, link: CString)
    requires Coherent(fs) && |link| > 0
    ensures Coherent(Link(fs, target, link).0) && Coherent(SymLink(fs, target, link).0)
  {
  }

  lemma HandleCoherence(fs: Fs, h: int, len: SizeT)
    requires Coherent(fs)
    ensures Coherent(Close(fs, h).0) && Coherent(Read(fs, h, len).0)
  {
  }

  /** Coherent file systems stay so exactly under safe calls. */
  lemma CoherentIffSafe(fs: Fs, op: Op)
    requires Coherent(fs) && WellFormed(op)
    ensures Step(fs, op).Ok? ==> (Coherent(Step(fs, op).value.0) <==> Safe(fs, op))
  {
    match op
    case OpenOp(path, mode) => OpenCoherence(fs, path, mode);
    case UnlinkOp(path) => if Unlink(fs, path).Ok? { UnlinkCoherence(fs, path); }
    case WriteOp(h, buffer) => WriteCoherence(fs, h, buffer);
    case ReadOp(h, len) => HandleCoherence(fs, h, len);
    case CloseOp(h) => HandleCoherence(fs, h, 0);
    case LinkOp(target, link) => NamingCoherence(fs, target, link);
    case SymLinkOp(target, link) => NamingCoherence(fs, target, link);
  }

  // ---------- runs ----------

  function Empty(limits: Limits): Fs {
    Fs(map[], map[], map[], limits)
  }

  /** Every call of the run is safe and gives links new names. */
  ghost predicate Allowed(fs: Fs, ops: seq<Call>)
    requires Coherent(fs)
    decreases |ops|
  {
    ops == [] ||
    (Safe(fs, ops[0]) && Fresh(fs, ops[0]) &&
     (Step(fs, ops[0]).Ok? ==> (CoherentIffSafe(fs, ops[0]); Allowed(Step(fs, ops[0]).value.0, ops[1..]))))
  }

  ghost function Run(fs: Fs, ops: seq<Call>): Outcome<(Fs, seq<Reply>)>
    requires Coherent(fs) && Allowed(fs, ops)
    decreases |ops|
  {
    if ops == [] then Ok((fs, []))
    else
      (CoherentIffSafe(fs, ops[0]);
       var (next, reply) :- Step(fs, ops[0]);
       var (last, replies) :- Run(next, ops[1..]);
       Ok((last, [reply] + replies)))
  }

  /** A run that has begun goes on as a run. */
  lemma RunRest(fs: Fs, ops: seq<Call>, last: Fs, replies: seq<Reply>)
    requires Coherent(fs) && ops != [] && Allowed(fs, ops) && Run(fs, ops) == Ok((last, replies))
    ensures Step(fs, ops[0]).Ok? && Safe(fs, ops[0]) && Fresh(fs, ops[0])
    ensures var (next, reply) := Step(fs, ops[0]).value;
            && Coherent(next) && Allowed(next, ops[1..]) && replies == [reply] + replies[1..]
            && Run(next, ops[1..]) == Ok((last, replies[1..]))
  {
    CoherentIffSafe(fs, ops[0]);
  }

  /** One run after another is one run. */
  lemma {:induction false} RunThen(fs: Fs, first: seq<Call>, mid: Fs, replies: seq<Reply>, second: seq<Call>)
    requires Coherent(fs) && Allowed(fs, first) && Run(fs, first) == Ok((mid, replies))
    requires Coherent(mid) && Allowed(mid, second) && Run(mid, second).Ok?
    ensures Allowed(fs, first + second)
    ensures Run(fs, first + second) == Ok((Run(mid, second).value.0, replies + Run(mid, second).value.1))
    decreases |first|
  {
    if first == [] {
      assert first + second == second;
      assert replies + Run(mid, second).value.1 == Run(mid, second).value.1;
    } else {
      RunRest(fs, first, mid, replies);
      var (next, reply) := Step(fs, first[0]).value;
      var rest, more := first[1..] + second, Run(mid, second).value.1;
      RunThen(next, first[1..], mid, replies[1..], second);
      RunCons(fs, first[0], rest, next, reply);
      TailOfSum(first, second);
      TailOfSum(replies, more);
    }
  }

  /** A run is its first call and the run that follows. */
  lemma RunCons(fs: Fs, op: Call, ops: seq<Call>, next: Fs, reply: Reply)
    requires Coherent(fs) && Safe(fs, op) && Fresh(fs, op) && Step(fs, op) == Ok((next, reply))
    requires Coherent(next) && Allowed(next, ops)
    ensures Allowed(fs, [op] + ops)
    ensures Run(next, ops).Abort? <==> Run(fs, [op] + ops).Abort?
    ensures Run(next, ops).Ok? ==>
              Run(fs, [op] + ops) == Ok((Run(next, ops).value.0, [reply] + Run(next, ops).value.1))
  {
  }
}
