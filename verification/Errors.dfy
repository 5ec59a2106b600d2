/** What calls that cannot succeed return, in every state of the tables, stated without the operations'
    own tests. */
module Errors {
  import opened Base
  import opened Layout
  import opened Tables
  import opened Directory
  import opened Invariants
  import opened Operations
  import opened Simulation
  import opened ExternalCopy
  import opened Runs
  import opened Locked
  import FS = FileSystem

  // ---------- paths ----------

  /** A path that is no '/' and a name: nothing is opened, created, linked to or removed. Only tfs_open
      and Projeto2's tfs_unlink look at the path before they look for the root's inode. */
  lemma BadPath(s: State, path: CString, mode: Mode, link: CString, chunks: seq<Chunk>)
    requires Shape(s) && (|path| < 2 || path[0] != 47) && |link| > 0
    ensures Open(s, path, mode) == Ok((s, -1)) && OpenPlain(s, path, mode) == Ok((s, -1))
    ensures UnlinkPlain(s, path) == Ok((s, -1)) && Copy(s, true, chunks, path) == Ok((s, -1))
    ensures Unlink(s, path) == Link(s, path, link) == SymLink(s, path, link) ==
            if |s.inodes| == 0 then Abort else Ok((s, -1))
    ensures forall fs: FS.Fs :: !FS.Bound(fs, path)
  {
  }

  /** '/' and a name, however short: what is looked for is exactly that name, and the first record that
      has it is found. */
  lemma GoodPath(s: State, path: CString, name: CString)
    requires NamesOk(s) && |name| > 0 && path == [47] + name
    ensures var dir, r := RootDir(s), Lookup(s, 0, path);
            && r.Ok?
            && (r.value == -1 <==> forall k :: 0 <= k < |dir| && Live(dir[k]) ==> NameOf(dir[k]) != name)
            && (r.value != -1 ==>
                 exists k :: 0 <= k < |dir| && Live(dir[k]) && NameOf(dir[k]) == name && dir[k].inum == r.value
                             && forall i :: 0 <= i < k && Live(dir[i]) ==> NameOf(dir[i]) != name)
  {
    var dir := RootDir(s);
    assert path[1..] == name;
    FindFinds(dir, |s.inodes|, name);
    forall k | 0 <= k < |dir| && Live(dir[k]) && NameOf(dir[k]) == name ensures name in LiveNames(dir) {}
  }

  // ---------- names ----------

  /** A new name of no byte or of more than 39 bytes: nothing gets it. Nothing is asked of the byte before it. */
  lemma BadName(s: State, target: CString, link: CString)
    requires NamesOk(s) && |link| > 0 && (|link| == 1 || |link| > 40)
    ensures Link(s, target, link) == Ok((s, -1))
    ensures SymLink(s, target, link).Ok? && SymLink(s, target, link).value.1 == -1
    ensures RootOk(SymLink(s, target, link).value.0) && Abs(SymLink(s, target, link).value.0) == Abs(s)
  {
    LookupAgrees(s, target);
    NewFileAgrees(s);
    var n := First(s.inodeBits, IsFree, 0);
    if FS.Bound(Abs(s), target) {
      BoundFacts(s, target);
      LinkUnfolds(s, target, link, FS.Target(Abs(s), target));
    }
    if FS.Bound(Abs(s), target) && n != -1 {
      SymLinkUnfolds(s, target, link, n);
      assert IsFree(s.inodeBits[n]);
      FreeInodeHidden(s, n, LinkNode(s, n, target));
    } else {
      SymLinkTrivial(s, target, link);
    }
  }

  /** The first byte of a link's name is skipped unseen. */
  lemma LinkNameSkipsOne(s: State, target: CString, name: CString, a: Char, b: Char)
    requires Shape(s)
    ensures Link(s, target, [a] + name) == Link(s, target, [b] + name)
    ensures SymLink(s, target, [a] + name) == SymLink(s, target, [b] + name)
  {
    assert ([a] + name)[1..] == name && ([b] + name)[1..] == name;
  }

  // ---------- handles ----------

  /** A handle that is out of range or not open. */
  lemma BadHandle(s: State, h: int, buffer: seq<Byte>, len: SizeT)
    requires Shape(s) && (h < 0 || h >= |s.handles| || !s.handleBits[h])
    ensures Close(s, h) == (s, -1) && Write(s, h, buffer) == Ok((s, -1)) && Read(s, h, len) == Ok((s, -1, []))
  {
  }

  /** Closing succeeds exactly on open handles, and closes that one only. */
  lemma CloseReplies(s: State, h: int)
    requires Shape(s)
    ensures Close(s, h).1 == if 0 <= h < |s.handles| && s.handleBits[h] then 0 else -1
    ensures forall g :: 0 <= g < |s.handles| ==>
              (Close(s, h).0.handleBits[g] <==> g != h && s.handleBits[g]) && Close(s, h).0.handles[g] == s.handles[g]
  {
  }

  /** No open of the run returned h. */
  ghost predicate NeverReturned(ops: seq<FS.Call>, replies: seq<FS.Reply>, h: int) {
    |replies| == |ops| && forall i :: 0 <= i < |ops| && ops[i].OpenOp? ==> replies[i].value != h
  }

  lemma OpenLeavesClosed(s: State, path: CString, mode: Mode, h: int)
    requires Shape(s) && !ValidHandle(s, h) && Open(s, path, mode).Ok? && Open(s, path, mode).value.1 != h
    ensures !ValidHandle(Open(s, path, mode).value.0, h)
  {
  }

  lemma WriteLeavesClosed(s: State, h: int, buffer: seq<Byte>)
    requires Shape(s) && Write(s, h, buffer).Ok?
    ensures Write(s, h, buffer).value.0.handleBits == s.handleBits
  {
  }

  lemma ReadLeavesClosed(s: State, h: int, len: SizeT)
    requires Shape(s) && Read(s, h, len).Ok?
    ensures Read(s, h, len).value.0.handleBits == s.handleBits
  {
  }

  lemma LinksLeaveHandles(s: State, target: CString, link: CString)
    requires Shape(s) && |link| > 0
    ensures Link(s, target, link).Ok? ==> Link(s, target, link).value.0.handleBits == s.handleBits
    ensures SymLink(s, target, link).Ok? ==> SymLink(s, target, link).value.0.handleBits == s.handleBits
  {
  }

  lemma UnlinkLeavesHandles(s: State, path: CString)
    requires Shape(s) && Unlink(s, path).Ok?
    ensures Unlink(s, path).value.0.handleBits == s.handleBits
  {
  }

  lemma StepLeavesClosed(s: State, op: FS.Call, h: int)
    requires Shape(s) && !ValidHandle(s, h) && Step(s, op).Ok?
    requires op.OpenOp? ==> Step(s, op).value.1.value != h
    ensures !ValidHandle(Step(s, op).value.0, h)
  {
    match op
    case OpenOp(path, mode) => OpenLeavesClosed(s, path, mode, h);
    case CloseOp(g) =>
    case WriteOp(g, buffer) => WriteLeavesClosed(s, g, buffer);
    case ReadOp(g, len) => ReadLeavesClosed(s, g, len);
    case LinkOp(target, link) => LinksLeaveHandles(s, target, link);
    case SymLinkOp(target, link) => LinksLeaveHandles(s, target, link);
    case UnlinkOp(path) => UnlinkLeavesHandles(s, path);
  }

  lemma {:induction false} RunLeavesClosed(s: State, ops: seq<FS.Call>, h: int)
    requires Shape(s) && !ValidHandle(s, h) && Run(s, ops).Ok? && NeverReturned(ops, Run(s, ops).value.1, h)
    ensures !ValidHandle(Run(s, ops).value.0, h)
    decreases |ops|
  {
    if ops == [] {
    } else {
      var (next, reply) := Step(s, ops[0]).value;
      var rest := Run(next, ops[1..]).value.1;
      assert Run(s, ops).value.1 == [reply] + rest;
      StepLeavesClosed(s, ops[0], h);
      assert forall i :: 0 <= i < |rest| ==> rest[i] == ([reply] + rest)[i + 1] && ops[1..][i] == ops[i + 1];
      RunLeavesClosed(next, ops[1..], h);
    }
  }

  /** After a handle was closed, whatever is called in between: until an open returns it again, every
      close, write and read through it returns -1 and changes nothing. */
  lemma ClosedStaysClosed(s: State, h: int, ops: seq<FS.Call>, buffer: seq<Byte>, len: SizeT)
    requires Shape(s) && Close(s, h).1 == 0
    requires Run(Close(s, h).0, ops).Ok? && NeverReturned(ops, Run(Close(s, h).0, ops).value.1, h)
    ensures var t := Run(Close(s, h).0, ops).value.0;
            && Step(t, FS.CloseOp(h)) == Step(t, FS.WriteOp(h, buffer)) == Step(t, FS.ReadOp(h, len))
            && Step(t, FS.CloseOp(h)) == Ok((t, FS.Reply(-1, [])))
  {
    RunLeavesClosed(Close(s, h).0, ops, h);
    BadHandle(Run(Close(s, h).0, ops).value.0, h, buffer, len);
  }

  // ---------- copying ----------

  /** A source that cannot be opened. */
  lemma NoSource(s: State, chunks: seq<Chunk>, dest: CString)
    requires Shape(s)
    ensures Copy(s, false, chunks, dest) == Ok((s, -1))
  {
  }

  // ---------- tables out of order ----------

  /** On an inode that is no directory. */
  lemma NotADirectory(s: State, dir: nat, name: CString, n: int)
    requires Shape(s) && dir < |s.inodes| && s.inodes[dir].kind != TDirectory
    ensures FindInDir(s, dir, name) == Ok(-1)
    ensures AddDirEntry(s, dir, name, n) == ClearDirEntry(s, dir, name) == Ok((s, -1))
  {
  }

  /** The assertions of state.c. */
  lemma FailedAssertions(s: State, n: int, b: int)
    requires Shape(s)
    ensures InodeGet(s, n).Abort? <==> n < 0 || n >= |s.inodes|
    ensures DataBlockFree(s, b).Abort? <==> b < 0 || b >= |s.blocks|
    ensures InodeDelete(s, n).Abort? <==>
            || n < 0 || n >= |s.inodes| || !s.inodeBits[n]
            || (s.inodes[n].size > 0 && (s.inodes[n].block < 0 || s.inodes[n].block >= |s.blocks|))
  {
  }
}
