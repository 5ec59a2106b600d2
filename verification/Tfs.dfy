/** Projeto1/fs/operations.c on the tables in memory: each call does what Operations says. */
module Tfs {
  import opened Base
  import opened Layout
  import opened Tables
  import opened Store
  import opened Operations
  import opened ExternalCopy
  import Invariants
  import Directory
  import Runs
  import FS = FileSystem

  /** tfs_init on newly allocated tables. */
  method InitTables(inodes: nat, blocks: nat, handles: nat, size: SizeT) returns (d: Disk, r: int)
    requires 0 < size && inodes <= INT_MAX && blocks <= INT_MAX && handles <= INT_MAX
    requires blocks * size <= PTRDIFF_MAX
    ensures d.Valid() && fresh(d) && fresh(d.Repr())
    ensures r == 0 || r == -1
    ensures r == 0 <==> inodes > 0 && blocks > 0
    ensures r == 0 ==> && Invariants.Inv(d.Snapshot()) && Directory.Distinct(Invariants.RootDir(d.Snapshot()))
                       && Invariants.Abs(d.Snapshot()) ==
                          FS.Empty(FS.Limits(inodes, size / ENTRY_SIZE, blocks, handles, size))
  {
    d := new Disk(inodes, blocks, handles, size);
    ghost var memory := d.Snapshot();
    var root := d.InodeCreate(TDirectory);
    r := if root != ROOT_DIR_INUM then -1 else 0;
    assert Init(memory) == (d.Snapshot(), r);
    Runs.InitEstablishes(memory);
  }

  // ---------- what the client sees ----------

  /** The outcome of a call, with the tables it leaves. */
  function Outcomes<T>(t: State, r: Outcome<T>): Outcome<(State, T)> {
    if r.Ok? then Ok((t, r.value)) else Abort
  }

  /** On good tables, the outcome is that of the client's call on the client's file system. */
  ghost predicate Seen(s: State, op: FS.Call, r: Outcome<(State, FS.Reply)>) {
    Invariants.Inv(s) && Directory.Distinct(Invariants.RootDir(s)) && FS.Fresh(Invariants.Abs(s), op) ==>
      FS.Coherent(Invariants.Abs(s)) && Runs.StepShows(r, FS.Step(Invariants.Abs(s), op))
  }

  lemma StepIsSeen(s: State, op: FS.Call)
    requires Shape(s)
    ensures Seen(s, op, Runs.Step(s, op))
  {
    if Invariants.Inv(s) && Directory.Distinct(Invariants.RootDir(s)) && FS.Fresh(Invariants.Abs(s), op) {
      Runs.StepSimulates(s, op);
    }
  }

  /** On any tables that a run can leave, the outcome is that of a copy as the client sees it. */
  ghost predicate CopyIsSeen(s: State, chunks: seq<Chunk>, dest: CString, r: Outcome<(State, int)>) {
    Invariants.AlwaysOk(s) ==> Copied(s, chunks, dest, CopyFits(s, chunks, dest), r)
  }

  lemma SeeCopy(s: State, chunks: seq<Chunk>, dest: CString)
    requires Shape(s)
    ensures CopyIsSeen(s, chunks, dest, Copy(s, true, chunks, dest))
  {
    if Invariants.AlwaysOk(s) {
      CopyExact(s, chunks, dest);
    }
  }

  // ---------- operations.c ----------

  method FindPath(d: Disk, root: nat, path: CString) returns (r: Outcome<int>)
    requires d.Valid() && root < d.inodeTable.Length
    ensures r == Lookup(d.Snapshot(), root, path)
  {
    if !ValidPath(path) {
      return Ok(-1);
    }
    r := d.FindInDir(root, path[1..]);
  }

  method TruncateFile(d: Disk, n: nat) returns (r: Outcome<bool>)
    requires d.Valid() && n < d.inodeTable.Length
    modifies d.inodeTable, d.blockBits
    ensures r.Ok? <==> Truncate(old(d.Snapshot()), n).Ok?
    ensures r.Ok? ==> d.Snapshot() == Truncate(old(d.Snapshot()), n).value
  {
    if d.inodeTable[n].size > 0 {
      var freed :- d.DataBlockFree(d.inodeTable[n].block);
      d.inodeTable[n] := d.inodeTable[n].(size := 0);
    }
    return Ok(true);
  }

  method OpenFile(d: Disk, path: CString, mode: Mode) returns (r: Outcome<int>)
    requires d.Valid()
    modifies d.Repr()
    ensures r.Ok? <==> Open(old(d.Snapshot()), path, mode).Ok?
    ensures r.Ok? ==> (d.Snapshot(), r.value) == Open(old(d.Snapshot()), path, mode).value
    ensures Seen(old(d.Snapshot()), FS.OpenOp(path, mode), Runs.Plain(Outcomes(d.Snapshot(), r)))
  {
    StepIsSeen(d.Snapshot(), FS.OpenOp(path, mode));
    if !ValidPath(path) {
      return Ok(-1);
    }
    var root :- d.InodeGet(ROOT_DIR_INUM);
    var n :- FindPath(d, root, path);
    if n >= 0 {
      var node :- d.InodeGet(n);
      r := OpenBound(d, root, node, mode);
    } else if mode.creat {
      r := CreateAndOpen(d, root, path);
    } else {
      r := Ok(-1);
    }
  }

  method OpenBound(d: Disk, root: nat, n: nat, mode: Mode) returns (r: Outcome<int>)
    requires d.Valid() && root < d.inodeTable.Length && n < d.inodeTable.Length
    modifies d.Repr()
    ensures r.Ok? <==> OpenExisting(old(d.Snapshot()), root, n, mode).Ok?
    ensures r.Ok? ==> (d.Snapshot(), r.value) == OpenExisting(old(d.Snapshot()), root, n, mode).value
  {
    var inum: int := n;
    if d.inodeTable[n].kind.TSoftLink? {
      inum :- FindPath(d, root, CStr(d.inodeTable[n].target));
      if inum == -1 {
        return Ok(-1);
      }
    }
    if mode.trunc {
      var cut :- TruncateFile(d, n);
    }
    var offset := 0;
    if mode.append {
      offset := d.inodeTable[n].size;
    }
    var h := d.AddToOpenFileTable(inum, offset);
    return Ok(h);
  }

  method CreateAndOpen(d: Disk, root: nat, path: CString) returns (r: Outcome<int>)
    requires d.Valid() && root < d.inodeTable.Length && |path| > 0
    modifies d.Repr()
    ensures r.Ok? <==> CreateFile(old(d.Snapshot()), root, path).Ok?
    ensures r.Ok? ==> (d.Snapshot(), r.value) == CreateFile(old(d.Snapshot()), root, path).value
  {
    var n := d.InodeCreate(TFile);
    if n == -1 {
      return Ok(-1);
    }
    var added :- d.AddDirEntry(root, path[1..], n);
    if added == -1 {
      var deleted :- d.InodeDelete(n);
      return Ok(-1);
    }
    var h := d.AddToOpenFileTable(n, 0);
    return Ok(h);
  }

  method MakeSymLink(d: Disk, target: CString, link: CString) returns (r: Outcome<int>)
    requires d.Valid() && |link| > 0
    modifies d.Repr()
    ensures r.Ok? <==> SymLink(old(d.Snapshot()), target, link).Ok?
    ensures r.Ok? ==> (d.Snapshot(), r.value) == SymLink(old(d.Snapshot()), target, link).value
    ensures Seen(old(d.Snapshot()), FS.SymLinkOp(target, link), Runs.Plain(Outcomes(d.Snapshot(), r)))
  {
    StepIsSeen(d.Snapshot(), FS.SymLinkOp(target, link));
    var root :- d.InodeGet(ROOT_DIR_INUM);
    var found :- FindPath(d, root, target);
    if found == -1 {
      return Ok(-1);
    }
    var n := d.InodeCreate(TSoftLink);
    if n == -1 {
      return Ok(-1);
    }
    d.inodeTable[n] := d.inodeTable[n].(target := NameField(target));
    var added :- d.AddDirEntry(root, link[1..], n);
    if added == -1 {
      var deleted :- d.InodeDelete(n);
      return Ok(-1);
    }
    return Ok(0);
  }

  method MakeLink(d: Disk, target: CString, link: CString) returns (r: Outcome<int>)
    requires d.Valid() && |link| > 0
    modifies d.Repr()
    ensures r.Ok? <==> Link(old(d.Snapshot()), target, link).Ok?
    ensures r.Ok? ==> (d.Snapshot(), r.value) == Link(old(d.Snapshot()), target, link).value
    ensures Seen(old(d.Snapshot()), FS.LinkOp(target, link), Runs.Plain(Outcomes(d.Snapshot(), r)))
  {
    StepIsSeen(d.Snapshot(), FS.LinkOp(target, link));
    var root :- d.InodeGet(ROOT_DIR_INUM);
    var found :- FindPath(d, root, target);
    if found == -1 {
      return Ok(-1);
    }
    var n :- d.InodeGet(found);
    r := NameInode(d, root, n, link[1..]);
  }

  method NameInode(d: Disk, root: nat, n: nat, name: CString) returns (r: Outcome<int>)
    requires d.Valid() && root < d.inodeTable.Length && n < d.inodeTable.Length
    modifies d.fsData, d.inodeTable
    ensures r.Ok? <==> AddLink(old(d.Snapshot()), root, n, name).Ok?
    ensures r.Ok? ==> (d.Snapshot(), r.value) == AddLink(old(d.Snapshot()), root, n, name).value
  {
    if d.inodeTable[n].kind.TSoftLink? {
      return Ok(-1);
    }
    var added :- d.AddDirEntry(root, name, n);
    if added == -1 {
      return Ok(-1);
    }
    d.inodeTable[n] := d.inodeTable[n].(links := d.inodeTable[n].links + 1);
    return Ok(0);
  }

  method CloseFile(d: Disk, h: int) returns (r: int)
    requires d.Valid()
    modifies d.openBits
    ensures (d.Snapshot(), r) == Close(old(d.Snapshot()), h)
    ensures Seen(old(d.Snapshot()), FS.CloseOp(h), Runs.Plain(Ok((d.Snapshot(), r))))
  {
    StepIsSeen(d.Snapshot(), FS.CloseOp(h));
    var open := d.IsOpen(h);
    if !open {
      return -1;
    }
    var removed := d.RemoveFromOpenFileTable(h);
    return 0;
  }

  method WriteFile(d: Disk, h: int, buffer: seq<Byte>) returns (r: Outcome<int>)
    requires d.Valid()
    modifies d.Repr()
    ensures r.Ok? <==> Write(old(d.Snapshot()), h, buffer).Ok?
    ensures r.Ok? ==> (d.Snapshot(), r.value) == Write(old(d.Snapshot()), h, buffer).value
    ensures Seen(old(d.Snapshot()), FS.WriteOp(h, buffer), Runs.Plain(Outcomes(d.Snapshot(), r)))
  {
    StepIsSeen(d.Snapshot(), FS.WriteOp(h, buffer));
    var open := d.IsOpen(h);
    if !open {
      return Ok(-1);
    }
    var n :- d.InodeGet(d.openFileTable[h].inum);
    var at, count := d.openFileTable[h].offset, |buffer|;
    if count + at > d.blockSize {
      count := SubSize(d.blockSize, at);
    }
    if count == 0 {
      return Ok(0);
    }
    r := WriteWithBlock(d, h, n, buffer, count);
  }

  method WriteWithBlock(d: Disk, h: nat, n: nat, buffer: seq<Byte>, count: nat) returns (r: Outcome<int>)
    requires d.Valid() && h < d.openFileTable.Length && n < d.inodeTable.Length
    modifies d.fsData, d.openFileTable, d.inodeTable, d.blockBits
    ensures r.Ok? <==> WriteSome(old(d.Snapshot()), h, n, buffer, count).Ok?
    ensures r.Ok? ==> (d.Snapshot(), r.value) == WriteSome(old(d.Snapshot()), h, n, buffer, count).value
  {
    if d.inodeTable[n].size == 0 {
      var b := d.DataBlockAlloc();
      if b == -1 {
        return Ok(-1);
      }
      d.inodeTable[n] := d.inodeTable[n].(block := b);
    }
    var copied :- CopyAndMove(d, h, n, buffer, count);
    return Ok(count);
  }

  method CopyAndMove(d: Disk, h: nat, n: nat, buffer: seq<Byte>, count: nat) returns (r: Outcome<bool>)
    requires d.Valid() && h < d.openFileTable.Length && n < d.inodeTable.Length
    modifies d.fsData, d.openFileTable, d.inodeTable
    ensures r.Ok? <==> WriteFrom(old(d.Snapshot()), h, n, buffer, count).Ok?
    ensures r.Ok? ==> d.Snapshot() == WriteFrom(old(d.Snapshot()), h, n, buffer, count).value
  {
    var b, at := d.inodeTable[n].block, d.openFileTable[h].offset;
    if count > |buffer| || !(0 <= b < d.blockBits.Length) || at + count > d.blockSize {
      return Abort;
    }
    d.CopyToBlock(b, at, buffer[..count]);
    d.openFileTable[h] := d.openFileTable[h].(offset := at + count);
    if d.openFileTable[h].offset > d.inodeTable[n].size {
      d.inodeTable[n] := d.inodeTable[n].(size := d.openFileTable[h].offset);
    }
    return Ok(true);
  }

  method ReadFile(d: Disk, h: int, len: SizeT) returns (r: Outcome<(int, seq<Byte>)>)
    requires d.Valid()
    modifies d.openFileTable
    ensures r.Ok? <==> Read(old(d.Snapshot()), h, len).Ok?
    ensures r.Ok? ==> (d.Snapshot(), r.value.0, r.value.1) == Read(old(d.Snapshot()), h, len).value
    ensures Seen(old(d.Snapshot()), FS.ReadOp(h, len),
                 if r.Ok? then Ok((d.Snapshot(), FS.Reply(r.value.0, r.value.1))) else Abort)
  {
    StepIsSeen(d.Snapshot(), FS.ReadOp(h, len));
    var open := d.IsOpen(h);
    if !open {
      return Ok((-1, []));
    }
    var n :- d.InodeGet(d.openFileTable[h].inum);
    var at := d.openFileTable[h].offset;
    var count: int := SubSize(d.inodeTable[n].size, at);
    if count > len {
      count := len;
    }
    if count == 0 {
      return Ok((0, []));
    }
    r := CopyOutAndMove(d, h, n, count);
  }

  method CopyOutAndMove(d: Disk, h: nat, n: nat, count: nat) returns (r: Outcome<(int, seq<Byte>)>)
    requires d.Valid() && h < d.openFileTable.Length && n < d.inodeTable.Length
    modifies d.openFileTable
    ensures r.Ok? <==> ReadBytes(old(d.Snapshot()), h, n, count).Ok?
    ensures r.Ok? ==> (d.Snapshot(), r.value.0, r.value.1) == ReadBytes(old(d.Snapshot()), h, n, count).value
  {
    var b, at := d.inodeTable[n].block, d.openFileTable[h].offset;
    if !(0 <= b < d.blockBits.Length) || b * d.blockSize + at + count > d.fsData.Length {
      return Abort;
    }
    BlockBounds(b, d.blockBits.Length, d.blockSize);
    var data := d.CopyFromData(b * d.blockSize + at, count);
    d.openFileTable[h] := d.openFileTable[h].(offset := at + count);
    return Ok((count, data));
  }

  method UnlinkFile(d: Disk, path: CString) returns (r: Outcome<int>)
    requires d.Valid()
    modifies d.Repr()
    ensures r.Ok? <==> Unlink(old(d.Snapshot()), path).Ok?
    ensures r.Ok? ==> (d.Snapshot(), r.value) == Unlink(old(d.Snapshot()), path).value
    ensures Seen(old(d.Snapshot()), FS.UnlinkOp(path), Runs.Plain(Outcomes(d.Snapshot(), r)))
  {
    StepIsSeen(d.Snapshot(), FS.UnlinkOp(path));
    var root :- d.InodeGet(ROOT_DIR_INUM);
    var found :- FindPath(d, root, path);
    if found == -1 {
      return Ok(-1);
    }
    var n :- d.InodeGet(found);
    var cleared :- d.ClearDirEntry(root, path[1..]);
    if cleared == -1 {
      return Ok(-1);
    }
    var dropped :- RemoveLink(d, n);
    return Ok(0);
  }

  method RemoveLink(d: Disk, n: nat) returns (r: Outcome<bool>)
    requires d.Valid() && n < d.inodeTable.Length
    modifies d.inodeTable, d.inodeBits, d.blockBits
    ensures r.Ok? <==> DropLink(old(d.Snapshot()), n).Ok?
    ensures r.Ok? ==> d.Snapshot() == DropLink(old(d.Snapshot()), n).value
  {
    if d.inodeTable[n].kind.TSoftLink? {
      var deleted :- d.InodeDelete(n);
    }
    d.inodeTable[n] := d.inodeTable[n].(links := d.inodeTable[n].links - 1);
    if d.inodeTable[n].links == 0 {
      var deleted :- d.InodeDelete(n);
    }
    return Ok(true);
  }

  /** tfs_copy_from_external_fs; each element of `chunks` is what one read of the source returns. */
  method CopyFromExternal(d: Disk, readable: bool, chunks: seq<Chunk>, dest: CString) returns (r: Outcome<int>)
    requires d.Valid()
    modifies d.Repr()
    ensures r.Ok? <==> Copy(old(d.Snapshot()), readable, chunks, dest).Ok?
    ensures r.Ok? ==> (d.Snapshot(), r.value) == Copy(old(d.Snapshot()), readable, chunks, dest).value
    ensures !readable ==> r == Ok(-1) && d.Snapshot() == old(d.Snapshot())
    ensures readable ==> CopyIsSeen(old(d.Snapshot()), chunks, dest, Outcomes(d.Snapshot(), r))
  {
    if !readable {
      return Ok(-1);
    }
    SeeCopy(d.Snapshot(), chunks, dest);
    var h :- OpenFile(d, dest, COPY_MODE);
    if h == -1 {
      return Ok(-1);
    }
    r := WriteChunks(d, h, chunks);
  }

  /** The copying loop, and the close after it. */
  method WriteChunks(d: Disk, h: int, chunks: seq<Chunk>) returns (r: Outcome<int>)
    requires d.Valid()
    modifies d.Repr()
    ensures r.Ok? <==> CopyAndClose(old(d.Snapshot()), h, chunks).Ok?
    ensures r.Ok? ==> (d.Snapshot(), r.value) == CopyAndClose(old(d.Snapshot()), h, chunks).value
  {
    ghost var s := d.Snapshot();
    var i := 0;
    while i < |chunks|
      invariant 0 <= i <= |chunks|
      invariant CopyChunks(s, h, chunks) == CopyChunks(d.Snapshot(), h, chunks[i..])
    {
      assert chunks[i..][1..] == chunks[i + 1..];
      var v :- WriteFile(d, h, chunks[i]);
      if v == -1 {
        var closed := CloseFile(d, h);
        return Ok(-1);
      }
      i := i + 1;
    }
    var closed := CloseFile(d, h);
    return Ok(0);
  }
}
