/** Projeto2/fs/operations.c in memory: each call takes g_library_mutex first and gives it
    back on every path that returns. */
module LockedTfs {
  import opened Base
  import opened Tables
  import opened Store
  import opened Operations
  import opened Locked
  import Invariants
  import Runs
  import Tfs
  import FS = FileSystem

  /** In good states the outcome is that of the client's call; in any state a run can leave, the call ends
      without giving the mutex back exactly when it is astray. */
  ghost predicate Seen(s: State, op: Request, r: Outcome<(State, FS.Reply)>) {
    && (Good(s) ==> FS.Coherent(Invariants.Abs(s)) && Runs.StepShows(r, FS.Step(Invariants.Abs(s), op)))
    && (OneNamed(s) ==> (r.Abort? <==> Astray(s, op)))
  }

  lemma DoIsSeen(s: State, op: Request)
    requires Shape(s)
    ensures Seen(s, op, Do(s, op))
  {
    if Good(s) {
      Invariants.InvIsCoherent(s);
      DoShows(s, op);
    }
    if OneNamed(s) {
      DoAlways(s, op);
    }
  }

  lemma OpenIsSeen(s: State, path: CString, mode: Mode, t: State, r: Outcome<int>)
    requires Shape(s) && (r.Ok? <==> OpenPlain(s, path, mode).Ok?)
    requires r.Ok? ==> (t, r.value) == OpenPlain(s, path, mode).value
    ensures Seen(s, FS.OpenOp(path, mode), Runs.Plain(Tfs.Outcomes(t, r)))
  {
    assert Tfs.Outcomes(t, r) == OpenPlain(s, path, mode);
    DoIsSeen(s, FS.OpenOp(path, mode));
  }

  lemma UnlinkIsSeen(s: State, path: CString, t: State, r: Outcome<int>)
    requires Shape(s) && (r.Ok? <==> UnlinkPlain(s, path).Ok?)
    requires r.Ok? ==> (t, r.value) == UnlinkPlain(s, path).value
    ensures Seen(s, FS.UnlinkOp(path), Runs.Plain(Tfs.Outcomes(t, r)))
  {
    UnlinkIsDo(s, path, t, r);
    DoIsSeen(s, FS.UnlinkOp(path));
  }

  lemma UnlinkIsDo(s: State, path: CString, t: State, r: Outcome<int>)
    requires Shape(s) && (r.Ok? <==> UnlinkPlain(s, path).Ok?)
    requires r.Ok? ==> (t, r.value) == UnlinkPlain(s, path).value
    ensures Runs.Plain(Tfs.Outcomes(t, r)) == Do(s, FS.UnlinkOp(path))
  {
    assert Tfs.Outcomes(t, r) == UnlinkPlain(s, path);
  }

  /** The branch of tfs_open for a name that is bound. */
  method OpenFoundFile(disk: Disk, n: nat, mode: Mode) returns (r: Outcome<int>)
    requires disk.Valid() && n < disk.inodeTable.Length
    modifies disk.Repr()
    ensures r.Ok? <==> OpenFound(old(disk.Snapshot()), n, mode).Ok?
    ensures r.Ok? ==> (disk.Snapshot(), r.value) == OpenFound(old(disk.Snapshot()), n, mode).value
  {
    if mode.trunc {
      var cut :- Tfs.TruncateFile(disk, n);
    }
    var offset := 0;
    if mode.append {
      offset := disk.inodeTable[n].size;
    }
    var h := disk.AddToOpenFileTable(n, offset);
    return Ok(h);
  }

  /** What happens to the mutex, with the tables at that moment. */
  datatype MutexEvent = Took(tables: State) | Gave(tables: State)

  class Library {
    const disk: Disk
    var held: bool
    ghost var trace: seq<MutexEvent>

    constructor (disk: Disk)
      ensures this.disk == disk && !held && trace == []
    {
      this.disk := disk;
      held := false;
      trace := [];
    }

    method Lock()
      requires disk.Valid() && !held
      modifies this
      ensures held && trace == old(trace) + [Took(disk.Snapshot())]
    {
      held := true;
      trace := trace + [Took(disk.Snapshot())];
    }

    method Unlock()
      requires disk.Valid() && held
      modifies this
      ensures !held && trace == old(trace) + [Gave(disk.Snapshot())]
    {
      held := false;
      trace := trace + [Gave(disk.Snapshot())];
    }

    /** The mutex was taken once, before the tables were touched, and given back once, after that; a call
        that aborts keeps it. */
    twostate predicate Guarded(new s: State, new t: State, aborts: bool)
      reads this
    {
      held == aborts && trace == old(trace) + [Took(s)] + if aborts then [] else [Gave(t)]
    }

    /** What the body of a call does, once the mutex was taken. */
    twostate predicate GaveBack(new t: State, aborts: bool)
      reads this
    {
      held == aborts && trace == old(trace) + if aborts then [] else [Gave(t)]
    }

    method OpenFile(path: CString, mode: Mode) returns (r: Outcome<int>)
      requires disk.Valid() && !held
      modifies this, disk.Repr()
      ensures r.Ok? <==> OpenPlain(old(disk.Snapshot()), path, mode).Ok?
      ensures r.Ok? ==> (disk.Snapshot(), r.value) == OpenPlain(old(disk.Snapshot()), path, mode).value
      ensures Guarded(old(disk.Snapshot()), disk.Snapshot(), r.Abort?)
      ensures Seen(old(disk.Snapshot()), FS.OpenOp(path, mode), Runs.Plain(Tfs.Outcomes(disk.Snapshot(), r)))
    {
      ghost var s := disk.Snapshot();
      Lock();
      r := OpenHeld(path, mode);
      OpenIsSeen(s, path, mode, disk.Snapshot(), r);
    }

    /** The body of tfs_open, which gives the mutex back wherever it returns. */
    method OpenHeld(path: CString, mode: Mode) returns (r: Outcome<int>)
      requires disk.Valid() && held
      modifies this, disk.Repr()
      ensures r.Ok? <==> OpenPlain(old(disk.Snapshot()), path, mode).Ok?
      ensures r.Ok? ==> (disk.Snapshot(), r.value) == OpenPlain(old(disk.Snapshot()), path, mode).value
      ensures GaveBack(disk.Snapshot(), r.Abort?)
    {
      if !ValidPath(path) {
        Unlock();
        return Ok(-1);
      }
      var root :- disk.InodeGet(ROOT_DIR_INUM);
      var inum :- Tfs.FindPath(disk, root, path);
      if inum >= 0 {
        var n :- disk.InodeGet(inum);
        var h :- OpenFoundFile(disk, n, mode);
        Unlock();
        return Ok(h);
      }
      if mode.creat {
        var h :- Tfs.CreateAndOpen(disk, root, path);
        Unlock();
        return Ok(h);
      }
      Unlock();
      return Ok(-1);
    }

    method CloseFile(h: int) returns (r: int)
      requires disk.Valid() && !held
      modifies this, disk.openBits
      ensures (disk.Snapshot(), r) == Close(old(disk.Snapshot()), h)
      ensures Guarded(old(disk.Snapshot()), disk.Snapshot(), false)
      ensures Seen(old(disk.Snapshot()), FS.CloseOp(h), Runs.Plain(Ok((disk.Snapshot(), r))))
    {
      DoIsSeen(disk.Snapshot(), FS.CloseOp(h));
      Lock();
      r := CloseHeld(h);
    }

    method CloseHeld(h: int) returns (r: int)
      requires disk.Valid() && held
      modifies this, disk.openBits
      ensures (disk.Snapshot(), r) == Close(old(disk.Snapshot()), h) && GaveBack(disk.Snapshot(), false)
    {
      var open := disk.IsOpen(h);
      if !open {
        Unlock();
        return -1;
      }
      var removed := disk.RemoveFromOpenFileTable(h);
      Unlock();
      return 0;
    }

    method WriteFile(h: int, buffer: seq<Byte>) returns (r: Outcome<int>)
      requires disk.Valid() && !held
      modifies this, disk.Repr()
      ensures r.Ok? <==> Write(old(disk.Snapshot()), h, buffer).Ok?
      ensures r.Ok? ==> (disk.Snapshot(), r.value) == Write(old(disk.Snapshot()), h, buffer).value
      ensures Guarded(old(disk.Snapshot()), disk.Snapshot(), r.Abort?)
      ensures Seen(old(disk.Snapshot()), FS.WriteOp(h, buffer), Runs.Plain(Tfs.Outcomes(disk.Snapshot(), r)))
    {
      DoIsSeen(disk.Snapshot(), FS.WriteOp(h, buffer));
      Lock();
      r := WriteHeld(h, buffer);
    }

    method WriteHeld(h: int, buffer: seq<Byte>) returns (r: Outcome<int>)
      requires disk.Valid() && held
      modifies this, disk.Repr()
      ensures r.Ok? <==> Write(old(disk.Snapshot()), h, buffer).Ok?
      ensures r.Ok? ==> (disk.Snapshot(), r.value) == Write(old(disk.Snapshot()), h, buffer).value
      ensures GaveBack(disk.Snapshot(), r.Abort?)
    {
      var count :- Tfs.WriteFile(disk, h, buffer);
      Unlock();
      return Ok(count);
    }

    method ReadFile(h: int, len: SizeT) returns (r: Outcome<(int, seq<Byte>)>)
      requires disk.Valid() && !held
      modifies this, disk.openFileTable
      ensures r.Ok? <==> Read(old(disk.Snapshot()), h, len).Ok?
      ensures r.Ok? ==> (disk.Snapshot(), r.value.0, r.value.1) == Read(old(disk.Snapshot()), h, len).value
      ensures Guarded(old(disk.Snapshot()), disk.Snapshot(), r.Abort?)
      ensures Seen(old(disk.Snapshot()), FS.ReadOp(h, len),
                   if r.Ok? then Ok((disk.Snapshot(), FS.Reply(r.value.0, r.value.1))) else Abort)
    {
      DoIsSeen(disk.Snapshot(), FS.ReadOp(h, len));
      Lock();
      r := ReadHeld(h, len);
    }

    method ReadHeld(h: int, len: SizeT) returns (r: Outcome<(int, seq<Byte>)>)
      requires disk.Valid() && held
      modifies this, disk.openFileTable
      ensures r.Ok? <==> Read(old(disk.Snapshot()), h, len).Ok?
      ensures r.Ok? ==> (disk.Snapshot(), r.value.0, r.value.1) == Read(old(disk.Snapshot()), h, len).value
      ensures GaveBack(disk.Snapshot(), r.Abort?)
    {
      var data :- Tfs.ReadFile(disk, h, len);
      Unlock();
      return Ok(data);
    }

    method UnlinkFile(path: CString) returns (r: Outcome<int>)
      requires disk.Valid() && !held
      modifies this, disk.Repr()
      ensures r.Ok? <==> UnlinkPlain(old(disk.Snapshot()), path).Ok?
      ensures r.Ok? ==> (disk.Snapshot(), r.value) == UnlinkPlain(old(disk.Snapshot()), path).value
      ensures Guarded(old(disk.Snapshot()), disk.Snapshot(), r.Abort?)
      ensures Seen(old(disk.Snapshot()), FS.UnlinkOp(path), Runs.Plain(Tfs.Outcomes(disk.Snapshot(), r)))
    {
      ghost var s := disk.Snapshot();
      Lock();
      r := UnlinkHeld(path);
      UnlinkIsSeen(s, path, disk.Snapshot(), r);
    }

    /** The body of tfs_unlink. */
    method UnlinkHeld(path: CString) returns (r: Outcome<int>)
      requires disk.Valid() && held
      modifies this, disk.Repr()
      ensures r.Ok? <==> UnlinkPlain(old(disk.Snapshot()), path).Ok?
      ensures r.Ok? ==> (disk.Snapshot(), r.value) == UnlinkPlain(old(disk.Snapshot()), path).value
      ensures GaveBack(disk.Snapshot(), r.Abort?)
    {
      if !ValidPath(path) {
        Unlock();
        return Ok(-1);
      }
      var root :- disk.InodeGet(ROOT_DIR_INUM);
      var inum :- Tfs.FindPath(disk, root, path);
      if inum == -1 {
        Unlock();
        return Ok(-1);
      }
      var deleted :- disk.InodeDelete(inum);
      var cleared :- disk.ClearDirEntry(root, path[1..]);
      if cleared == -1 {
        Unlock();
        return Ok(-1);
      }
      Unlock();
      return Ok(0);
    }
  }
}
