/** tfs_copy_from_external_fs: what it leaves under its destination. */
module ExternalCopy {
  import opened Base
  import opened Layout
  import opened Tables
  import opened Directory
  import opened Invariants
  import opened Operations
  import opened Simulation
  import opened Always
  import opened Guarantees
  import opened Streams
  import FS = FileSystem

  /** What one read of the source returns: 1 to 1024 bytes. */
  type Chunk = c: seq<Byte> | 1 <= |c| <= 1024 witness [0]

  const COPY_MODE := Mode(true, true, true)

  /** The copying loop: it stops at the first write that fails. */
  function CopyChunks(s: State, h: int, chunks: seq<Chunk>): (r: Outcome<(State, int)>)
    requires Shape(s)
    ensures r.Ok? ==> SameShape(s, r.value.0)
    decreases |chunks|
  {
    if chunks == [] then Ok((s, 0))
    else
      var (t, v) :- Write(s, h, chunks[0]);
      if v == -1 then Ok((t, -1)) else CopyChunks(t, h, chunks[1..])
  }

  function CopyAndClose(s: State, h: int, chunks: seq<Chunk>): (r: Outcome<(State, int)>)
    requires Shape(s)
    ensures r.Ok? ==> SameShape(s, r.value.0)
  {
    var (t, v) :- CopyChunks(s, h, chunks);
    Ok((Close(t, h).0, v))
  }

  /** `readable` says whether the source could be opened. */
  function Copy(s: State, readable: bool, chunks: seq<Chunk>, dest: CString): (r: Outcome<(State, int)>)
    requires Shape(s)
    ensures r.Ok? ==> SameShape(s, r.value.0)
  {
    if !readable then Ok((s, -1))
    else
      var (s1, h) :- Open(s, dest, COPY_MODE);
      if h == -1 then Ok((s1, -1)) else CopyAndClose(s1, h, chunks)
  }

  // ---------- the loop ----------

  ghost predicate NoneFailed(replies: seq<FS.Reply>) {
    forall i :: 0 <= i < |replies| ==> replies[i].value != -1
  }

  lemma NoneFailedOn(reply: FS.Reply, rest: seq<FS.Reply>)
    requires NoneFailed([reply] + rest)
    ensures reply.value != -1 && NoneFailed(rest)
  {
    var replies := [reply] + rest;
    assert replies[0] == reply;
    forall i | 0 <= i < |rest| ensures rest[i].value != -1 {
      assert replies[i + 1] == rest[i];
    }
  }

  /** A loop in which no write fails makes all the writes. */
  lemma {:induction false} LoopIsWrites(s: State, h: int, chunks: seq<Chunk>)
    requires Shape(s) && WriteAll(s, h, chunks).Ok? && NoneFailed(WriteAll(s, h, chunks).value.1)
    ensures CopyChunks(s, h, chunks) == Ok((WriteAll(s, h, chunks).value.0, 0))
    decreases |chunks|
  {
    if chunks == [] {
    } else {
      var (next, count) := Write(s, h, chunks[0]).value;
      NoneFailedOn(FS.Reply(count, []), WriteAll(next, h, chunks[1..]).value.1);
      LoopIsWrites(next, h, chunks[1..]);
    }
  }

  lemma {:induction false} WritesNeverFail(room: nat, buffers: seq<seq<Byte>>)
    ensures NoneFailed(WriteReplies(room, buffers))
    decreases |buffers|
  {
    if buffers == [] {
    } else {
      WritesNeverFail(room - Min(|buffers[0]|, room), buffers[1..]);
    }
  }

  /** With a block to write to, the loop lays the whole source over the file. */
  lemma ChunksAreWrites(s: State, h: int, chunks: seq<Chunk>) returns (t: State)
    requires CanWrite(s, h)
    ensures CopyChunks(s, h, chunks) == Ok((t, 0)) && AlwaysOk(t)
    ensures Viewed(s, h) && 0 <= Room(s, h) && Abs(t) == FS.Wrote(Abs(s), h, Cut(Join(chunks), Room(s, h)))
  {
    WritesLay(s, h, chunks);
    WritesNeverFail(Room(s, h), chunks);
    LoopIsWrites(s, h, chunks);
    t := WriteAll(s, h, chunks).value.0;
  }

  lemma ChunksFromStart(s: State, h: int, chunks: seq<Chunk>) returns (t: State)
    requires CanWrite(s, h) && s.handles[h].offset == 0
    ensures CopyChunks(s, h, chunks) == Ok((t, 0)) && AlwaysOk(t)
    ensures Viewed(s, h) && Abs(t) == FS.Wrote(Abs(s), h, Cut(Join(chunks), s.blockSize))
  {
    assert Room(s, h) == s.blockSize;
    var bytes := Cut(Join(chunks), s.blockSize);
    assert bytes == Cut(Join(chunks), Room(s, h));
    t := ChunksAreWrites(s, h, chunks);
  }

  /** Without one, the first chunk fails and nothing is written. */
  lemma NoBlockNoCopy(s: State, h: int, chunks: seq<Chunk>)
    requires AlwaysOk(s) && HandleFits(s, h) && !HasBlock(s, h)
    ensures CopyChunks(s, h, chunks) == Ok((s, if chunks == [] then 0 else -1))
  {
    if chunks != [] {
      WriteCases(s, h, chunks[0], Min(|chunks[0]|, s.blockSize - s.handles[h].offset));
    }
  }

  // ---------- the destination ----------

  /** What the destination still holds once it is open: nothing, unless it was reached
      through a soft link, whose own inode is the one that TRUNC acts on. */
  ghost function Kept(fs: FS.Fs, dest: CString): seq<Byte> {
    if FS.Bound(fs, dest) && FS.Target(fs, dest) in fs.nodes
       && FS.Resolve(fs, FS.Target(fs, dest)) in fs.nodes - {FS.Target(fs, dest)} then
      fs.nodes[FS.Resolve(fs, FS.Target(fs, dest))].content
    else []
  }

  /** The path leads to inode n. */
  ghost predicate PathLeads(fs: FS.Fs, path: CString, n: int) {
    FS.Bound(fs, path) && FS.Target(fs, path) in fs.nodes && FS.Resolve(fs, FS.Target(fs, path)) == n && n in fs.nodes
  }

  /** The path leads to a file with these bytes. */
  ghost predicate Leads(fs: FS.Fs, path: CString, content: seq<Byte>) {
    && FS.Bound(fs, path) && FS.Target(fs, path) in fs.nodes
    && FS.Resolve(fs, FS.Target(fs, path)) in fs.nodes
    && fs.nodes[FS.Resolve(fs, FS.Target(fs, path))].content == content
  }

  /** Handle h is new, stands at the start of inode n, and is the only one that was added. */
  ghost predicate Opened(s: State, t: State, dest: CString, h: int)
    requires RootOk(s) && RootOk(t)
  {
    && SameShape(s, t) && 0 <= h < |s.handles| && !s.handleBits[h] && t.handleBits == s.handleBits[h := true]
    && t.handles == s.handles[h := t.handles[h]] && t.handles[h].offset == 0
    && PathLeads(Abs(t), dest, t.handles[h].inum)
    && Abs(t).nodes[t.handles[h].inum].content == Kept(Abs(s), dest)
  }

  /** The destination can be opened, and a block can be had for the bytes: the file keeps its own, one is
      FREE, or the open frees one. */
  ghost predicate CopyFits(s: State, chunks: seq<Chunk>, dest: CString)
    requires NamesOk(s)
  {
    && First(s.handleBits, IsFree, 0) != -1
    && if FS.Bound(Abs(s), dest) then
         var n := FS.Target(Abs(s), dest);
         && 1 <= n < |s.inodes| && n in Abs(s).nodes && FS.Resolve(Abs(s), n) != -1
         && (chunks == [] || Kept(Abs(s), dest) != [] || First(s.blockBits, IsFree, 0) != -1 || s.inodes[n].size > 0)
       else CanBeMade(s, dest) && (chunks == [] || First(s.blockBits, IsFree, 0) != -1)
  }

  lemma AddHandleView(s: State, n: int, offset: SizeT)
    requires RootOk(s)
    ensures var t := AddHandle(s, n, offset).0;
            && RootOk(t) && RootDir(t) == RootDir(s) && Abs(t).names == Abs(s).names && Abs(t).nodes == Abs(s).nodes
  {
  }

  lemma CutLeads(fs: FS.Fs, cut: FS.Fs, dest: CString, m: int, n: int)
    requires FS.Bound(fs, dest) && FS.Target(fs, dest) == m && m in fs.nodes && FS.Resolve(fs, m) == n && n in fs.nodes
    requires cut.names == fs.names && cut.nodes == FS.SetContent(fs, m, []).nodes
    ensures PathLeads(cut, dest, n) && cut.nodes[n].content == Kept(fs, dest)
  {
  }

  /** Opening a destination that exists. */
  lemma OpensBound(s: State, dest: CString, m: int, n: int)
    requires AlwaysOk(s) && FS.Bound(Abs(s), dest) && m == FS.Target(Abs(s), dest) && m in Abs(s).nodes
    requires n == FS.Resolve(Abs(s), m) && n in Abs(s).nodes
    ensures 1 <= m < |s.inodes| && s.inodeBits[m] && Truncate(s, m).Ok? && RootOk(Prepared(s, m, COPY_MODE))
    ensures Open(s, dest, COPY_MODE) == Ok(AddHandle(Prepared(s, m, COPY_MODE), n, 0))
    ensures var t := AddHandle(Prepared(s, m, COPY_MODE), n, 0).0;
            RootOk(t) && PathLeads(Abs(t), dest, n) && Abs(t).nodes[n].content == Kept(Abs(s), dest)
  {
    OpenBoundUnfolds(s, dest, COPY_MODE, m);
    TruncateView(s, m);
    AddHandleView(Prepared(s, m, COPY_MODE), n, 0);
    CutLeads(Abs(s), Abs(AddHandle(Prepared(s, m, COPY_MODE), n, 0).0), dest, m, n);
  }

  lemma OpenedBound(s: State, dest: CString, m: int, n: int)
    requires AlwaysOk(s) && FS.Bound(Abs(s), dest) && m == FS.Target(Abs(s), dest) && m in Abs(s).nodes
    requires n == FS.Resolve(Abs(s), m) && n in Abs(s).nodes
    ensures Open(s, dest, COPY_MODE).Ok? && RootOk(Open(s, dest, COPY_MODE).value.0)
    ensures var (t, h) := Open(s, dest, COPY_MODE).value;
            && 1 <= m < |s.inodes| && h == First(s.handleBits, IsFree, 0)
            && (h == -1 ==> t.handles == s.handles && t.handleBits == s.handleBits)
            && (h != -1 ==> Opened(s, t, dest, h) && t.handles[h].inum == n)
            && (First(t.blockBits, IsFree, 0) != -1 <==> First(s.blockBits, IsFree, 0) != -1 || s.inodes[m].size > 0)
  {
    OpensBound(s, dest, m, n);
    TruncateFrees(s, m);
    var h := First(s.handleBits, IsFree, 0);
    assert h != -1 ==> IsFree(s.handleBits[h]);
  }

  lemma TruncateFrees(s: State, n: nat)
    requires AlwaysOk(s) && 1 <= n < |s.inodes| && s.inodeBits[n] && Truncate(s, n).Ok?
    ensures var t := Prepared(s, n, COPY_MODE);
            && t.handles == s.handles && t.handleBits == s.handleBits
            && (First(t.blockBits, IsFree, 0) != -1 <==> First(s.blockBits, IsFree, 0) != -1 || s.inodes[n].size > 0)
  {
    TakenBytesOk(s, n);
    var t, b := Prepared(s, n, COPY_MODE), First(s.blockBits, IsFree, 0);
    if s.inodes[n].size > 0 {
      assert IsFree(t.blockBits[s.inodes[n].block]);
    }
  }

  /** Opening a destination that is created. */
  lemma OpenedNew(s: State, dest: CString)
    requires AlwaysOk(s) && !FS.Bound(Abs(s), dest)
    ensures Open(s, dest, COPY_MODE).Ok? && RootOk(Open(s, dest, COPY_MODE).value.0)
    ensures var (t, h) := Open(s, dest, COPY_MODE).value;
            && (h == -1 ==> t.handles == s.handles && t.handleBits == s.handleBits)
            && (h != -1 ==> Opened(s, t, dest, h) && t.blockBits == s.blockBits)
            && (h != -1 <==> CanBeMade(s, dest) && First(s.handleBits, IsFree, 0) != -1)
  {
    OpenAlways(s, dest, COPY_MODE);
    OpenUnboundIs(s, dest, COPY_MODE);
    if ValidPath(dest) {
      CreateTakes(s, dest);
      var (t, h) := CreateFile(s, 0, dest).value;
      if h != -1 {
        NewLeads(s, dest, t, h);
      } else {
        FailedKeepsHandles(s, dest);
      }
    }
  }

  lemma NewLeads(s: State, dest: CString, t: State, h: int)
    requires NamesOk(s) && ValidPath(dest) && !FS.Bound(Abs(s), dest) && HasRoom(RootDir(s), dest[1..]) && RootOk(t)
    requires !ValidHandle(s, h) && First(s.inodeBits, IsFree, 0) >= 1
    requires Takes(s, t, First(s.inodeBits, IsFree, 0), h)
    requires RootDir(t) == Filled(RootDir(s), dest[1..], First(s.inodeBits, IsFree, 0))
    ensures Opened(s, t, dest, h)
  {
    NewNodeLeads(t, dest, First(s.inodeBits, IsFree, 0), RootDir(s), |s.inodes|);
  }

  lemma NewNodeLeads(t: State, dest: CString, n: nat, dir: seq<Entry>, limit: int)
    requires RootOk(t) && ValidPath(dest) && 1 <= n < |t.inodes| && t.inodeBits[n]
    requires t.inodes[n].kind.TFile? && t.inodes[n].size == 0
    requires EntriesOk(dir, limit) && HasRoom(dir, dest[1..]) && dest[1..] !in LiveNames(dir) && n < limit
    requires RootDir(t) == Filled(dir, dest[1..], n)
    ensures PathLeads(Abs(t), dest, n) && Abs(t).nodes[n].content == []
  {
    NewNodeIs(t, n);
    FilledFinds(dir, limit, dest[1..], n);
    assert Abs(t).names[dest[1..]] == n;
  }

  lemma NewNodeIs(t: State, n: nat)
    requires RootOk(t) && 1 <= n < |t.inodes| && t.inodeBits[n]
    requires t.inodes[n].kind.TFile? && t.inodes[n].size == 0
    ensures n in Abs(t).nodes && Abs(t).nodes[n] == FS.Node(FS.File, [])
  {
  }

  lemma FailedKeepsHandles(s: State, path: CString)
    requires RootOk(s) && |path| > 0 && CreateFile(s, 0, path).Ok? && CreateFile(s, 0, path).value.1 == -1
    ensures var t := CreateFile(s, 0, path).value.0; t.handles == s.handles && t.handleBits == s.handleBits
  {
    NewFileAgrees(s);
    var n := First(s.inodeBits, IsFree, 0);
    if n != -1 {
      if HasRoom(RootDir(s), path[1..]) {
        CreateFileUnfolds(s, path, n);
      } else {
        CreateFileFails(s, path, n);
      }
    }
  }

  /** The open at the start of a copy. */
  lemma CopyOpens(s: State, dest: CString, chunks: seq<Chunk>)
    requires AlwaysOk(s)
    ensures Open(s, dest, COPY_MODE).Ok?
    ensures var (t, h) := Open(s, dest, COPY_MODE).value;
            && AlwaysOk(t) && (h == -1 ==> t.handles == s.handles && t.handleBits == s.handleBits)
            && (h != -1 ==> Opened(s, t, dest, h) && HandleFits(t, h))
            && (CopyFits(s, chunks, dest) <==> h != -1 && (chunks == [] || HasBlock(t, h)))
  {
    OpenAlways(s, dest, COPY_MODE);
    if FS.Bound(Abs(s), dest) {
      OpensOrNot(s, dest, chunks);
    } else {
      OpenedNew(s, dest);
      if Open(s, dest, COPY_MODE).value.1 != -1 {
        OpenedFits(s, Open(s, dest, COPY_MODE).value.0, dest, Open(s, dest, COPY_MODE).value.1);
      }
    }
  }

  lemma OpenedFits(s: State, t: State, dest: CString, h: int)
    requires RootOk(s) && AlwaysOk(t) && Opened(s, t, dest, h)
    ensures HandleFits(t, h) && |Kept(Abs(s), dest)| == t.inodes[t.handles[h].inum].size
  {
    NodeFacts(t);
  }

  lemma OpensOrNot(s: State, dest: CString, chunks: seq<Chunk>)
    requires AlwaysOk(s) && FS.Bound(Abs(s), dest)
    requires Open(s, dest, COPY_MODE).Ok? && AlwaysOk(Open(s, dest, COPY_MODE).value.0)
    ensures var (t, h) := Open(s, dest, COPY_MODE).value;
            && (h == -1 ==> t.handles == s.handles && t.handleBits == s.handleBits)
            && (h != -1 ==> Opened(s, t, dest, h) && HandleFits(t, h))
            && (CopyFits(s, chunks, dest) <==> h != -1 && (chunks == [] || HasBlock(t, h)))
  {
    var m := FS.Target(Abs(s), dest);
    BoundFacts(s, dest);
    ResolveAgrees(s, m);
    if FS.Resolve(Abs(s), m) == -1 {
      OpenBoundUnfolds(s, dest, COPY_MODE, m);
    } else {
      var (t, h) := Open(s, dest, COPY_MODE).value;
      OpenedBound(s, dest, m, FS.Resolve(Abs(s), m));
      if h != -1 {
        OpenedFits(s, t, dest, h);
      }
    }
  }

  // ---------- the whole copy ----------

  lemma CloseView(s: State, h: int)
    requires RootOk(s)
    ensures RootOk(Close(s, h).0) && Abs(Close(s, h).0) == FS.Close(Abs(s), h).0
  {
    if ValidHandle(s, h) {
      OpenHandlesChange(s.handles, s.handleBits, h, s.handles[h], false);
      assert s.handles[h := s.handles[h]] == s.handles;
    }
  }

  /** The client's view after the loop and the close. */
  lemma AfterLeads(fs: FS.Fs, dest: CString, h: int, before: map<int, Handle>, bytes: seq<Byte>)
    requires h in fs.open && FS.HandleOk(fs, h) && fs.open[h].offset == 0 && |bytes| <= fs.limits.blockSize
    requires PathLeads(fs, dest, fs.open[h].inum) && h !in before && fs.open == before[h := fs.open[h]]
    ensures FS.Close(FS.Wrote(fs, h, bytes), h).0.open == before
    ensures Leads(FS.Close(FS.Wrote(fs, h, bytes), h).0, dest,
                  FS.Overwrite(fs.nodes[fs.open[h].inum].content, 0, bytes))
  {
  }

  lemma OpenedHandles(s: State, t: State, dest: CString, h: int)
    requires RootOk(s) && RootOk(t) && Opened(s, t, dest, h)
    ensures h !in Abs(s).open && Abs(t).open == Abs(s).open[h := t.handles[h]]
  {
    OpenHandlesChange(s.handles, s.handleBits, h, t.handles[h], true);
  }

  /** The outcome of a copy that began on s: the same handles are open as before, and if it fits, the
      destination holds the source, cut at the block size, laid over what the open kept. */
  ghost predicate Copied(s: State, chunks: seq<Chunk>, dest: CString, fits: bool, r: Outcome<(State, int)>)
    requires RootOk(s)
  {
    && r.Ok? && AlwaysOk(r.value.0) && Abs(r.value.0).open == Abs(s).open && r.value.1 == (if fits then 0 else -1)
    && (fits ==> Leads(Abs(r.value.0), dest, FS.Overwrite(Kept(Abs(s), dest), 0, Cut(Join(chunks), s.blockSize))))
  }

  lemma CopyClosed(s: State, t: State, h: int, chunks: seq<Chunk>, dest: CString, u: State, v: int, bytes: seq<Byte>)
    requires RootOk(s) && RootOk(t) && Opened(s, t, dest, h) && Viewed(t, h) && |bytes| <= t.blockSize
    requires CopyChunks(t, h, chunks) == Ok((u, v)) && AlwaysOk(u) && (v == 0 || v == -1)
    requires Abs(u) == FS.Wrote(Abs(t), h, bytes)
    requires v == 0 ==> bytes == Cut(Join(chunks), t.blockSize)
    ensures Copied(s, chunks, dest, v == 0, CopyAndClose(t, h, chunks))
  {
    OpenedHandles(s, t, dest, h);
    AfterLeads(Abs(t), dest, h, Abs(s).open, bytes);
    CloseView(u, h);
    CloseAlways(u, h);
  }

  lemma CopyWithBlock(s: State, t: State, h: int, chunks: seq<Chunk>, dest: CString)
    requires RootOk(s) && CanWrite(t, h) && Opened(s, t, dest, h)
    ensures Copied(s, chunks, dest, true, CopyAndClose(t, h, chunks))
  {
    var u := ChunksFromStart(t, h, chunks);
    CopyClosed(s, t, h, chunks, dest, u, 0, Cut(Join(chunks), t.blockSize));
  }

  lemma CopyWithoutBlock(s: State, t: State, h: int, chunks: seq<Chunk>, dest: CString)
    requires RootOk(s) && AlwaysOk(t) && Opened(s, t, dest, h) && HandleFits(t, h) && !HasBlock(t, h)
    ensures Copied(s, chunks, dest, chunks == [], CopyAndClose(t, h, chunks))
  {
    FitsIsViewed(t, h);
    NoBlockNoCopy(t, h, chunks);
    NothingWrote(Abs(t), h);
    CopyClosed(s, t, h, chunks, dest, t, if chunks == [] then 0 else -1, []);
    assert chunks == [] ==> Cut(Join(chunks), s.blockSize) == [];
  }

  /** In every reachable state: a copy never aborts, and returns 0 exactly when it fits; then the
      destination holds the source, cut at the block size, laid over what the open kept. However it ends,
      the same handles are open as before. */
  lemma CopyExact(s: State, chunks: seq<Chunk>, dest: CString)
    requires AlwaysOk(s)
    ensures Copied(s, chunks, dest, CopyFits(s, chunks, dest), Copy(s, true, chunks, dest))
  {
    CopyOpens(s, dest, chunks);
    var (t, h) := Open(s, dest, COPY_MODE).value;
    if h != -1 {
      if HasBlock(t, h) {
        CopyWithBlock(s, t, h, chunks, dest);
      } else {
        CopyWithoutBlock(s, t, h, chunks, dest);
      }
    }
  }

  lemma OverwriteReplaces(kept: seq<Byte>, bytes: seq<Byte>)
    ensures FS.Overwrite(kept, 0, bytes) == bytes <==> |kept| <= |bytes|
  {
  }

  /** A successful copy leaves exactly the source, cut at the block size, if and only if what the
      open kept is no longer than that; it keeps nothing unless the destination is a soft link. */
  lemma CopyReplaces(s: State, chunks: seq<Chunk>, dest: CString)
    requires AlwaysOk(s) && CopyFits(s, chunks, dest)
    ensures Copy(s, true, chunks, dest).Ok?
    ensures var t, source := Copy(s, true, chunks, dest).value.0, Cut(Join(chunks), s.blockSize);
            AlwaysOk(t) && (Leads(Abs(t), dest, source) <==> |Kept(Abs(s), dest)| <= |source|)
    ensures !FS.Bound(Abs(s), dest) || Abs(s).nodes[FS.Target(Abs(s), dest)].kind.File? ==> Kept(Abs(s), dest) == []
  {
    CopyExact(s, chunks, dest);
    OverwriteReplaces(Kept(Abs(s), dest), Cut(Join(chunks), s.blockSize));
    if FS.Bound(Abs(s), dest) {
      BoundIsLive(s, dest);
    }
  }
}
