/** What single calls promise a client, for every reachable state of the tables. */
module Guarantees {
  import opened Base
  import opened Layout
  import opened Tables
  import opened Directory
  import opened Invariants
  import opened Effects
  import opened Operations
  import opened Simulation
  import opened Runs
  import opened Always
  import FS = FileSystem

  // ---------- writing touches one stretch of one block ----------

  /** The bytes that can be read under a name. */
  ghost function ContentUnder(s: State, name: CString): seq<Byte>
    requires NamesOk(s) && name in LiveNames(RootDir(s))
  {
    NamedIsTaken(s, name);
    Content(s, Names(RootDir(s))[name])
  }

  /** Block b, which is not the directory's, holds the bytes from `at` on, and nothing else changed in it or
      in any other block. */
  ghost predicate OneStretch(s: State, t: State, b: int, at: nat, bytes: seq<Byte>)
    requires RootOk(s) && SameShape(s, t)
  {
    && ValidBlock(s, b) && b != s.inodes[0].block && t.blocks == s.blocks[b := t.blocks[b]]
    && (forall i :: 0 <= i < s.blockSize ==>
         t.blocks[b][i] == if at <= i < at + |bytes| then bytes[i - at] else s.blocks[b][i])
  }

  /** A write changes only the bytes from the handle's offset on, in the block of the inode that the
      handle is on, and that is never the directory's block. After a deletion it can be the block of
      another file: WriteIsolation says when. */
  lemma WriteChangesOneStretch(s: State, h: int, buffer: seq<Byte>)
    requires AlwaysOk(s) && ValidHandle(s, h) && Write(s, h, buffer).Ok? && Write(s, h, buffer).value.1 > 0
    ensures var at := s.handles[h].offset;
            var (t, count) := Write(s, h, buffer).value;
            && 0 <= s.handles[h].inum < |s.inodes| && count == Min(|buffer|, s.blockSize - at)
            && RootDir(t) == RootDir(s)
            && OneStretch(s, t, t.inodes[s.handles[h].inum].block, at, buffer[..count])
  {
    assert HandleBounded(s, s.handles[h]);
    OwnerHasBlock(s, 0);
    WrittenStretch(s, h, buffer);
    WriteAlways(s, h, buffer);
  }

  lemma WrittenStretch(s: State, h: int, buffer: seq<Byte>)
    requires RootOk(s) && s.blockBits[s.inodes[0].block] && ValidHandle(s, h) && HandleBounded(s, s.handles[h])
    requires Write(s, h, buffer).Ok? && Write(s, h, buffer).value.1 > 0
    ensures var at := s.handles[h].offset;
            var (t, count) := Write(s, h, buffer).value;
            count == Min(|buffer|, s.blockSize - at)
            && OneStretch(s, t, t.inodes[s.handles[h].inum].block, at, buffer[..count])
  {
    var b := First(s.blockBits, IsFree, 0);
    assert b >= 0 ==> IsFree(s.blockBits[b]);
  }

  /** Both inodes have bytes, in the same block. */
  predicate Share(s: State, n: int, m: int)
    requires Shape(s) && 0 <= n < |s.inodes| && 0 <= m < |s.inodes|
  {
    s.inodes[n].size > 0 && s.inodes[m].size > 0 && s.inodes[n].block == s.inodes[m].block
  }

  /** The files that a write reaches: the handle's own, and the one that has got the block of an inode
      that was deleted under the handle. */
  predicate Reaches(s: State, n: int, m: int)
    requires Shape(s) && 0 <= n < |s.inodes| && 0 <= m < |s.inodes|
  {
    n == m || (!s.inodeBits[n] && Share(s, n, m))
  }

  /** Of two inodes that share a block, one is FREE. */
  lemma OnlyDeletedShare(s: State, n: nat, m: nat)
    requires AlwaysOk(s) && n < |s.inodes| && m < |s.inodes| && n != m && Share(s, n, m)
    ensures !s.inodeBits[n] || !s.inodeBits[m]
  {
    if s.inodeBits[n] && s.inodeBits[m] {
      BlocksApart(s, n, m);
    }
  }

  lemma TakenContent(s: State, m: nat)
    requires AlwaysOk(s) && m < |s.inodes| && s.inodeBits[m]
    ensures |Content(s, m)| == s.inodes[m].size <= s.blockSize
    ensures s.inodes[m].size > 0 ==>
              && ValidBlock(s, s.inodes[m].block) && s.blockBits[s.inodes[m].block]
              && Content(s, m) == s.blocks[s.inodes[m].block][..s.inodes[m].size]
  {
    ContentSize(s, m);
    if s.inodes[m].size > 0 {
      OwnerHasBlock(s, m);
    }
  }

  /** Where the written block lies, seen from another file. */
  lemma OtherBlock(s: State, h: int, buffer: seq<Byte>, m: nat)
    requires AlwaysOk(s) && ValidHandle(s, h) && Write(s, h, buffer).Ok? && Write(s, h, buffer).value.1 > 0
    requires m < |s.inodes| && s.inodeBits[m] && m != s.handles[h].inum && s.inodes[m].size > 0
    ensures 1 <= s.handles[h].inum < |s.inodes|
    ensures var t, n := Write(s, h, buffer).value.0, s.handles[h].inum;
            t.inodes[m] == s.inodes[m] && (t.inodes[n].block == s.inodes[m].block <==> Reaches(s, n, m))
  {
    assert HandleBounded(s, s.handles[h]);
    WriteTakes(s, h, buffer);
    TakenContent(s, m);
    var n, b := s.handles[h].inum, First(s.blockBits, IsFree, 0);
    assert b >= 0 ==> IsFree(s.blockBits[b]);
    if Share(s, n, m) {
      OnlyDeletedShare(s, n, m);
    }
  }

  /** `bytes` were laid over `before` from `at` on, if they hit it; only the handle's own file can have
      grown, over whatever lay in its block past its end. */
  ghost predicate Overlaid(before: seq<Byte>, after: seq<Byte>, own: bool, hit: bool, at: nat, bytes: seq<Byte>,
                           under: seq<Byte>)
  {
    && |after| == (if own && at + |bytes| > |before| then at + |bytes| else |before|) <= |under|
    && forall i :: 0 <= i < |after| ==>
         after[i] == if hit && at <= i < at + |bytes| then bytes[i - at]
                     else if i < |before| then before[i] else under[i]
  }

  lemma OverlaidMeans(before: seq<Byte>, after: seq<Byte>, own: bool, hit: bool, at: nat, bytes: seq<Byte>,
                      under: seq<Byte>)
    requires Overlaid(before, after, own, hit, at, bytes, under) && (own ==> hit)
    ensures own && at <= |before| ==> after == FS.Overwrite(before, at, bytes)
    ensures !hit ==> after == before
    ensures after != before && !own <==>
            !own && hit && exists i :: at <= i < at + |bytes| && i < |before| && bytes[i - at] != before[i]
  {
  }

  lemma OwnFileShows(s: State, t: State, n: nat, b: nat, at: nat, bytes: seq<Byte>)
    requires RootOk(s) && SameShape(s, t) && 1 <= n < |s.inodes| && BytesOk(s, n) && |bytes| > 0
    requires OneStretch(s, t, b, at, bytes) && at + |bytes| <= s.blockSize
    requires s.inodes[n].size > 0 ==> s.inodes[n].block == b
    requires t.inodes[n] == s.inodes[n].(block := b, size := if at + |bytes| > s.inodes[n].size then at + |bytes|
                                                            else s.inodes[n].size)
    ensures Overlaid(Content(s, n), Content(t, n), true, true, at, bytes, s.blocks[b])
  {
  }

  lemma OtherFileShows(s: State, t: State, m: nat, b: nat, at: nat, bytes: seq<Byte>, hit: bool)
    requires RootOk(s) && SameShape(s, t) && m < |s.inodes| && t.inodes[m] == s.inodes[m]
    requires s.inodes[m].size <= s.blockSize && (s.inodes[m].size > 0 ==> ValidBlock(s, s.inodes[m].block))
    requires OneStretch(s, t, b, at, bytes) && (s.inodes[m].size > 0 ==> (hit <==> s.inodes[m].block == b))
    ensures Overlaid(Content(s, m), Content(t, m), false, hit, at, bytes, s.blocks[b])
  {
  }

  /** What a write leaves in any TAKEN inode m, byte by byte: in the files that it reaches, the buffer
      from the handle's offset on, and before that the bytes that were there; in every other file, what
      it held. Past the old end of the handle's own file lie bytes that nobody wrote to it. */
  lemma WriteShows(s: State, h: int, buffer: seq<Byte>, m: nat)
    requires AlwaysOk(s) && ValidHandle(s, h) && Write(s, h, buffer).Ok? && Write(s, h, buffer).value.1 > 0
    requires m < |s.inodes| && s.inodeBits[m]
    ensures 1 <= s.handles[h].inum < |s.inodes|
    ensures var n, at := s.handles[h].inum, s.handles[h].offset;
            var (t, count) := Write(s, h, buffer).value;
            && 0 < count <= |buffer| && ValidBlock(s, t.inodes[n].block)
            && Overlaid(Content(s, m), Content(t, m), m == n, Reaches(s, n, m), at, buffer[..count],
                        s.blocks[t.inodes[n].block])
  {
    assert HandleBounded(s, s.handles[h]);
    WriteChangesOneStretch(s, h, buffer);
    WriteTakes(s, h, buffer);
    TakenContent(s, m);
    var n, at := s.handles[h].inum, s.handles[h].offset;
    var (t, count) := Write(s, h, buffer).value;
    if m == n {
      OwnFileShows(s, t, n, t.inodes[n].block, at, buffer[..count]);
    } else {
      if s.inodes[m].size > 0 {
        OtherBlock(s, h, buffer, m);
      }
      OtherFileShows(s, t, m, t.inodes[n].block, at, buffer[..count], Reaches(s, n, m));
    }
  }

  /** A write changes another file exactly when the handle was left on an inode that is FREE and still
      has bytes, the other file has got its block, and the buffer differs from what is there. */
  lemma WriteIsolation(s: State, h: int, buffer: seq<Byte>, m: nat)
    requires AlwaysOk(s) && ValidHandle(s, h) && Write(s, h, buffer).Ok? && Write(s, h, buffer).value.1 > 0
    requires m < |s.inodes| && s.inodeBits[m] && m != s.handles[h].inum
    ensures 1 <= s.handles[h].inum < |s.inodes|
    ensures var n, at := s.handles[h].inum, s.handles[h].offset;
            var (t, count) := Write(s, h, buffer).value;
            Content(t, m) != Content(s, m) <==>
              && !s.inodeBits[n] && Share(s, n, m)
              && exists i :: at <= i < at + count && i < s.inodes[m].size && buffer[i - at] != Content(s, m)[i]
  {
    WriteShows(s, h, buffer, m);
    TakenContent(s, m);
    var n := s.handles[h].inum;
    var (t, count) := Write(s, h, buffer).value;
    OverlaidMeans(Content(s, m), Content(t, m), false, Reaches(s, n, m), s.handles[h].offset, buffer[..count],
                  s.blocks[t.inodes[n].block]);
  }

  /** Every directory record reads as before, and under every name lies what WriteShows says. Through a
      handle in order the written file is overlaid, and every name of another file shows what it showed. */
  lemma WriteShowsUnderNames(s: State, h: int, buffer: seq<Byte>, name: CString)
    requires AlwaysOk(s) && ValidHandle(s, h) && Write(s, h, buffer).Ok? && Write(s, h, buffer).value.1 > 0
    requires name in LiveNames(RootDir(s))
    ensures AlwaysOk(Write(s, h, buffer).value.0) && RootDir(Write(s, h, buffer).value.0) == RootDir(s)
    ensures 1 <= s.handles[h].inum < |s.inodes| && 1 <= Names(RootDir(s))[name] < |s.inodes|
    ensures var n, m, at := s.handles[h].inum, Names(RootDir(s))[name], s.handles[h].offset;
            var (t, count) := Write(s, h, buffer).value;
            var before, after := ContentUnder(s, name), ContentUnder(t, name);
            && 0 < count <= |buffer| && ValidBlock(s, t.inodes[n].block)
            && Overlaid(before, after, m == n, Reaches(s, n, m), at, buffer[..count], s.blocks[t.inodes[n].block])
            && (m == n && at <= |before| ==> after == FS.Overwrite(before, at, buffer[..count]))
            && (!Reaches(s, n, m) ==> after == before)
  {
    WriteAlways(s, h, buffer);
    NamedIsTaken(s, name);
    var n, m, at := s.handles[h].inum, Names(RootDir(s))[name], s.handles[h].offset;
    var (t, count) := Write(s, h, buffer).value;
    WriteShows(s, h, buffer, m);
    OverlaidMeans(Content(s, m), Content(t, m), m == n, Reaches(s, n, m), at, buffer[..count],
                  s.blocks[t.inodes[n].block]);
  }

  // ---------- reading ----------

  lemma BoundedContent(s: State, n: nat)
    requires RootOk(s) && n < |s.inodes| && BytesOk(s, n)
    ensures |Content(s, n)| == s.inodes[n].size
  {
  }

  /** A read stays inside its file, deleted or not, exactly when its handle has not been left past the
      file's end. Past the end the unsigned subtraction wraps, and a read that completes returns as many
      bytes as were asked for, from fs_data. */
  lemma ReadIffInBounds(s: State, h: int, len: SizeT)
    requires AlwaysOk(s) && ValidHandle(s, h) && len > 0
    ensures 1 <= s.handles[h].inum < |s.inodes|
    ensures var n, at, r := s.handles[h].inum, s.handles[h].offset, Read(s, h, len);
            var content := Content(s, n);
            && |content| == s.inodes[n].size
            && (at <= |content| <==> r.Ok? && at + r.value.1 <= |content|)
            && (at <= |content| ==> r.value.1 == Min(len, |content| - at) && r.value.2 == content[at..at + r.value.1])
            && (at > |content| && r.Ok? ==>
                 && ValidBlock(s, s.inodes[n].block) && r.value.1 == len
                 && var from := BlockStart(s, s.inodes[n].block) + at;
                 from + len <= DataSize(s) && r.value.2 == Memory(s)[from..from + len])
  {
    assert HandleBounded(s, s.handles[h]);
    var n, at := s.handles[h].inum, s.handles[h].offset;
    BoundedContent(s, n);
    if at <= |Content(s, n)| {
      ReadUnfolds(s, h, len, Min(len, |Content(s, n)| - at));
    }
  }

  // ---------- failing calls ----------

  /** Nothing a client can see, and neither bitmap, differs. */
  ghost predicate Unchanged(s: State, t: State)
    requires RootOk(s)
  {
    && RootOk(t) && RootDir(t) == RootDir(s) && Abs(t) == Abs(s)
    && t.inodeBits == s.inodeBits && t.blockBits == s.blockBits
  }

  lemma FailedSymLink(s: State, target: CString, link: CString)
    requires AlwaysOk(s) && |link| > 0 && SymLink(s, target, link).Ok? && SymLink(s, target, link).value.1 == -1
    ensures Unchanged(s, SymLink(s, target, link).value.0)
  {
    NewFileAgrees(s);
    var n := First(s.inodeBits, IsFree, 0);
    if FS.Bound(Abs(s), target) && n != -1 {
      LookupAgrees(s, target);
      BoundFacts(s, target);
      SymLinkUnfolds(s, target, link, n);
      assert IsFree(s.inodeBits[n]);
      FreeInodeHidden(s, n, LinkNode(s, n, target));
    } else {
      SymLinkTrivial(s, target, link);
    }
  }

  lemma FailedLink(s: State, target: CString, link: CString)
    requires RootOk(s) && |link| > 0 && Link(s, target, link).Ok? && Link(s, target, link).value.1 == -1
    ensures Link(s, target, link).value.0 == s
  {
  }

  lemma FailedWrite(s: State, h: int, buffer: seq<Byte>)
    requires RootOk(s) && Write(s, h, buffer).Ok? && Write(s, h, buffer).value.1 == -1
    ensures Write(s, h, buffer).value.0 == s
  {
  }

  lemma FailedRead(s: State, h: int, len: SizeT)
    requires RootOk(s) && Read(s, h, len).Ok? && Read(s, h, len).value.1 == -1
    ensures Read(s, h, len).value.0 == s
  {
  }

  lemma FailedUnlink(s: State, path: CString)
    requires AlwaysOk(s) && Unlink(s, path).Ok? && Unlink(s, path).value.1 == -1
    ensures Unlink(s, path).value.0 == s
  {
    if FS.Bound(Abs(s), path) {
      BoundFacts(s, path);
      TakenBytesOk(s, FS.Target(Abs(s), path));
      UnlinkBound(s, path);
    } else {
      UnlinkUnbound(s, path);
    }
  }

  /** Inode n leads to a file, and has bytes that TRUNC would cut off. */
  ghost predicate Truncates(s: State, n: int, mode: Mode)
    requires RootOk(s)
  {
    && mode.trunc && n in Abs(s).nodes && FS.Resolve(Abs(s), n) != -1
    && 0 <= n < |s.inodes| && s.inodes[n].size > 0
  }

  /** A new file can have this path. */
  ghost predicate CanBeMade(s: State, path: CString)
    requires RootOk(s)
  {
    FS.IsPath(path) && First(s.inodeBits, IsFree, 0) != -1 && HasRoom(RootDir(s), path[1..])
  }

  ghost predicate Creates(s: State, path: CString, mode: Mode)
    requires RootOk(s)
  {
    mode.creat && CanBeMade(s, path)
  }

  /** An open that finds the handle table full, after it truncated or created the file. */
  ghost predicate OpensInVain(s: State, op: FS.Op)
    requires RootOk(s)
  {
    && op.OpenOp? && First(s.handleBits, IsFree, 0) == -1
    && if FS.Bound(Abs(s), op.path) then Truncates(s, FS.Target(Abs(s), op.path), op.mode)
       else Creates(s, op.path, op.mode)
  }

  lemma OpenIs(s: State, path: CString, mode: Mode, n: nat)
    requires RootOk(s) && ValidPath(path) && Lookup(s, 0, path) == Ok(n) && n < |s.inodes|
    ensures Open(s, path, mode) == OpenExisting(s, 0, n, mode)
  {
  }

  /** The tables once TRUNC has been obeyed. */
  ghost function Prepared(s: State, n: nat, mode: Mode): State
    requires Shape(s) && n < |s.inodes| && Truncate(s, n).Ok?
  {
    if mode.trunc then Truncate(s, n).value else s
  }

  /** tfs_open on a bound path, when it leads somewhere and when it does not. */
  lemma OpenBoundUnfolds(s: State, path: CString, mode: Mode, n: int)
    requires AlwaysOk(s) && FS.Bound(Abs(s), path) && n == FS.Target(Abs(s), path)
    ensures 1 <= n < |s.inodes| && s.inodeBits[n] && n in Abs(s).nodes && Truncate(s, n).Ok?
    ensures FS.Resolve(Abs(s), n) == -1 ==> Open(s, path, mode) == Ok((s, -1))
    ensures FS.Resolve(Abs(s), n) != -1 ==>
              Open(s, path, mode) == Ok(AddHandle(Prepared(s, n, mode), FS.Resolve(Abs(s), n),
                                                  if mode.append then Prepared(s, n, mode).inodes[n].size else 0))
  {
    LookupAgrees(s, path);
    BoundFacts(s, path);
    ResolveAgrees(s, n);
    TruncateAlways(s, n);
    OpenIs(s, path, mode, n);
    OpenExistingUnfolds(s, n, mode, FS.Resolve(Abs(s), n), Prepared(s, n, mode));
  }

  lemma PreparedSame(s: State, n: nat, mode: Mode)
    requires Shape(s) && n < |s.inodes| && Truncate(s, n).Ok?
    ensures var t := Prepared(s, n, mode);
            && (t == s <==> !(mode.trunc && s.inodes[n].size > 0))
            && t.handles == s.handles && t.handleBits == s.handleBits
            && t.inodes[n].size == (if mode.trunc then 0 else s.inodes[n].size)
            && forall m :: 0 <= m < |s.inodes| && m != n ==> t.inodes[m] == s.inodes[m]
  {
  }

  lemma FailedOpenBound(s: State, path: CString, mode: Mode)
    requires AlwaysOk(s) && FS.Bound(Abs(s), path)
    requires Open(s, path, mode).Ok? && Open(s, path, mode).value.1 == -1
    ensures First(s.handleBits, IsFree, 0) == -1 || Open(s, path, mode).value.0 == s
    ensures if Truncates(s, FS.Target(Abs(s), path), mode) then !Unchanged(s, Open(s, path, mode).value.0)
            else Open(s, path, mode).value.0 == s
  {
    var n := FS.Target(Abs(s), path);
    OpenBoundUnfolds(s, path, mode, n);
    PreparedSame(s, n, mode);
    if Truncates(s, n, mode) {
      TruncationShows(s, n);
    }
  }

  lemma TruncationShows(s: State, n: nat)
    requires AlwaysOk(s) && 1 <= n < |s.inodes| && s.inodeBits[n] && s.inodes[n].size > 0
    ensures Truncate(s, n).Ok? && RootOk(Truncate(s, n).value) && Abs(Truncate(s, n).value) != Abs(s)
  {
    TakenBytesOk(s, n);
    var t := Truncate(s, n).value;
    assert |Nodes(s)[n].content| > 0 && |Nodes(t)[n].content| == 0;
  }

  lemma FailedCreate(s: State, path: CString)
    requires AlwaysOk(s) && ValidPath(path) && CreateFile(s, 0, path).Ok? && CreateFile(s, 0, path).value.1 == -1
    ensures Unchanged(s, CreateFile(s, 0, path).value.0) <==>
            First(s.inodeBits, IsFree, 0) == -1 || !HasRoom(RootDir(s), path[1..])
    ensures First(s.inodeBits, IsFree, 0) != -1 && HasRoom(RootDir(s), path[1..]) ==>
              First(s.handleBits, IsFree, 0) == -1
  {
    NewFileAgrees(s);
    var n := First(s.inodeBits, IsFree, 0);
    if n != -1 {
      CreateAlways(s, path);
      if HasRoom(RootDir(s), path[1..]) {
        CreateFileUnfolds(s, path, n);
        var k := First(RootDir(s), IsEmptySlot, 0);
        assert Filled(RootDir(s), path[1..], n)[k] == Record(path[1..], n);
        FirstEmptyIsEmpty(RootDir(s));
      } else {
        CreateFileFails(s, path, n);
        FreeInodeHidden(s, n, NewNode(s, n, TFile));
      }
    }
  }

  lemma FailedOpen(s: State, path: CString, mode: Mode)
    requires AlwaysOk(s) && Open(s, path, mode).Ok? && Open(s, path, mode).value.1 == -1
    ensures Unchanged(s, Open(s, path, mode).value.0) <==> !OpensInVain(s, FS.OpenOp(path, mode))
  {
    if FS.Bound(Abs(s), path) {
      FailedOpenBound(s, path, mode);
    } else {
      OpenUnboundIs(s, path, mode);
      if ValidPath(path) && mode.creat {
        FailedCreate(s, path);
      }
    }
  }

  lemma FullTableCreates(s: State, path: CString)
    requires RootOk(s) && |path| > 0 && First(s.handleBits, IsFree, 0) == -1
    ensures CreateFile(s, 0, path).Ok? ==> CreateFile(s, 0, path).value.1 == -1
  {
    NewFileAgrees(s);
    var n := First(s.inodeBits, IsFree, 0);
    if n != -1 {
      if HasRoom(RootDir(s), path[1..]) {
        CreateFileUnfolds(s, path, n);
      } else {
        CreateFileFails(s, path, n);
      }
    }
  }

  lemma FullTableFails(s: State, path: CString, mode: Mode)
    requires AlwaysOk(s) && First(s.handleBits, IsFree, 0) == -1 && Open(s, path, mode).Ok?
    ensures Open(s, path, mode).value.1 == -1
  {
    if FS.Bound(Abs(s), path) {
      OpenBoundUnfolds(s, path, mode, FS.Target(Abs(s), path));
    } else {
      OpenUnboundIs(s, path, mode);
      if ValidPath(path) && mode.creat {
        FullTableCreates(s, path);
      }
    }
  }

  lemma FailedOther(s: State, op: FS.Op)
    requires AlwaysOk(s) && FS.WellFormed(op) && !op.OpenOp? && Step(s, op).Ok? && Step(s, op).value.1.value == -1
    ensures Unchanged(s, Step(s, op).value.0)
  {
    match op
    case CloseOp(h) =>
    case WriteOp(h, buffer) => FailedWrite(s, h, buffer);
    case ReadOp(h, len) => FailedRead(s, h, len);
    case LinkOp(target, link) => FailedLink(s, target, link);
    case SymLinkOp(target, link) => FailedSymLink(s, target, link);
    case UnlinkOp(path) => FailedUnlink(s, path);
  }

  /** A call that returns -1 changes nothing, exactly unless it is an open that did part of its
      work before it found the handle table full; and such an open does return -1. */
  lemma FailureAtomicity(s: State, op: FS.Op)
    requires AlwaysOk(s) && FS.WellFormed(op) && Step(s, op).Ok?
    ensures Step(s, op).value.1.value == -1 ==> (Unchanged(s, Step(s, op).value.0) <==> !OpensInVain(s, op))
    ensures op.OpenOp? && First(s.handleBits, IsFree, 0) == -1 ==> Step(s, op).value.1.value == -1
  {
    if op.OpenOp? {
      if First(s.handleBits, IsFree, 0) == -1 {
        FullTableFails(s, op.path, op.mode);
      }
      if Open(s, op.path, op.mode).value.1 == -1 {
        FailedOpen(s, op.path, op.mode);
      }
    } else if Step(s, op).value.1.value == -1 {
      FailedOther(s, op);
    }
  }

  // ---------- creating ----------

  /** The branch of tfs_open that creates, with what it takes. */
  lemma CreateTakes(s: State, path: CString)
    requires RootOk(s) && ValidPath(path)
    ensures var r := CreateFile(s, 0, path);
            var n, h := First(s.inodeBits, IsFree, 0), First(s.handleBits, IsFree, 0);
            var k := First(RootDir(s), IsEmptySlot, 0);
            && r.Ok? && RootOk(r.value.0)
            && (r.value.1 != -1 <==> |path| <= MAX_FILE_NAME && n != -1 && k != -1 && h != -1)
            && (r.value.1 != -1 ==>
                 && r.value.1 == h && !ValidHandle(s, h) && IsFree(s.inodeBits[n])
                 && Takes(s, r.value.0, n, h) && RootDir(r.value.0) == RootDir(s)[k := Record(path[1..], n)])
  {
    NewFileAgrees(s);
    var n, h := First(s.inodeBits, IsFree, 0), First(s.handleBits, IsFree, 0);
    if n != -1 {
      if HasRoom(RootDir(s), path[1..]) {
        CreateFileUnfolds(s, path, n);
        PutDir(s, BindChange(s, n, NewNode(s, n, TFile), path[1..]));
        assert h != -1 ==> IsFree(s.handleBits[h]);
      } else {
        CreateFileFails(s, path, n);
      }
    }
  }

  /** Inode n and handle h, which is at the start of it, are the only ones that became TAKEN. */
  predicate Takes(s: State, t: State, n: int, h: int) {
    && Shape(s) && SameShape(s, t) && 0 <= n < |s.inodes| && 0 <= h < |s.handles|
    && t.inodeBits == s.inodeBits[n := true] && t.blockBits == s.blockBits
    && t.inodes == s.inodes[n := t.inodes[n]] && t.inodes[n].kind.TFile? && t.inodes[n].size == 0
    && t.handles == s.handles[h := Handle(n, 0)] && t.handleBits == s.handleBits[h := true]
  }

  /** Creating succeeds exactly when the name is short enough and an inode, a record and a
      handle are free; it takes the smallest free inode, record and handle. */
  lemma CreationSucceedsExactly(s: State, path: CString, mode: Mode)
    requires AlwaysOk(s) && ValidPath(path) && path[1..] !in LiveNames(RootDir(s)) && mode.creat
    ensures var r := Open(s, path, mode);
            var n, h := First(s.inodeBits, IsFree, 0), First(s.handleBits, IsFree, 0);
            var k := First(RootDir(s), IsEmptySlot, 0);
            && r.Ok? && AlwaysOk(r.value.0)
            && (r.value.1 != -1 <==> |path| <= MAX_FILE_NAME && n != -1 && k != -1 && h != -1)
            && (r.value.1 != -1 ==>
                 && r.value.1 == h && !ValidHandle(s, h) && IsFree(s.inodeBits[n])
                 && Takes(s, r.value.0, n, h) && RootDir(r.value.0) == RootDir(s)[k := Record(path[1..], n)])
  {
    OpenUnboundIs(s, path, mode);
    OpenAlways(s, path, mode);
    CreateTakes(s, path);
  }

  /** The call makes a file or a soft link. */
  ghost predicate Makes(s: State, op: FS.Op)
    requires NamesOk(s) && FS.WellFormed(op)
  {
    match op
    case OpenOp(path, mode) => !FS.Bound(Abs(s), path) && Creates(s, path, mode)
    case SymLinkOp(target, link) =>
      FS.Bound(Abs(s), target) && First(s.inodeBits, IsFree, 0) != -1 && HasRoom(RootDir(s), link[1..])
    case _ => false
  }

  /** Some record names inode n. */
  ghost predicate Listed(dir: seq<Entry>, n: int) {
    exists i :: 0 <= i < |dir| && dir[i].inum == n
  }

  lemma TakenIsListed(s: State, n: nat)
    requires NamesOk(s) && 1 <= n < |s.inodes|
    ensures s.inodeBits[n] <==> Listed(RootDir(s), n)
  {
    CountPositive(RootDir(s), n);
    assert Counted(s.inodes[n], s.inodeBits[n], Count(RootDir(s), n));
  }

  lemma FilledLists(dir: seq<Entry>, name: CString, n: int, m: int)
    requires HasRoom(dir, name) && m != NO_INUM
    ensures Listed(Filled(dir, name, n), m) <==> m == n || Listed(dir, m)
  {
    var k, d := First(dir, IsEmptySlot, 0), Filled(dir, name, n);
    assert d[k].inum == n && IsEmptySlot(dir[k]);
    forall i | 0 <= i < |dir| && dir[i].inum == m ensures d[i].inum == m {}
  }

  lemma EmptiedLists(dir: seq<Entry>, name: CString, m: int)
    requires m != NO_INUM && !Listed(dir, m)
    ensures !Listed(Emptied(dir, name), m)
  {
  }

  lemma LinkLists(s: State, target: CString, link: CString, n: nat)
    requires NamesOk(s) && |link| > 0 && 1 <= n < |s.inodes| && !s.inodeBits[n] && !Listed(RootDir(s), n)
    ensures !Listed(DirAfter(s, FS.LinkOp(target, link)), n)
  {
    if FS.Bound(Abs(s), target) && HasRoom(RootDir(s), link[1..]) {
      BoundFacts(s, target);
      FilledLists(RootDir(s), link[1..], FS.Target(Abs(s), target), n);
    }
  }

  /** What is made has the smallest FREE inode. */
  lemma MadeLists(s: State, op: FS.Op, n: nat)
    requires NamesOk(s) && FS.WellFormed(op) && (op.OpenOp? || op.SymLinkOp?) && !Listed(RootDir(s), n)
    ensures Listed(DirAfter(s, op), n) <==> Makes(s, op) && n == First(s.inodeBits, IsFree, 0)
  {
    if Makes(s, op) {
      FilledLists(RootDir(s), if op.OpenOp? then op.path[1..] else op.link[1..], First(s.inodeBits, IsFree, 0), n);
    }
  }

  lemma OthersListNone(s: State, op: FS.Op, n: nat)
    requires NamesOk(s) && FS.WellFormed(op) && !op.OpenOp? && !op.SymLinkOp?
    requires 1 <= n < |s.inodes| && !s.inodeBits[n] && !Listed(RootDir(s), n)
    ensures !Listed(DirAfter(s, op), n) && !Makes(s, op)
  {
    if op.LinkOp? {
      LinkLists(s, op.target, op.link, n);
    } else if op.UnlinkOp? && FS.Bound(Abs(s), op.path) {
      EmptiedLists(RootDir(s), op.path[1..], n);
    }
  }

  /** The inode of a deleted file is TAKEN again exactly when a call makes a file or a link and it is the
      smallest FREE one; handles that were left on it are then on what was made. */
  lemma ComesBackExactly(s: State, op: FS.Op, n: nat)
    requires AlwaysOk(s) && FS.WellFormed(op) && Step(s, op).Ok? && 1 <= n < |s.inodes| && !s.inodeBits[n]
    ensures Step(s, op).value.0.inodeBits[n] <==> Makes(s, op) && n == First(s.inodeBits, IsFree, 0)
  {
    CallAlways(s, op);
    TakenIsListed(s, n);
    TakenIsListed(Step(s, op).value.0, n);
    if op.OpenOp? || op.SymLinkOp? {
      MadeLists(s, op, n);
    } else {
      OthersListNone(s, op, n);
    }
  }
}
