/** What every run from tfs_init keeps, whatever its client does: files may be truncated or
    deleted under their handles, and names may be duplicated. */
module Always {
  import opened Base
  import opened Layout
  import opened Tables
  import opened Directory
  import opened Invariants
  import opened Effects
  import opened Operations
  import opened Simulation
  import opened Runs
  import FS = FileSystem

  lemma TakenBytesOk(s: State, n: nat)
    requires AlwaysOk(s) && 1 <= n < |s.inodes| && s.inodeBits[n]
    ensures BytesOk(s, n)
    ensures s.inodes[n].size > 0 ==> Owned(s.inodes, s.inodeBits)[n] == s.inodes[n].block
  {
    if s.inodes[n].size > 0 {
      OwnerHasBlock(s, n);
      BlocksApart(s, 0, n);
    }
  }

  lemma InvIsAlways(s: State)
    requires Inv(s)
    ensures AlwaysOk(s)
  {
    forall h | ValidHandle(s, h) ensures HandleBounded(s, s.handles[h]) {
      var n := s.handles[h].inum;
      if s.inodes[n].size > 0 {
        OwnerHasBlock(s, n);
        BlocksApart(s, 0, n);
      }
    }
  }

  // ---------- single changes ----------

  /** An inode that a handle may refer to. */
  ghost predicate FitsBlock(s: State, node: Inode)
    requires RootOk(s)
  {
    && node.size <= s.blockSize
    && (node.size > 0 ==> ValidBlock(s, node.block) && node.block != s.inodes[0].block)
  }

  lemma PutBounded(s: State, c: Change)
    requires Applies(s, c) && HandlesBounded(s) && FitsBlock(s, c.node)
    ensures RootOk(Put(s, c)) && HandlesBounded(Put(s, c))
  {
    PutDir(s, c);
    var t := Put(s, c);
    assert t.inodes == s.inodes[c.n := c.node] && t.handles == s.handles && t.handleBits == s.handleBits;
  }

  lemma PutAlways(s: State, c: Change)
    requires AlwaysOk(s) && Renames(s, c) && FitsBlock(s, c.node)
    requires Apart(if c.taken && c.node.size > 0 then Owned(s.inodes, s.inodeBits)[c.n := c.node.block]
                   else Owned(s.inodes, s.inodeBits) - {c.n}, c.blockBits)
    ensures AlwaysOk(Put(s, c)) && RootDir(Put(s, c)) == RootDir(s)[c.k := c.e]
  {
    PutNamesOk(s, c);
    PutBounded(s, c);
    OwnedChange(s.inodes, s.inodeBits, c.n, c.node, c.taken);
  }

  lemma RewriteAlways(s: State, t: State, n: nat)
    requires AlwaysOk(s) && Rewrites(s, t, n) && FitsBlock(s, t.inodes[n])
    requires Apart(if s.inodeBits[n] && t.inodes[n].size > 0 then Owned(s.inodes, s.inodeBits)[n := t.inodes[n].block]
                   else Owned(s.inodes, s.inodeBits) - {n}, t.blockBits)
    requires t.handles == s.handles && t.handleBits == s.handleBits
    ensures AlwaysOk(t) && RootDir(t) == RootDir(s)
  {
    NodesKept(s.inodes, s.inodeBits, RootDir(s), n, t.inodes[n]);
    OwnedChange(s.inodes, s.inodeBits, n, t.inodes[n], s.inodeBits[n]);
    assert s.inodeBits[n := s.inodeBits[n]] == s.inodeBits;
  }

  /** Changing a handle, or opening or closing one. */
  lemma HandleAlways(s: State, h: nat, handle: Handle, taken: bool)
    requires AlwaysOk(s) && h < |s.handles| && (taken ==> HandleBounded(s, handle))
    ensures var t := s.(handles := s.handles[h := handle], handleBits := s.handleBits[h := taken]);
            AlwaysOk(t) && RootDir(t) == RootDir(s)
  {
  }

  lemma AddHandleAlways(s: State, n: int, offset: SizeT)
    requires AlwaysOk(s) && HandleBounded(s, Handle(n, offset))
    ensures AlwaysOk(AddHandle(s, n, offset).0) && RootDir(AddHandle(s, n, offset).0) == RootDir(s)
  {
    var h := First(s.handleBits, IsFree, 0);
    if h != -1 {
      HandleAlways(s, h, Handle(n, offset), true);
    }
  }

  // ---------- opening ----------

  lemma TruncateAlways(s: State, n: nat)
    requires AlwaysOk(s) && 1 <= n < |s.inodes| && s.inodeBits[n]
    ensures var r := Truncate(s, n);
            r.Ok? && AlwaysOk(r.value) && RootDir(r.value) == RootDir(s) && r.value.inodeBits == s.inodeBits
  {
    TakenBytesOk(s, n);
    if s.inodes[n].size > 0 {
      ApartFreed(Owned(s.inodes, s.inodeBits), s.blockBits, n);
      RewriteAlways(s, Truncate(s, n).value, n);
    }
  }

  lemma OpenExistingAlways(s: State, n: nat, mode: Mode, dest: int)
    requires AlwaysOk(s) && 1 <= n < |s.inodes| && s.inodeBits[n]
    requires (if s.inodes[n].kind.TSoftLink? then Lookup(s, 0, CStr(s.inodes[n].target)) else Ok(n)) == Ok(dest)
    requires dest == -1 || (1 <= dest < |s.inodes| && s.inodeBits[dest])
    ensures var r := OpenExisting(s, 0, n, mode);
            r.Ok? && AlwaysOk(r.value.0) && RootDir(r.value.0) == RootDir(s)
  {
    TruncateAlways(s, n);
    var t := if mode.trunc then Truncate(s, n).value else s;
    OpenExistingUnfolds(s, n, mode, dest, t);
    if dest != -1 {
      TakenBytesOk(t, n);
      TakenBytesOk(t, dest);
      AddHandleAlways(t, dest, if mode.append then t.inodes[n].size else 0);
    }
  }

  lemma OpenBoundAlways(s: State, path: CString, mode: Mode)
    requires AlwaysOk(s) && FS.Bound(Abs(s), path)
    ensures var r := Open(s, path, mode);
            r.Ok? && AlwaysOk(r.value.0) && RootDir(r.value.0) == RootDir(s)
  {
    LookupAgrees(s, path);
    BoundFacts(s, path);
    ResolveAgrees(s, FS.Target(Abs(s), path));
    OpenExistingAlways(s, FS.Target(Abs(s), path), mode, FS.Resolve(Abs(s), FS.Target(Abs(s), path)));
  }

  /** Names of different inodes, links that fail and files that fail to be created leave the
      directory alone; otherwise one record is filled or emptied. */
  ghost function DirAfter(s: State, op: FS.Op): seq<Entry>
    requires NamesOk(s) && FS.WellFormed(op)
  {
    var dir, n := RootDir(s), First(s.inodeBits, IsFree, 0);
    match op
    case OpenOp(path, mode) =>
      if !FS.Bound(Abs(s), path) && ValidPath(path) && mode.creat && n != -1 && HasRoom(dir, path[1..]) then
        Filled(dir, path[1..], n)
      else dir
    case LinkOp(target, link) =>
      if FS.Bound(Abs(s), target) && Linkable(s, FS.Target(Abs(s), target)) && HasRoom(dir, link[1..]) then
        Filled(dir, link[1..], FS.Target(Abs(s), target))
      else dir
    case SymLinkOp(target, link) =>
      if FS.Bound(Abs(s), target) && n != -1 && HasRoom(dir, link[1..]) then Filled(dir, link[1..], n) else dir
    case UnlinkOp(path) =>
      if FS.Bound(Abs(s), path) then Emptied(dir, path[1..]) else dir
    case _ => dir
  }

  /** The first empty record takes the name. */
  ghost function Filled(dir: seq<Entry>, name: CString, n: int): seq<Entry>
    requires HasRoom(dir, name)
  {
    dir[First(dir, IsEmptySlot, 0) := Record(name, n)]
  }

  /** The record that find_in_dir finds is cleared. */
  ghost function Emptied(dir: seq<Entry>, name: CString): seq<Entry> {
    var k := First(dir, Matches(name), 0);
    if k == -1 then dir else dir[k := BLANK]
  }

  /** A free inode is taken and gets its first name. */
  lemma BindAlways(s: State, n: nat, node: Inode, name: CString)
    requires AlwaysOk(s) && CanBind(s, n, node, name)
    ensures var t := Put(s, BindChange(s, n, node, name));
            AlwaysOk(t) && RootDir(t) == Filled(RootDir(s), name, n)
  {
    BindRenames(s, n, node, name);
    assert Owned(s.inodes, s.inodeBits) - {n} == Owned(s.inodes, s.inodeBits);
    PutAlways(s, BindChange(s, n, node, name));
  }

  /** A free inode was taken and given back. */
  lemma SpareAlways(s: State, n: nat, node: Inode)
    requires AlwaysOk(s) && 1 <= n < |s.inodes| && !s.inodeBits[n] && node.size == 0
    ensures var t := s.(inodes := s.inodes[n := node]);
            AlwaysOk(t) && RootDir(t) == RootDir(s)
  {
    assert Owned(s.inodes, s.inodeBits) - {n} == Owned(s.inodes, s.inodeBits);
    RewriteAlways(s, s.(inodes := s.inodes[n := node]), n);
  }

  lemma CreateAlways(s: State, path: CString)
    requires AlwaysOk(s) && |path| > 0
    ensures var r, n := CreateFile(s, 0, path), First(s.inodeBits, IsFree, 0);
            && r.Ok? && AlwaysOk(r.value.0)
            && RootDir(r.value.0) ==
               if n != -1 && HasRoom(RootDir(s), path[1..]) then Filled(RootDir(s), path[1..], n) else RootDir(s)
  {
    NewFileAgrees(s);
    var n := First(s.inodeBits, IsFree, 0);
    if n != -1 {
      var node := NewNode(s, n, TFile);
      if HasRoom(RootDir(s), path[1..]) {
        var t := Put(s, BindChange(s, n, node, path[1..]));
        CreateFileUnfolds(s, path, n);
        BindAlways(s, n, node, path[1..]);
        AddHandleAlways(t, n, 0);
      } else {
        CreateFileFails(s, path, n);
        SpareAlways(s, n, node);
      }
    }
  }

  lemma OpenAlways(s: State, path: CString, mode: Mode)
    requires AlwaysOk(s)
    ensures var r := Open(s, path, mode);
            r.Ok? && AlwaysOk(r.value.0) && RootDir(r.value.0) == DirAfter(s, FS.OpenOp(path, mode))
  {
    if FS.Bound(Abs(s), path) {
      OpenBoundAlways(s, path, mode);
    } else {
      OpenUnboundIs(s, path, mode);
      if ValidPath(path) && mode.creat {
        CreateAlways(s, path);
      }
    }
  }

  // ---------- links ----------

  lemma SymLinkAlways(s: State, target: CString, link: CString)
    requires AlwaysOk(s) && |link| > 0
    ensures var r, n := SymLink(s, target, link), First(s.inodeBits, IsFree, 0);
            && r.Ok? && AlwaysOk(r.value.0)
            && RootDir(r.value.0) ==
               if FS.Bound(Abs(s), target) && n != -1 && HasRoom(RootDir(s), link[1..]) then
                 Filled(RootDir(s), link[1..], n)
               else RootDir(s)
  {
    NewFileAgrees(s);
    var n := First(s.inodeBits, IsFree, 0);
    if FS.Bound(Abs(s), target) && n != -1 {
      var node := LinkNode(s, n, target);
      LookupAgrees(s, target);
      BoundFacts(s, target);
      SymLinkUnfolds(s, target, link, n);
      if HasRoom(RootDir(s), link[1..]) {
        BindAlways(s, n, node, link[1..]);
      } else {
        SpareAlways(s, n, node);
      }
    } else {
      SymLinkTrivial(s, target, link);
    }
  }

  lemma LinkAlways(s: State, target: CString, link: CString)
    requires AlwaysOk(s) && |link| > 0
    ensures var r := Link(s, target, link);
            && r.Ok? && AlwaysOk(r.value.0)
            && RootDir(r.value.0) ==
               if FS.Bound(Abs(s), target) && Linkable(s, FS.Target(Abs(s), target)) && HasRoom(RootDir(s), link[1..])
               then
                 Filled(RootDir(s), link[1..], FS.Target(Abs(s), target))
               else RootDir(s)
  {
    LookupAgrees(s, target);
    if FS.Bound(Abs(s), target) {
      BoundFacts(s, target);
      var n := FS.Target(Abs(s), target);
      LinkUnfolds(s, target, link, n);
      if Linkable(s, n) && HasRoom(RootDir(s), link[1..]) {
        LinkRenames(s, n, link[1..]);
        TakenBytesOk(s, n);
        OwnedSame(s, n);
        PutAlways(s, LinkChange(s, n, link[1..]));
      }
    } else {
      LinkUnfolds(s, target, link, -1);
    }
  }

  lemma RemoveAlways(s: State, n: nat, k: nat, node: Inode)
    requires AlwaysOk(s) && CanRemove(s, n, k, node) && FitsBlock(s, node)
    ensures var t := Put(s, RemoveChange(s, n, k, node));
            AlwaysOk(t) && RootDir(t) == RootDir(s)[k := BLANK]
  {
    LiveIsCounted(s, k);
    RemoveRenames(s, n, k, node);
    OwnedSame(s, n);
    if s.inodes[n].size > 0 {
      OwnerHasBlock(s, n);
      ApartFreed(Owned(s.inodes, s.inodeBits), s.blockBits, n);
    }
    PutAlways(s, RemoveChange(s, n, k, node));
  }

  /** tfs_unlink aborts exactly on soft links, and otherwise clears the record it found,
      although clear_dir_entry is not told which. */
  lemma UnlinkAlways(s: State, path: CString)
    requires AlwaysOk(s)
    ensures var r := Unlink(s, path);
            && (r.Abort? <==> UnlinksLink(s, FS.UnlinkOp(path)))
            && (r.Ok? ==> && AlwaysOk(r.value.0)
                          && RootDir(r.value.0) ==
                             if FS.Bound(Abs(s), path) then Emptied(RootDir(s), path[1..]) else RootDir(s))
  {
    if FS.Bound(Abs(s), path) {
      UnlinkBoundAlways(s, path);
    } else {
      UnlinkUnbound(s, path);
    }
  }

  lemma UnlinkBoundAlways(s: State, path: CString)
    requires AlwaysOk(s) && FS.Bound(Abs(s), path)
    ensures Unlink(s, path).Abort? <==> UnlinksLink(s, FS.UnlinkOp(path))
    ensures Unlink(s, path).Ok? ==> AlwaysOk(Unlink(s, path).value.0)
    ensures Unlink(s, path).Ok? ==> RootDir(Unlink(s, path).value.0) == Emptied(RootDir(s), path[1..])
  {
    var n, k := FS.Target(Abs(s), path), First(RootDir(s), Matches(path[1..]), 0);
    BoundFacts(s, path);
    TakenBytesOk(s, n);
    UnlinkBound(s, path);
    if Unlink(s, path).Ok? {
      RemoveAlways(s, n, k, OneLinkLess(s, n));
    }
  }

  // ---------- writing and reading ----------

  /** A write through handle h to block b, which inode n has already or which was free. */
  lemma WrittenAlways(s: State, h: nat, n: nat, b: nat, blockBits: seq<bool>, bytes: seq<Byte>)
    requires AlwaysOk(s) && ValidHandle(s, h) && s.handles[h].inum == n
    requires s.handles[h].offset + |bytes| <= s.blockSize && |bytes| > 0
    requires ValidBlock(s, b) && b != s.inodes[0].block && |blockBits| == |s.blockBits|
    requires Apart(if s.inodeBits[n] then Owned(s.inodes, s.inodeBits)[n := b] else Owned(s.inodes, s.inodeBits),
                   blockBits)
    ensures var u := s.(blockBits := blockBits, inodes := s.inodes[n := s.inodes[n].(block := b)]);
            var r := WriteBytes(u, h, n, bytes);
            r.Ok? && AlwaysOk(r.value) && RootDir(r.value) == RootDir(s)
  {
    assert HandleBounded(s, s.handles[h]);
    var u := s.(blockBits := blockBits, inodes := s.inodes[n := s.inodes[n].(block := b)]);
    var t := WriteBytes(u, h, n, bytes).value;
    var moved := s.(inodes := t.inodes, blocks := t.blocks, blockBits := t.blockBits);
    assert t.inodes == s.inodes[n := t.inodes[n]];
    assert !s.inodeBits[n] ==> Owned(s.inodes, s.inodeBits) - {n} == Owned(s.inodes, s.inodeBits);
    RewriteAlways(s, moved, n);
    HandleAlways(moved, h, t.handles[h], true);
    assert moved.handleBits[h := true] == t.handleBits;
  }

  /** A read took the handle past the end of a block, where the count of a write wraps; only a write
      that needs a block and finds none returns before the copy. */
  ghost predicate WritesAstray(s: State, op: FS.Op)
    requires RootOk(s)
  {
    && op.WriteOp? && ValidHandle(s, op.handle) && s.handles[op.handle].offset > s.blockSize
    && 0 <= s.handles[op.handle].inum < |s.inodes|
    && (s.inodes[s.handles[op.handle].inum].size > 0 || First(s.blockBits, IsFree, 0) != -1)
  }

  lemma WriteFromWraps(s: State, h: nat, n: nat, buffer: seq<Byte>)
    requires Shape(s) && h < |s.handles| && n < |s.inodes| && s.handles[h].offset > s.blockSize
    ensures WriteFrom(s, h, n, buffer, ToWrite(s, s.handles[h].offset, |buffer|)).Abort?
    ensures ToWrite(s, s.handles[h].offset, |buffer|) > 0
  {
  }

  lemma WritePastBlock(s: State, h: nat, buffer: seq<Byte>)
    requires AlwaysOk(s) && ValidHandle(s, h) && s.handles[h].offset > s.blockSize
    ensures Write(s, h, buffer) == if WritesAstray(s, FS.WriteOp(h, buffer)) then Abort else Ok((s, -1))
  {
    assert HandleBounded(s, s.handles[h]);
    var n, b := s.handles[h].inum, First(s.blockBits, IsFree, 0);
    WriteFromWraps(s, h, n, buffer);
    if s.inodes[n].size == 0 && b != -1 {
      WriteFromWraps(Placed(s, n, b), h, n, buffer);
    }
  }

  /** Inode n without bytes takes block b. */
  function Placed(s: State, n: nat, b: nat): (t: State)
    requires Shape(s) && n < |s.inodes| && b < |s.blocks|
    ensures SameShape(s, t)
  {
    s.(blockBits := s.blockBits[b := true], inodes := s.inodes[n := s.inodes[n].(block := b)])
  }

  lemma WriteInBlock(s: State, h: nat, buffer: seq<Byte>)
    requires AlwaysOk(s) && ValidHandle(s, h) && s.handles[h].offset <= s.blockSize
    ensures var r := Write(s, h, buffer);
            r.Ok? && AlwaysOk(r.value.0) && RootDir(r.value.0) == RootDir(s)
  {
    assert HandleBounded(s, s.handles[h]);
    var n, count := s.handles[h].inum, Min(|buffer|, s.blockSize - s.handles[h].offset);
    var b := First(s.blockBits, IsFree, 0);
    WriteSplits(s, h, buffer, count);
    if count > 0 && s.inodes[n].size > 0 {
      WriteOwned(s, h, buffer[..count]);
    } else if count > 0 && b != -1 {
      assert IsFree(s.blockBits[b]);
      WriteNew(s, h, b, buffer[..count]);
    }
  }

  /** The branches of a write that starts inside a block. */
  lemma WriteSplits(s: State, h: nat, buffer: seq<Byte>, count: int)
    requires Shape(s) && ValidHandle(s, h) && 0 <= s.handles[h].inum < |s.inodes|
    requires s.handles[h].offset <= s.blockSize
    requires count == Min(|buffer|, s.blockSize - s.handles[h].offset)
    ensures var n, b := s.handles[h].inum, First(s.blockBits, IsFree, 0);
            && (count == 0 ==> Write(s, h, buffer) == Ok((s, 0)))
            && (count > 0 && s.inodes[n].size == 0 && b == -1 ==> Write(s, h, buffer) == Ok((s, -1)))
            && (count > 0 && (s.inodes[n].size > 0 || b != -1) ==>
                 var r := WriteBytes(if s.inodes[n].size > 0 then s else Placed(s, n, b), h, n, buffer[..count]);
                 Write(s, h, buffer) == if r.Ok? then Ok((r.value, count)) else Abort)
  {
  }

  /** tfs_write aborts exactly when its count wraps, and never reaches the directory. */
  lemma WriteAlways(s: State, h: int, buffer: seq<Byte>)
    requires AlwaysOk(s)
    ensures var r := Write(s, h, buffer);
            && (r.Abort? <==> WritesAstray(s, FS.WriteOp(h, buffer)))
            && (r.Ok? ==> AlwaysOk(r.value.0) && RootDir(r.value.0) == RootDir(s))
  {
    if ValidHandle(s, h) {
      if s.handles[h].offset > s.blockSize {
        WritePastBlock(s, h, buffer);
      } else {
        WriteInBlock(s, h, buffer);
      }
    }
  }

  lemma WriteOwned(s: State, h: nat, bytes: seq<Byte>)
    requires AlwaysOk(s) && ValidHandle(s, h) && s.handles[h].offset + |bytes| <= s.blockSize && |bytes| > 0
    requires HandleBounded(s, s.handles[h]) && s.inodes[s.handles[h].inum].size > 0
    ensures var r := WriteBytes(s, h, s.handles[h].inum, bytes);
            r.Ok? && AlwaysOk(r.value) && RootDir(r.value) == RootDir(s)
  {
    var n := s.handles[h].inum;
    if s.inodeBits[n] {
      OwnedSame(s, n);
    }
    WrittenAlways(s, h, n, s.inodes[n].block, s.blockBits, bytes);
    assert s.inodes[n := s.inodes[n].(block := s.inodes[n].block)] == s.inodes;
  }

  lemma WriteNew(s: State, h: nat, b: nat, bytes: seq<Byte>)
    requires AlwaysOk(s) && ValidHandle(s, h) && s.handles[h].offset + |bytes| <= s.blockSize && |bytes| > 0
    requires HandleBounded(s, s.handles[h]) && s.inodes[s.handles[h].inum].size == 0
    requires b < |s.blocks| && !s.blockBits[b]
    ensures var n := s.handles[h].inum;
            var u := s.(blockBits := s.blockBits[b := true], inodes := s.inodes[n := s.inodes[n].(block := b)]);
            var r := WriteBytes(u, h, n, bytes);
            r.Ok? && AlwaysOk(r.value) && RootDir(r.value) == RootDir(s)
  {
    OwnerHasBlock(s, 0);
    ApartTaken(Owned(s.inodes, s.inodeBits), s.blockBits, s.handles[h].inum, b);
    WrittenAlways(s, h, s.handles[h].inum, b, s.blockBits[b := true], bytes);
  }

  /** What a write does to inodes and block bits. */
  lemma WriteTakes(s: State, h: int, buffer: seq<Byte>)
    requires RootOk(s) && ValidHandle(s, h) && HandleBounded(s, s.handles[h]) && Write(s, h, buffer).Ok?
    ensures var t, n, b := Write(s, h, buffer).value.0, s.handles[h].inum, First(s.blockBits, IsFree, 0);
            var end := s.handles[h].offset + Write(s, h, buffer).value.1;
            if Write(s, h, buffer).value.1 <= 0 then t == s
            else
              && t.inodes ==
                 s.inodes[n := s.inodes[n].(block := if s.inodes[n].size == 0 then b else s.inodes[n].block,
                                            size := if end > s.inodes[n].size then end else s.inodes[n].size)]
              && t.inodeBits == s.inodeBits
              && t.blockBits == (if s.inodes[n].size == 0 then s.blockBits[b := true] else s.blockBits)
              && (s.inodes[n].size == 0 ==> b >= 0)
    ensures Write(s, h, buffer).value.1 <= 0 <==>
            || buffer == [] || s.handles[h].offset >= s.blockSize
            || (s.inodes[s.handles[h].inum].size == 0 && First(s.blockBits, IsFree, 0) == -1)
  {
  }

  /** The handle was left past the end of its file, which has no block, or the copy would run on
      past the last block. */
  ghost predicate ReadsAstray(s: State, op: FS.Op)
    requires RootOk(s)
  {
    && op.ReadOp? && ValidHandle(s, op.handle) && op.len > 0 && 0 <= s.handles[op.handle].inum < |s.inodes|
    && var node, at := s.inodes[s.handles[op.handle].inum], s.handles[op.handle].offset;
    && at > node.size && (!ValidBlock(s, node.block) || BlockStart(s, node.block) + at + op.len > DataSize(s))
  }

  lemma ReadBytesAlways(s: State, h: nat, n: nat, count: nat)
    requires AlwaysOk(s) && ValidHandle(s, h) && s.handles[h].inum == n < |s.inodes|
    ensures var r := ReadBytes(s, h, n, count);
            r.Ok? ==> AlwaysOk(r.value.0) && RootDir(r.value.0) == RootDir(s)
  {
    assert HandleBounded(s, s.handles[h]);
    var r := ReadBytes(s, h, n, count);
    if r.Ok? {
      HandleAlways(s, h, r.value.0.handles[h], true);
      assert s.handleBits[h := true] == s.handleBits;
    }
  }

  /** Inside its file a read stays in the file's block; past the end its count is as large as it can be. */
  lemma ReadStays(s: State, h: nat, n: nat, len: SizeT)
    requires RootOk(s) && ValidHandle(s, h) && s.handles[h].inum == n < |s.inodes| && BytesOk(s, n)
    ensures var at, left := s.handles[h].offset, SubSize(s.inodes[n].size, s.handles[h].offset);
            var count := if left > len then len else left;
            count > 0 ==> (ReadBytes(s, h, n, count).Abort? <==> ReadsAstray(s, FS.ReadOp(h, len)))
  {
    if s.inodes[n].size > 0 {
      MemoryInBlock(s, s.inodes[n].block, 0, 0);
    }
  }

  lemma ReadAlways(s: State, h: int, len: SizeT)
    requires AlwaysOk(s)
    ensures var r := Read(s, h, len);
            && (r.Abort? <==> ReadsAstray(s, FS.ReadOp(h, len)))
            && (r.Ok? ==> AlwaysOk(r.value.0) && RootDir(r.value.0) == RootDir(s))
  {
    if ValidHandle(s, h) {
      assert HandleBounded(s, s.handles[h]);
      var n := s.handles[h].inum;
      var left := SubSize(s.inodes[n].size, s.handles[h].offset);
      ReadStays(s, h, n, len);
      ReadBytesAlways(s, h, n, if left > len then len else left);
    }
  }

  lemma CloseAlways(s: State, h: int)
    requires AlwaysOk(s)
    ensures AlwaysOk(Close(s, h).0) && RootDir(Close(s, h).0) == RootDir(s)
  {
    if ValidHandle(s, h) {
      HandleAlways(s, h, s.handles[h], false);
      assert s.handles[h := s.handles[h]] == s.handles;
    }
  }

  // ---------- every call, every run ----------

  /** No assertion fails, and no copy leaves fs_data or the caller's buffer. */
  ghost predicate Completes(s: State, op: FS.Op)
    requires RootOk(s)
  {
    !UnlinksLink(s, op) && !ReadsAstray(s, op) && !WritesAstray(s, op)
  }

  /** What CallAlways says of an outcome. */
  ghost predicate Keeps(s: State, op: FS.Op, r: Outcome<(State, FS.Reply)>)
    requires AlwaysOk(s) && FS.WellFormed(op)
  {
    && (r.Abort? <==> !Completes(s, op))
    && (r.Ok? ==> AlwaysOk(r.value.0) && RootDir(r.value.0) == DirAfter(s, op))
  }

  lemma HandleCallAlways(s: State, op: FS.Op)
    requires AlwaysOk(s) && (op.CloseOp? || op.WriteOp? || op.ReadOp?)
    ensures Keeps(s, op, Step(s, op))
  {
    match op
    case CloseOp(h) => CloseAlways(s, h);
    case WriteOp(h, buffer) => WriteAlways(s, h, buffer);
    case ReadOp(h, len) => ReadAlways(s, h, len);
  }

  lemma LinkCallAlways(s: State, op: FS.Op)
    requires AlwaysOk(s) && FS.WellFormed(op) && (op.LinkOp? || op.SymLinkOp?)
    ensures Keeps(s, op, Step(s, op))
  {
    match op
    case LinkOp(target, link) => LinkAlways(s, target, link);
    case SymLinkOp(target, link) => SymLinkAlways(s, target, link);
  }

  lemma PathCallAlways(s: State, op: FS.Op)
    requires AlwaysOk(s) && (op.OpenOp? || op.UnlinkOp?)
    ensures Keeps(s, op, Step(s, op))
  {
    match op
    case OpenOp(path, mode) => OpenAlways(s, path, mode);
    case UnlinkOp(path) => UnlinkAlways(s, path);
  }

  /** A call aborts exactly when it unlinks a soft link, or reads or writes through a handle that was
      left so far behind that the copy would leave fs_data or the caller's buffer. Otherwise the directory, the inode
      bitmap and the link counts go on agreeing, and one record changes at most. */
  lemma CallAlways(s: State, op: FS.Op)
    requires AlwaysOk(s) && FS.WellFormed(op)
    ensures Step(s, op).Abort? <==> !Completes(s, op)
    ensures Step(s, op).Ok? ==> AlwaysOk(Step(s, op).value.0) && RootDir(Step(s, op).value.0) == DirAfter(s, op)
  {
    if op.OpenOp? || op.UnlinkOp? {
      PathCallAlways(s, op);
    } else if op.LinkOp? || op.SymLinkOp? {
      LinkCallAlways(s, op);
    } else {
      HandleCallAlways(s, op);
    }
  }

  // ---------- names ----------

  lemma DuplicateName(dir: seq<Entry>, name: CString, n: int)
    requires name in LiveNames(dir) && 1 <= |name| < MAX_FILE_NAME && n != NO_INUM
    requires First(dir, IsEmptySlot, 0) != -1
    ensures !Distinct(dir[First(dir, IsEmptySlot, 0) := Record(name, n)])
  {
    var k := First(dir, IsEmptySlot, 0);
    RecordReads(name, n);
    FirstEmptyIsEmpty(dir);
    var i :| 0 <= i < |dir| && Live(dir[i]) && NameOf(dir[i]) == name;
    var d := dir[k := Record(name, n)];
    assert d[i] == dir[i] && d[k] == Record(name, n);
    if i < k {
      assert NameOf(d[i]) == NameOf(d[k]);
    } else {
      assert NameOf(d[k]) == NameOf(d[i]);
    }
  }

  lemma FilledDistinct(dir: seq<Entry>, limit: int, name: CString, n: int)
    requires EntriesOk(dir, limit) && Distinct(dir) && HasRoom(dir, name) && n != NO_INUM
    ensures Distinct(Filled(dir, name, n)) <==> name !in LiveNames(dir)
  {
    if name in LiveNames(dir) {
      DuplicateName(dir, name, n);
    } else {
      var k := First(dir, IsEmptySlot, 0);
      NamesBinds(dir, limit);
      RecordReads(name, n);
      FirstEmptyIsEmpty(dir);
      AddExtends(dir, Names(dir), k, Record(name, n));
    }
  }

  /** A new name is found, duplicates among the others or not. */
  lemma FilledFinds(dir: seq<Entry>, limit: int, name: CString, n: int)
    requires EntriesOk(dir, limit) && HasRoom(dir, name) && name !in LiveNames(dir) && 1 <= n < limit
    ensures name in LiveNames(Filled(dir, name, n)) && Names(Filled(dir, name, n))[name] == n
  {
    var k, d := First(dir, IsEmptySlot, 0), Filled(dir, name, n);
    RecordReads(name, n);
    FindFinds(d, limit, name);
    assert d[k] == Record(name, n) && NameOf(d[k]) in LiveNames(d);
  }

  lemma BoundIsLive(s: State, path: CString)
    requires NamesOk(s) && FS.Bound(Abs(s), path)
    ensures FS.Target(Abs(s), path) in Abs(s).nodes && FS.Target(Abs(s), path) != NO_INUM
    ensures Linkable(s, FS.Target(Abs(s), path)) <==> Abs(s).nodes[FS.Target(Abs(s), path)].kind.File?
  {
    BoundFacts(s, path);
  }

  lemma CanLinkAgrees(s: State, target: CString, link: CString)
    requires NamesOk(s) && Distinct(RootDir(s)) && |link| > 0
    ensures FS.CanLink(Abs(s), target, link) <==>
            && FS.Bound(Abs(s), target) && Linkable(s, FS.Target(Abs(s), target)) && HasRoom(RootDir(s), link[1..])
  {
    CanNameAgrees(s, link[1..]);
    if FS.Bound(Abs(s), target) {
      BoundIsLive(s, target);
    }
  }

  lemma LinkDistinct(s: State, target: CString, link: CString)
    requires NamesOk(s) && Distinct(RootDir(s)) && |link| > 0
    ensures Distinct(DirAfter(s, FS.LinkOp(target, link))) <==> FS.Fresh(Abs(s), FS.LinkOp(target, link))
  {
    CanLinkAgrees(s, target, link);
    if FS.CanLink(Abs(s), target, link) {
      BoundFacts(s, target);
      FilledDistinct(RootDir(s), |s.inodes|, link[1..], FS.Target(Abs(s), target));
    }
  }

  lemma CanSymLinkAgrees(s: State, target: CString, link: CString)
    requires NamesOk(s) && Distinct(RootDir(s)) && |link| > 0
    ensures FS.CanSymLink(Abs(s), target, link) <==>
            FS.Bound(Abs(s), target) && First(s.inodeBits, IsFree, 0) != -1 && HasRoom(RootDir(s), link[1..])
  {
    NewFileAgrees(s);
    CanNameAgrees(s, link[1..]);
  }

  lemma SymLinkDistinct(s: State, target: CString, link: CString)
    requires NamesOk(s) && Distinct(RootDir(s)) && |link| > 0
    ensures Distinct(DirAfter(s, FS.SymLinkOp(target, link))) <==> FS.Fresh(Abs(s), FS.SymLinkOp(target, link))
  {
    CanSymLinkAgrees(s, target, link);
    if FS.CanSymLink(Abs(s), target, link) {
      FilledDistinct(RootDir(s), |s.inodes|, link[1..], First(s.inodeBits, IsFree, 0));
    }
  }

  lemma OthersDistinct(s: State, op: FS.Op)
    requires NamesOk(s) && Distinct(RootDir(s)) && FS.WellFormed(op) && !op.LinkOp? && !op.SymLinkOp?
    ensures Distinct(DirAfter(s, op))
  {
    var dir, n := RootDir(s), First(s.inodeBits, IsFree, 0);
    if op.OpenOp? && DirAfter(s, op) != dir {
      FilledDistinct(dir, |s.inodes|, op.path[1..], n);
    }
  }

  /** Names stay distinct exactly unless the call makes a link under a bound name. */
  lemma DistinctIffFresh(s: State, op: FS.Op)
    requires AlwaysOk(s) && Distinct(RootDir(s)) && FS.WellFormed(op) && Step(s, op).Ok?
    ensures AlwaysOk(Step(s, op).value.0)
    ensures Distinct(RootDir(Step(s, op).value.0)) <==> FS.Fresh(Abs(s), op)
  {
    CallAlways(s, op);
    match op
    case LinkOp(target, link) => LinkDistinct(s, target, link);
    case SymLinkOp(target, link) => SymLinkDistinct(s, target, link);
    case _ => OthersDistinct(s, op);
  }

  // ---------- whole runs ----------

  /** Every call of the run completes. */
  ghost predicate AllComplete(s: State, ops: seq<FS.Call>)
    requires AlwaysOk(s)
    decreases |ops|
  {
    ops == [] ||
    (Completes(s, ops[0]) && (CallAlways(s, ops[0]); AllComplete(Step(s, ops[0]).value.0, ops[1..])))
  }

  /** Any run at all keeps the directory, the inode bitmap and the link counts in agreement,
      and finishes exactly when each of its calls completes. */
  lemma {:induction false} RunAlways(s: State, ops: seq<FS.Call>)
    requires AlwaysOk(s)
    ensures Run(s, ops).Ok? <==> AllComplete(s, ops)
    ensures Run(s, ops).Ok? ==> AlwaysOk(Run(s, ops).value.0)
    decreases |ops|
  {
    if ops == [] {
    } else {
      CallAlways(s, ops[0]);
      if Step(s, ops[0]).Ok? {
        RunAlways(Step(s, ops[0]).value.0, ops[1..]);
      }
    }
  }

  /** The tables that some run leaves, from tfs_init on and without any condition on its calls. */
  ghost predicate Reachable(t: State) {
    exists memory, ops :: Leaves(memory, ops, t)
  }

  ghost predicate Leaves(memory: State, ops: seq<FS.Call>, t: State) {
    Shape(memory) && Init(memory).1 == 0 && Run(Init(memory).0, ops).Ok? && Run(Init(memory).0, ops).value.0 == t
  }

  /** What is proved of AlwaysOk tables holds in every reachable state. */
  lemma ReachableIsAlwaysOk(t: State)
    requires Reachable(t)
    ensures AlwaysOk(t)
  {
    var memory, ops :| Leaves(memory, ops, t);
    InitEstablishes(memory);
    InvIsAlways(Init(memory).0);
    RunAlways(Init(memory).0, ops);
  }

  lemma LeavesOn(memory: State, ops: seq<FS.Call>, s: State, op: FS.Call, t: State, reply: FS.Reply)
    requires Leaves(memory, ops, s) && Step(s, op) == Ok((t, reply))
    ensures Leaves(memory, ops + [op], t)
  {
    RunThen(Init(memory).0, ops, [op]);
    assert [op] == [op] + [] && Run(t, []) == Ok((t, []));
    RunCons(s, op, []);
  }

  /** Reachable are the tables of tfs_init, and whatever a call leaves of reachable tables. */
  lemma ReachableGrows(memory: State, s: State, op: FS.Call)
    requires Shape(memory)
    ensures Init(memory).1 == 0 ==> Reachable(Init(memory).0)
    ensures Reachable(s) ==> Shape(s) && (Step(s, op).Ok? ==> Reachable(Step(s, op).value.0))
  {
    if Init(memory).1 == 0 {
      assert Leaves(memory, [], Init(memory).0);
    }
    if Reachable(s) {
      var m, ops :| Leaves(m, ops, s);
      if Step(s, op).Ok? {
        LeavesOn(m, ops, s, op, Step(s, op).value.0, Step(s, op).value.1);
      }
    }
  }

  // ---------- what a client may do ----------

  /** The tables have every invariant, and names are distinct. */
  ghost predicate InOrder(s: State) {
    Inv(s) && Distinct(RootDir(s))
  }

  /** A call that finishes is one that a client may make exactly when it leaves the tables in order. */
  lemma AllowedCallExactly(s: State, op: FS.Call)
    requires InOrder(s) && Step(s, op).Ok?
    ensures FS.Coherent(Abs(s))
    ensures InOrder(Step(s, op).value.0) <==> FS.Safe(Abs(s), op) && FS.Fresh(Abs(s), op)
    ensures InOrder(Step(s, op).value.0) ==>
              FS.Coherent(Abs(Step(s, op).value.0)) && FS.Step(Abs(s), op).Ok?
              && FS.Step(Abs(s), op).value.0 == Abs(Step(s, op).value.0)
  {
    InvIsAlways(s);
    InvIffSafe(s, op);
    SafeCallAgrees(s, op);
    DistinctIffFresh(s, op);
    if InOrder(Step(s, op).value.0) {
      StepSimulates(s, op);
      InvIsCoherent(Step(s, op).value.0);
    }
  }

  /** The runs that a client may make, among those that finish, are exactly those after each of whose calls
      the tables are in order. */
  lemma {:induction false} AllowedExactly(s: State, ops: seq<FS.Call>)
    requires InOrder(s) && FS.Coherent(Abs(s)) && Run(s, ops).Ok?
    ensures FS.Allowed(Abs(s), ops) <==> Throughout(s, ops, InOrder)
    decreases |ops|
  {
    if ops == [] {
      ThroughoutNone(s, InOrder);
    } else {
      var next := Step(s, ops[0]).value.0;
      AllowedCallExactly(s, ops[0]);
      ThroughoutFirst(s, ops, InOrder);
      if InOrder(next) {
        AllowedExactly(next, ops[1..]);
      } else if Throughout(next, ops[1..], InOrder) {
        ThroughoutStarts(next, ops[1..], InOrder);
      }
    }
  }
}
