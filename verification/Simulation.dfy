/** Each operation on the tables, compared with the operation a client sees. */
module Simulation {
  import opened Base
  import opened Layout
  import opened Tables
  import opened Directory
  import opened Invariants
  import opened Effects
  import opened Operations
  import FS = FileSystem

  /** An operation's outcome, seen through the abstraction. */
  ghost predicate Shows(r: Outcome<(State, int)>, f: (FS.Fs, int)) {
    r.Ok? && TablesOk(r.value.0) && (Abs(r.value.0), r.value.1) == f
  }

  // ---------- searches ----------

  lemma LookupAgrees(s: State, path: CString)
    requires NamesOk(s)
    ensures Lookup(s, 0, path) == Ok(if FS.Bound(Abs(s), path) then FS.Target(Abs(s), path) else -1)
  {
    if ValidPath(path) {
      FindFinds(RootDir(s), |s.inodes|, path[1..]);
    }
  }

  /** A bound path leads to a live record, and to a TAKEN inode other than the root. */
  lemma BoundFacts(s: State, path: CString)
    requires NamesOk(s) && FS.Bound(Abs(s), path)
    ensures var n, k := FS.Target(Abs(s), path), First(RootDir(s), Matches(path[1..]), 0);
            && 1 <= n < |s.inodes| && s.inodeBits[n] && FS.NodeOk(Abs(s), n)
            && k >= 0 && RootDir(s)[k].inum == n && NameOf(RootDir(s)[k]) == path[1..]
            && Counted(s.inodes[n], true, Count(RootDir(s), n))
  {
    FindFinds(RootDir(s), |s.inodes|, path[1..]);
    LiveIsCounted(s, First(RootDir(s), Matches(path[1..]), 0));
  }

  lemma {:induction false} LeastIsFirst(bits: seq<bool>, used: set<int>, i: nat)
    requires i <= |bits|
    requires forall j :: i <= j < |bits| ==> (bits[j] <==> j in used)
    ensures First(bits, IsFree, i) == FS.Least(used, i, |bits|)
    decreases |bits| - i
  {
  }

  lemma NewFileAgrees(s: State)
    requires RootOk(s)
    ensures First(s.inodeBits, IsFree, 0) == FS.NewFile(Abs(s))
    ensures FS.NewFile(Abs(s)) != -1 ==> 1 <= FS.NewFile(Abs(s)) < |s.inodes| && !s.inodeBits[FS.NewFile(Abs(s))]
  {
    LeastIsFirst(s.inodeBits, Nodes(s).Keys, 1);
  }

  lemma NewHandleAgrees(s: State)
    requires RootOk(s)
    ensures First(s.handleBits, IsFree, 0) == FS.NewHandle(Abs(s))
  {
    LeastIsFirst(s.handleBits, OpenHandles(s.handles, s.handleBits).Keys, 0);
  }

  lemma CanNameAgrees(s: State, name: CString)
    requires RootOk(s) && Distinct(RootDir(s))
    ensures FS.CanName(Abs(s), name) <==> 1 <= |name| < MAX_FILE_NAME && First(RootDir(s), IsEmptySlot, 0) != -1
  {
    RoomForName(RootDir(s));
  }

  // ---------- the open-file table ----------

  lemma HandlesView(s: State, t: State)
    requires RootOk(s) && Shape(t) && |t.handles| == |s.handles|
    requires t == s.(handles := t.handles, handleBits := t.handleBits)
    ensures RootOk(t) && RootDir(t) == RootDir(s) && Abs(t) == Abs(s).(open := OpenHandles(t.handles, t.handleBits))
  {
  }

  lemma HandlesOnly(s: State, t: State)
    requires TablesOk(s) && Shape(t) && |t.handles| == |s.handles|
    requires t == s.(handles := t.handles, handleBits := t.handleBits)
    ensures TablesOk(t) && RootDir(t) == RootDir(s) && Abs(t) == Abs(s).(open := OpenHandles(t.handles, t.handleBits))
  {
    HandlesView(s, t);
  }

  lemma OpenHandlesChange(handles: seq<Handle>, bits: seq<bool>, h: nat, handle: Handle, taken: bool)
    requires |handles| == |bits| && h < |handles|
    ensures OpenHandles(handles[h := handle], bits[h := taken]) ==
            if taken then OpenHandles(handles, bits)[h := handle] else OpenHandles(handles, bits) - {h}
  {
  }

  lemma AddHandleAbs(s: State, n: int, offset: SizeT)
    requires TablesOk(s)
    ensures Shows(Ok(AddHandle(s, n, offset)), FS.AddOpen(Abs(s), n, offset))
    ensures RootDir(AddHandle(s, n, offset).0) == RootDir(s)
  {
    var (t, h) := AddHandle(s, n, offset);
    NewHandleAgrees(s);
    HandlesOnly(s, t);
    if h != -1 {
      OpenHandlesChange(s.handles, s.handleBits, h, Handle(n, offset), true);
    }
  }

  lemma CloseAbs(s: State, h: int)
    requires TablesOk(s)
    ensures Shows(Ok(Close(s, h)), FS.Close(Abs(s), h)) && RootDir(Close(s, h).0) == RootDir(s)
  {
    var (t, v) := Close(s, h);
    HandlesOnly(s, t);
    if ValidHandle(s, h) {
      OpenHandlesChange(s.handles, s.handleBits, h, s.handles[h], false);
      assert s.handles[h := s.handles[h]] == s.handles;
    }
  }

  // ---------- opening ----------

  lemma CutView(s: State, n: nat)
    requires Sound(s) && 1 <= n < |s.inodes| && s.inodeBits[n] && s.inodes[n].size > 0
    ensures var r := Truncate(s, n);
            && r.Ok? && Rewrites(s, r.value, n) && RootOk(r.value) && RootDir(r.value) == RootDir(s)
            && n in Nodes(s) && Abs(r.value) == Abs(s).(nodes := Nodes(s)[n := FS.Node(KindOf(s.inodes[n]), [])])
  {
    OwnerHasBlock(s, n);
    var t := Truncate(s, n).value;
    RewriteNodes(s, t, n);
    RewriteAbs(s, t, n);
  }

  /** Truncation, whatever handles there are. */
  lemma TruncateView(s: State, n: nat)
    requires Sound(s) && 1 <= n < |s.inodes| && s.inodeBits[n]
    ensures var r := Truncate(s, n);
            && r.Ok? && RootOk(r.value) && RootDir(r.value) == RootDir(s) && n in Abs(s).nodes
            && Abs(r.value) == FS.SetContent(Abs(s), n, [])
            && r.value.inodes[n].size == 0
  {
    ContentSize(s, n);
    if s.inodes[n].size > 0 {
      CutView(s, n);
    } else {
      assert Nodes(s)[n := Nodes(s)[n].(content := [])] == Nodes(s);
    }
  }

  lemma TruncateAbs(s: State, n: nat)
    requires TablesOk(s) && 1 <= n < |s.inodes| && s.inodeBits[n]
    ensures var r := Truncate(s, n);
            && r.Ok? && TablesOk(r.value) && RootDir(r.value) == RootDir(s)
            && Abs(r.value) == FS.SetContent(Abs(s), n, [])
            && r.value.inodes[n].size == 0
  {
    TruncateView(s, n);
    if s.inodes[n].size > 0 {
      CutOk(s, n);
    }
  }

  lemma CutOk(s: State, n: nat)
    requires TablesOk(s) && 1 <= n < |s.inodes| && s.inodeBits[n] && s.inodes[n].size > 0
    ensures Truncate(s, n).Ok? && TablesOk(Truncate(s, n).value)
  {
    CutView(s, n);
    OwnerHasBlock(s, n);
    BlockFreed(Owned(s.inodes, s.inodeBits), s.blockBits, n);
    RewriteOk(s, Truncate(s, n).value, n);
  }

  lemma ResolveAgrees(s: State, n: nat)
    requires NamesOk(s) && n in Nodes(s)
    ensures (if s.inodes[n].kind.TSoftLink? then Lookup(s, 0, CStr(s.inodes[n].target)) else Ok(n)) ==
            Ok(FS.Resolve(Abs(s), n))
    ensures FS.Resolve(Abs(s), n) != -1 ==> FS.Resolve(Abs(s), n) in Nodes(s)
  {
    if s.inodes[n].kind.TSoftLink? {
      var target := CStr(s.inodes[n].target);
      LookupAgrees(s, target);
      if FS.Bound(Abs(s), target) {
        BoundFacts(s, target);
      }
    }
  }

  lemma TruncatedAbs(s: State, n: nat, mode: Mode)
    requires TablesOk(s) && n in Nodes(s)
    ensures var r := if mode.trunc then Truncate(s, n) else Ok(s);
            && r.Ok? && TablesOk(r.value) && RootDir(r.value) == RootDir(s)
            && Abs(r.value) == FS.Truncated(Abs(s), n, mode)
            && (if mode.append then r.value.inodes[n].size else 0) == FS.StartOffset(Abs(s), n, mode)
  {
    ContentSize(s, n);
    if mode.trunc {
      TruncateAbs(s, n);
    }
  }

  lemma OpenExistingUnfolds(s: State, n: nat, mode: Mode, dest: int, t: State)
    requires Shape(s) && n < |s.inodes|
    requires (if s.inodes[n].kind.TSoftLink? then Lookup(s, 0, CStr(s.inodes[n].target)) else Ok(n)) == Ok(dest)
    requires (if mode.trunc then Truncate(s, n) else Ok(s)) == Ok(t)
    ensures OpenExisting(s, 0, n, mode) ==
            if dest == -1 then Ok((s, -1)) else Ok(AddHandle(t, dest, if mode.append then t.inodes[n].size else 0))
  {
  }

  lemma OpenExistingAbs(s: State, n: nat, mode: Mode)
    requires TablesOk(s) && n in Nodes(s)
    ensures var r, fs, dest := OpenExisting(s, 0, n, mode), Abs(s), FS.Resolve(Abs(s), n);
            && Shows(r, if dest == -1 then (fs, -1)
                        else FS.AddOpen(FS.Truncated(fs, n, mode), dest, FS.StartOffset(fs, n, mode)))
            && RootDir(r.value.0) == RootDir(s)
  {
    ResolveAgrees(s, n);
    TruncatedAbs(s, n, mode);
    var dest, t := FS.Resolve(Abs(s), n), if mode.trunc then Truncate(s, n).value else s;
    OpenExistingUnfolds(s, n, mode, dest, t);
    AddHandleAbs(t, dest, FS.StartOffset(Abs(s), n, mode));
  }

  // ---------- creating ----------

  /** s after inode_create took inode n. */
  function WithInode(s: State, n: nat, node: Inode): (t: State)
    requires Shape(s) && n < |s.inodes|
    ensures SameShape(s, t)
  {
    s.(inodes := s.inodes[n := node], inodeBits := s.inodeBits[n := true])
  }

  predicate HasRoom(dir: seq<Entry>, name: CString) {
    1 <= |name| < MAX_FILE_NAME && First(dir, IsEmptySlot, 0) != -1
  }

  lemma AddEntryUnfolds(s: State, n: nat, node: Inode, name: CString)
    requires RootOk(s) && 1 <= n < |s.inodes|
    ensures var r := AddDirEntry(WithInode(s, n, node), 0, name, n);
            if HasRoom(RootDir(s), name) then r == Ok((Put(s, BindChange(s, n, node, name)), 0))
            else r == Ok((WithInode(s, n, node), -1))
  {
  }

  lemma RollbackUnfolds(s: State, n: nat, node: Inode)
    requires Shape(s) && n < |s.inodes| && !s.inodeBits[n] && node.size == 0
    ensures InodeDelete(WithInode(s, n, node), n) == Ok(s.(inodes := s.inodes[n := node]))
  {
    assert s.inodeBits[n := true][n := false] == s.inodeBits;
  }

  /** An inode that is not TAKEN does not show. */
  lemma FreeInodeHidden(s: State, n: nat, node: Inode)
    requires RootOk(s) && 1 <= n < |s.inodes| && !s.inodeBits[n]
    ensures var t := s.(inodes := s.inodes[n := node]);
            RootOk(t) && Abs(t) == Abs(s) && RootDir(t) == RootDir(s)
  {
    var t := s.(inodes := s.inodes[n := node]);
    RewriteNodes(s, t, n);
    RewriteAbs(s, t, n);
  }

  /** Taking an inode back leaves its bit as it was, and nothing else shows. */
  lemma Rollback(s: State, n: nat, node: Inode)
    requires TablesOk(s) && 1 <= n < |s.inodes| && !s.inodeBits[n] && node.size == 0
    ensures var r := InodeDelete(WithInode(s, n, node), n);
            && r == Ok(s.(inodes := s.inodes[n := node]))
            && TablesOk(r.value) && Abs(r.value) == Abs(s) && RootDir(r.value) == RootDir(s)
  {
    RollbackUnfolds(s, n, node);
    assert Owned(s.inodes, s.inodeBits) - {n} == Owned(s.inodes, s.inodeBits);
    RewriteOk(s, s.(inodes := s.inodes[n := node]), n);
    FreeInodeHidden(s, n, node);
  }

  function NewNode(s: State, n: nat, kind: InodeType): Inode
    requires n < |s.inodes|
  {
    s.inodes[n].(kind := kind, size := 0, block := -1, links := 1)
  }

  lemma CreateFileUnfolds(s: State, path: CString, n: nat)
    requires RootOk(s) && First(s.inodeBits, IsFree, 0) == n > 0 && |path| > 0
    requires HasRoom(RootDir(s), path[1..])
    ensures CreateFile(s, 0, path) == Ok(AddHandle(Put(s, BindChange(s, n, NewNode(s, n, TFile), path[1..])), n, 0))
  {
  }

  lemma CreateFileFails(s: State, path: CString, n: nat)
    requires RootOk(s) && First(s.inodeBits, IsFree, 0) == n > 0 && |path| > 0
    requires !HasRoom(RootDir(s), path[1..])
    ensures CreateFile(s, 0, path) == Ok((s.(inodes := s.inodes[n := NewNode(s, n, TFile)]), -1))
  {
    AddEntryUnfolds(s, n, NewNode(s, n, TFile), path[1..]);
    RollbackUnfolds(s, n, NewNode(s, n, TFile));
  }

  lemma CreateFileOk(s: State, path: CString)
    requires TablesOk(s) && |path| > 0
    ensures CreateFile(s, 0, path).Ok? && TablesOk(CreateFile(s, 0, path).value.0)
  {
    NewFileAgrees(s);
    var n := First(s.inodeBits, IsFree, 0);
    if n != -1 {
      var node := NewNode(s, n, TFile);
      if HasRoom(RootDir(s), path[1..]) {
        CreateFileUnfolds(s, path, n);
        BindOk(s, n, node, path[1..]);
        AddHandleAbs(Put(s, BindChange(s, n, node, path[1..])), n, 0);
      } else {
        CreateFileFails(s, path, n);
        Rollback(s, n, node);
      }
    }
  }

  lemma CreateFileAbs(s: State, path: CString)
    requires TablesOk(s) && |path| > 0 && Distinct(RootDir(s)) && path[1..] !in Abs(s).names
    ensures var r, fs := CreateFile(s, 0, path), Abs(s);
            && Shows(r, if FS.NewFile(fs) != -1 && FS.CanName(fs, path[1..]) then
                          FS.AddOpen(FS.Bind(fs, path[1..], FS.NewFile(fs), FS.File), FS.NewFile(fs), 0)
                        else (fs, -1))
            && Distinct(RootDir(r.value.0))
  {
    NewFileAgrees(s);
    CanNameAgrees(s, path[1..]);
    var n := First(s.inodeBits, IsFree, 0);
    if n != -1 {
      var node := NewNode(s, n, TFile);
      if HasRoom(RootDir(s), path[1..]) {
        CreateFileUnfolds(s, path, n);
        BindAbs(s, n, node, path[1..]);
        AddHandleAbs(Put(s, BindChange(s, n, node, path[1..])), n, 0);
      } else {
        CreateFileFails(s, path, n);
        Rollback(s, n, node);
      }
    }
  }

  /** tfs_open on a bound name, whatever other names there are. */
  lemma OpenBoundAbs(s: State, path: CString, mode: Mode)
    requires TablesOk(s) && FS.Bound(Abs(s), path) && FS.NodeOk(Abs(s), FS.Target(Abs(s), path))
    ensures Shows(Open(s, path, mode), FS.Open(Abs(s), path, mode))
    ensures RootDir(Open(s, path, mode).value.0) == RootDir(s)
  {
    LookupAgrees(s, path);
    BoundFacts(s, path);
    OpenExistingAbs(s, FS.Target(Abs(s), path), mode);
  }

  lemma OpenUnboundIs(s: State, path: CString, mode: Mode)
    requires NamesOk(s) && !FS.Bound(Abs(s), path)
    ensures Open(s, path, mode) ==
            if ValidPath(path) && mode.creat then CreateFile(s, 0, path) else Ok((s, -1))
  {
    LookupAgrees(s, path);
  }

  lemma OpenAbs(s: State, path: CString, mode: Mode)
    requires TablesOk(s) && Distinct(RootDir(s))
    requires FS.Bound(Abs(s), path) ==> FS.NodeOk(Abs(s), FS.Target(Abs(s), path))
    ensures Shows(Open(s, path, mode), FS.Open(Abs(s), path, mode))
    ensures Distinct(RootDir(Open(s, path, mode).value.0))
  {
    if FS.Bound(Abs(s), path) {
      OpenBoundAbs(s, path, mode);
    } else {
      OpenUnboundIs(s, path, mode);
      if ValidPath(path) && mode.creat {
        CreateFileAbs(s, path);
      }
    }
  }

  // ---------- links ----------

  function LinkNode(s: State, n: nat, target: CString): Inode
    requires n < |s.inodes|
  {
    NewNode(s, n, TSoftLink).(target := NameField(target))
  }

  lemma SymLinkUnfolds(s: State, target: CString, link: CString, n: nat)
    requires RootOk(s) && |link| > 0 && Lookup(s, 0, target).Ok? && Lookup(s, 0, target).value != -1
    requires First(s.inodeBits, IsFree, 0) == n > 0
    ensures SymLink(s, target, link) ==
            if HasRoom(RootDir(s), link[1..]) then
              Ok((Put(s, BindChange(s, n, LinkNode(s, n, target), link[1..])), 0))
            else Ok((s.(inodes := s.inodes[n := LinkNode(s, n, target)]), -1))
  {
    var node := LinkNode(s, n, target);
    AddEntryUnfolds(s, n, node, link[1..]);
    assert IsFree(s.inodeBits[n]);
    RollbackUnfolds(s, n, node);
    var s1 := WithInode(s, n, NewNode(s, n, TSoftLink));
    assert s1.(inodes := s1.inodes[n := s1.inodes[n].(target := NameField(target))]) == WithInode(s, n, node) by {
      assert s1.inodes[n := node] == s.inodes[n := node];
    }
  }

  lemma SymLinkTrivial(s: State, target: CString, link: CString)
    requires NamesOk(s) && |link| > 0
    requires !FS.Bound(Abs(s), target) || First(s.inodeBits, IsFree, 0) == -1
    ensures SymLink(s, target, link) == Ok((s, -1))
  {
    LookupAgrees(s, target);
    if FS.Bound(Abs(s), target) {
      BoundFacts(s, target);
    }
  }

  lemma SymLinkOk(s: State, target: CString, link: CString)
    requires TablesOk(s) && |link| > 0
    ensures SymLink(s, target, link).Ok? && TablesOk(SymLink(s, target, link).value.0)
  {
    NewFileAgrees(s);
    var n := First(s.inodeBits, IsFree, 0);
    if FS.Bound(Abs(s), target) && n != -1 {
      LookupAgrees(s, target);
      BoundFacts(s, target);
      SymLinkUnfolds(s, target, link, n);
      if HasRoom(RootDir(s), link[1..]) {
        BindOk(s, n, LinkNode(s, n, target), link[1..]);
      } else {
        Rollback(s, n, LinkNode(s, n, target));
      }
    } else {
      SymLinkTrivial(s, target, link);
    }
  }

  lemma SymLinkAbs(s: State, target: CString, link: CString)
    requires TablesOk(s) && |link| > 0 && Distinct(RootDir(s))
    requires FS.CanSymLink(Abs(s), target, link) ==> link[1..] !in Abs(s).names
    ensures Shows(SymLink(s, target, link), FS.SymLink(Abs(s), target, link))
    ensures Distinct(RootDir(SymLink(s, target, link).value.0))
  {
    NewFileAgrees(s);
    CanNameAgrees(s, link[1..]);
    var n := First(s.inodeBits, IsFree, 0);
    if FS.Bound(Abs(s), target) && n != -1 {
      LookupAgrees(s, target);
      BoundFacts(s, target);
      SymLinkUnfolds(s, target, link, n);
      if HasRoom(RootDir(s), link[1..]) {
        NameFieldReads(target);
        BindAbs(s, n, LinkNode(s, n, target), link[1..]);
      } else {
        Rollback(s, n, LinkNode(s, n, target));
      }
    } else {
      SymLinkTrivial(s, target, link);
    }
  }

  predicate Linkable(s: State, n: int) {
    0 <= n < |s.inodes| && !s.inodes[n].kind.TSoftLink?
  }

  lemma AddLinkUnfolds(s: State, n: nat, name: CString)
    requires RootOk(s) && 1 <= n < |s.inodes| && s.inodeBits[n]
    ensures AddLink(s, 0, n, name) ==
            if Linkable(s, n) && HasRoom(RootDir(s), name) then Ok((Put(s, LinkChange(s, n, name)), 0)) else Ok((s, -1))
  {
    assert s.inodeBits[n := true] == s.inodeBits;
  }

  lemma LinkUnfolds(s: State, target: CString, link: CString, n: int)
    requires RootOk(s) && |link| > 0 && Lookup(s, 0, target) == Ok(n)
    requires n == -1 || (1 <= n < |s.inodes| && s.inodeBits[n])
    ensures Link(s, target, link) ==
            if Linkable(s, n) && HasRoom(RootDir(s), link[1..]) then Ok((Put(s, LinkChange(s, n, link[1..])), 0))
            else Ok((s, -1))
  {
    if n != -1 {
      AddLinkUnfolds(s, n, link[1..]);
    }
  }

  lemma LinkKeepsOk(s: State, target: CString, link: CString)
    requires TablesOk(s) && |link| > 0
    ensures Link(s, target, link).Ok? && TablesOk(Link(s, target, link).value.0)
  {
    LookupAgrees(s, target);
    if FS.Bound(Abs(s), target) {
      BoundFacts(s, target);
      var n := FS.Target(Abs(s), target);
      LinkUnfolds(s, target, link, n);
      if Linkable(s, n) && HasRoom(RootDir(s), link[1..]) {
        LinkOk(s, n, link[1..]);
      }
    } else {
      LinkUnfolds(s, target, link, -1);
    }
  }

  lemma LinkShows(s: State, target: CString, link: CString)
    requires TablesOk(s) && |link| > 0 && Distinct(RootDir(s))
    requires FS.CanLink(Abs(s), target, link) ==> link[1..] !in Abs(s).names
    ensures Shows(Link(s, target, link), FS.Link(Abs(s), target, link))
    ensures Distinct(RootDir(Link(s, target, link).value.0))
  {
    LookupAgrees(s, target);
    CanNameAgrees(s, link[1..]);
    if FS.Bound(Abs(s), target) {
      BoundFacts(s, target);
      var n := FS.Target(Abs(s), target);
      LinkUnfolds(s, target, link, n);
      if Linkable(s, n) && HasRoom(RootDir(s), link[1..]) {
        LinkAbs(s, n, link[1..]);
      }
    } else {
      LinkUnfolds(s, target, link, -1);
    }
  }

  // ---------- unlinking ----------

  function OneLinkLess(s: State, n: nat): Inode
    requires n < |s.inodes|
  {
    s.inodes[n].(links := s.inodes[n].links - 1)
  }

  ghost predicate UnlinkFinds(s: State, path: CString, n: nat, k: nat) {
    && RootOk(s) && ValidPath(path) && Lookup(s, 0, path) == Ok(n) && 1 <= n < |s.inodes| && s.inodeBits[n]
    && First(RootDir(s), Named(path[1..]), 0) == k
    && (s.inodes[n].size > 0 ==> ValidBlock(s, s.inodes[n].block))
  }

  function Cleared(s: State, k: nat): (t: State)
    requires Shape(s) && |s.inodes| > 0 && ValidBlock(s, s.inodes[0].block) && k < Slots(s.blocks[s.inodes[0].block])
    ensures SameShape(s, t)
  {
    SetEntry(s, s.inodes[0].block, k, Entry(Zeros(MAX_FILE_NAME), NO_INUM))
  }

  lemma UnlinkUnfolds(s: State, path: CString, n: nat, k: nat)
    requires UnlinkFinds(s, path, n, k)
    ensures var r := DropLink(Cleared(s, k), n);
            Unlink(s, path) == if r.Ok? then Ok((r.value, 0)) else Abort
  {
  }

  lemma DropLinkIs(s: State, n: nat)
    requires Shape(s) && n < |s.inodes| && s.inodeBits[n]
    requires s.inodes[n].size > 0 ==> ValidBlock(s, s.inodes[n].block)
    ensures s.inodes[n].kind.TSoftLink? && s.inodes[n].links == 1 ==> DropLink(s, n).Abort?
    ensures !s.inodes[n].kind.TSoftLink? && s.inodes[n].links != 1 ==>
              DropLink(s, n) == Ok(s.(inodes := s.inodes[n := OneLinkLess(s, n)]))
    ensures !s.inodes[n].kind.TSoftLink? && s.inodes[n].links == 1 ==>
              DropLink(s, n) == Ok(s.(inodes := s.inodes[n := OneLinkLess(s, n)], inodeBits := s.inodeBits[n := false],
                                   blockBits := if s.inodes[n].size > 0 then s.blockBits[s.inodes[n].block := false]
                                                else s.blockBits))
  {
  }

  lemma DropLinkPuts(s: State, n: nat, k: nat)
    requires RootOk(s) && 1 <= n < |s.inodes| && s.inodeBits[n] && k < |RootDir(s)|
    requires !s.inodes[n].kind.TSoftLink? && (s.inodes[n].size > 0 ==> ValidBlock(s, s.inodes[n].block))
    ensures DropLink(Cleared(s, k), n) == Ok(Put(s, RemoveChange(s, n, k, OneLinkLess(s, n))))
  {
    DropLinkIs(Cleared(s, k), n);
    if s.inodes[n].links != 1 {
      assert s.inodeBits[n := true] == s.inodeBits;
    }
  }

  lemma UnlinkBound(s: State, path: CString)
    requires NamesOk(s) && FS.Bound(Abs(s), path)
    requires var n := FS.Target(Abs(s), path);
             0 <= n < |s.inodes| && s.inodes[n].size <= s.blockSize
             && (s.inodes[n].size > 0 ==> ValidBlock(s, s.inodes[n].block))
    ensures var n, k := FS.Target(Abs(s), path), First(RootDir(s), Matches(path[1..]), 0);
            && 1 <= n < |s.inodes| && 0 <= k < |RootDir(s)|
            && CanRemove(s, n, k, OneLinkLess(s, n)) && NameOf(RootDir(s)[k]) == path[1..]
            && Unlink(s, path) == if s.inodes[n].kind.TSoftLink? then Abort
                                  else Ok((Put(s, RemoveChange(s, n, k, OneLinkLess(s, n))), 0))
  {
    var n := FS.Target(Abs(s), path);
    LookupAgrees(s, path);
    BoundFacts(s, path);
    ClearAgreesWithFind(RootDir(s), |s.inodes|, path[1..]);
    var k := First(RootDir(s), Named(path[1..]), 0);
    UnlinkUnfolds(s, path, n, k);
    if s.inodes[n].kind.TSoftLink? {
      DropLinkIs(Cleared(s, k), n);
    } else {
      DropLinkPuts(s, n, k);
    }
  }

  lemma UnlinkUnbound(s: State, path: CString)
    requires NamesOk(s) && !FS.Bound(Abs(s), path)
    ensures Unlink(s, path) == Ok((s, -1))
  {
    LookupAgrees(s, path);
  }

  /** With the tables in agreement a bound path leads to an inode that UnlinkBound can treat. */
  lemma BoundHasBytes(s: State, path: CString)
    requires TablesOk(s) && FS.Bound(Abs(s), path)
    ensures var n := FS.Target(Abs(s), path);
            && 1 <= n < |s.inodes| && s.inodes[n].size <= s.blockSize
            && (s.inodes[n].size > 0 ==> ValidBlock(s, s.inodes[n].block))
  {
    BoundFacts(s, path);
    if s.inodes[FS.Target(Abs(s), path)].size > 0 {
      OwnerHasBlock(s, FS.Target(Abs(s), path));
    }
  }

  /** Unlinking a soft link deletes its inode twice, which an assertion catches; nothing
      else makes tfs_unlink abort. */
  lemma UnlinkAborts(s: State, path: CString)
    requires TablesOk(s)
    ensures Unlink(s, path).Abort? <==>
            FS.Bound(Abs(s), path) && s.inodes[FS.Target(Abs(s), path)].kind.TSoftLink?
    ensures Unlink(s, path).Ok? ==> TablesOk(Unlink(s, path).value.0)
  {
    if FS.Bound(Abs(s), path) {
      BoundHasBytes(s, path);
      UnlinkBound(s, path);
      var n, k := FS.Target(Abs(s), path), First(RootDir(s), Matches(path[1..]), 0);
      RemoveOk(s, n, k, OneLinkLess(s, n));
    } else {
      UnlinkUnbound(s, path);
    }
  }

  lemma UnlinkBoundAbs(s: State, path: CString)
    requires TablesOk(s) && Distinct(RootDir(s)) && FS.Bound(Abs(s), path)
    requires !s.inodes[FS.Target(Abs(s), path)].kind.TSoftLink?
    ensures var n, fs, r := FS.Target(Abs(s), path), Abs(s), Unlink(s, path);
            && Shows(r, (fs.(names := fs.names - {path[1..]},
                             nodes := if FS.LastName(fs, path[1..]) then fs.nodes - {n} else fs.nodes), 0))
            && Distinct(RootDir(r.value.0))
  {
    var n, k := FS.Target(Abs(s), path), First(RootDir(s), Matches(path[1..]), 0);
    BoundHasBytes(s, path);
    UnlinkBound(s, path);
    BoundFacts(s, path);
    RemoveAbs(s, n, k, OneLinkLess(s, n));
    LastNameIsOneLink(s, k);
  }

  lemma UnlinkAbs(s: State, path: CString)
    requires TablesOk(s) && Distinct(RootDir(s))
    requires FS.Bound(Abs(s), path) ==> FS.NodeOk(Abs(s), FS.Target(Abs(s), path))
    ensures Unlink(s, path).Abort? <==> FS.Unlink(Abs(s), path).Abort?
    ensures Unlink(s, path).Ok? ==> Shows(Unlink(s, path), FS.Unlink(Abs(s), path).value)
                                    && Distinct(RootDir(Unlink(s, path).value.0))
  {
    UnlinkAborts(s, path);
    if FS.Bound(Abs(s), path) {
      BoundFacts(s, path);
      if Unlink(s, path).Ok? {
        UnlinkBoundAbs(s, path);
      }
    } else {
      UnlinkUnbound(s, path);
    }
  }

  // ---------- writing ----------

  function TakenBlock(bits: seq<bool>): int -> bool {
    (b: int) => 0 <= b < |bits| && bits[b]
  }

  lemma TakenAreOwned(owned: map<int, int>, bits: seq<bool>)
    requires Backed(owned, bits)
    ensures |Where(|bits|, TakenBlock(bits))| == |owned.Keys|
  {
    var f := (n: int) => if n in owned then owned[n] else -1;
    var taken := Where(|bits|, TakenBlock(bits));
    forall n | n in owned.Keys ensures f(n) in taken && f(n) == owned[n] {
      assert TakenBlock(bits)(owned[n]);
    }
    forall b | b in taken ensures exists n :: n in owned.Keys && f(n) == b {
      var n :| n in owned && owned[n] == b;
      assert f(n) == b;
    }
    forall n, m | n in owned.Keys && m in owned.Keys && f(n) == f(m) ensures n == m {
      assert owned[n] == owned[m];
    }
    ImageSize(owned.Keys, taken, f);
  }

  lemma AnyFree(bits: seq<bool>)
    ensures First(bits, IsFree, 0) == -1 <==> |Where(|bits|, TakenBlock(bits))| >= |bits|
  {
    WhereSize(|bits|, TakenBlock(bits));
    var b := First(bits, IsFree, 0);
    if b == -1 {
      forall c | 0 <= c < |bits| ensures TakenBlock(bits)(c) {
        assert !IsFree(bits[c]);
      }
    } else {
      assert IsFree(bits[b]) && !TakenBlock(bits)(b);
    }
  }

  /** data_block_alloc fails exactly when the root and the non-empty files take every block. */
  lemma RoomForBlock(s: State)
    requires TablesOk(s)
    ensures |Where(|s.blocks|, TakenBlock(s.blockBits))| == 1 + |FS.NonEmpty(Nodes(s))|
    ensures First(s.blockBits, IsFree, 0) == -1 <==> FS.BlocksFull(Abs(s))
  {
    TakenAreOwned(Owned(s.inodes, s.inodeBits), s.blockBits);
    OwnersAreNonEmpty(s);
    AnyFree(s.blockBits);
  }

  lemma OwnersAreNonEmpty(s: State)
    requires TablesOk(s)
    ensures Owned(s.inodes, s.inodeBits).Keys == {0} + FS.NonEmpty(Nodes(s))
    ensures |Owned(s.inodes, s.inodeBits).Keys| == 1 + |FS.NonEmpty(Nodes(s))|
  {
    NodeFacts(s);
    forall n | n in Nodes(s) ensures n in FS.NonEmpty(Nodes(s)) <==> s.inodes[n].size > 0 {}
  }

  /** s after inode n, with block b, took the bytes that handle h wrote. */
  ghost function Written(s: State, h: nat, n: nat, b: nat, bytes: seq<Byte>): (t: State)
    requires Shape(s) && h < |s.handles| && n < |s.inodes| && b < |s.blocks|
    requires s.handles[h].offset + |bytes| <= s.blockSize
    ensures SameShape(s, t)
  {
    var at := s.handles[h].offset;
    var end := at + |bytes|;
    var size := if end > s.inodes[n].size then end else s.inodes[n].size;
    s.(blocks := s.blocks[b := Splice(s.blocks[b], at, bytes)],
     blockBits := s.blockBits[b := true],
     handles := s.handles[h := s.handles[h].(offset := end)],
     inodes := s.inodes[n := s.inodes[n].(block := b, size := size)])
  }

  lemma WriteUnfolds(s: State, h: nat, buffer: seq<Byte>, b: int)
    requires Shape(s) && ValidHandle(s, h) && 0 <= s.handles[h].inum < |s.inodes|
    requires s.handles[h].offset <= s.blockSize
    requires b == if s.inodes[s.handles[h].inum].size == 0 then First(s.blockBits, IsFree, 0)
                  else s.inodes[s.handles[h].inum].block
    requires s.inodes[s.handles[h].inum].size > 0 ==> 0 <= b < |s.blocks| && s.blockBits[b]
    ensures var count := Min(|buffer|, s.blockSize - s.handles[h].offset);
            Write(s, h, buffer) ==
            if count == 0 then Ok((s, 0))
            else if b == -1 then Ok((s, -1))
            else Ok((Written(s, h, s.handles[h].inum, b, buffer[..count]), count))
  {
    var n := s.handles[h].inum;
    var count := Min(|buffer|, s.blockSize - s.handles[h].offset);
    if b != -1 && count > 0 {
      var t := Written(s, h, n, b, buffer[..count]);
      var owning := s.inodes[n := s.inodes[n].(block := b)];
      assert owning[n := t.inodes[n]] == t.inodes;
      if s.inodes[n].size > 0 {
        assert s.blockBits[b := true] == s.blockBits;
        assert owning == s.inodes;
      }
    }
  }

  /** What the handle invariant says of one handle. */
  ghost predicate HandleFits(s: State, h: int)
    requires Shape(s)
  {
    && ValidHandle(s, h) && 1 <= s.handles[h].inum < |s.inodes| && s.inodeBits[s.handles[h].inum]
    && s.handles[h].offset <= s.inodes[s.handles[h].inum].size
  }

  /** Block b is the one that a write through handle h goes to. */
  ghost predicate GoesTo(s: State, h: int, b: int)
    requires Shape(s) && HandleFits(s, h)
  {
    var n := s.handles[h].inum;
    && 0 <= b < |s.blocks|
    && if s.inodes[n].size == 0 then !s.blockBits[b] else b == s.inodes[n].block
  }

  lemma HandleShows(s: State, h: nat)
    requires Sound(s) && HandleFits(s, h)
    ensures var n := s.handles[h].inum;
            && h in Abs(s).open && Abs(s).open[h] == s.handles[h] && n in Nodes(s)
            && |Content(s, n)| == s.inodes[n].size <= s.blockSize && FS.HandleOk(Abs(s), h)
            && Abs(s).nodes[n].content == Content(s, n)
  {
    ContentSize(s, s.handles[h].inum);
  }

  lemma WrittenRewrites(s: State, h: nat, b: nat, bytes: seq<Byte>)
    requires Sound(s) && HandleFits(s, h) && GoesTo(s, h, b)
    requires s.handles[h].offset + |bytes| <= s.blockSize
    ensures Rewrites(s, Written(s, h, s.handles[h].inum, b, bytes), s.handles[h].inum)
  {
    OwnerHasBlock(s, 0);
    if s.inodes[s.handles[h].inum].size > 0 {
      BlocksApart(s, 0, s.handles[h].inum);
    }
  }

  lemma WrittenOk(s: State, h: nat, b: nat, bytes: seq<Byte>)
    requires TablesOk(s) && HandleFits(s, h) && GoesTo(s, h, b) && |bytes| > 0
    requires s.handles[h].offset + |bytes| <= s.blockSize
    ensures var t := Written(s, h, s.handles[h].inum, b, bytes);
            TablesOk(t) && RootDir(t) == RootDir(s)
  {
    var n := s.handles[h].inum;
    WrittenRewrites(s, h, b, bytes);
    if s.inodes[n].size == 0 {
      BlockTaken(Owned(s.inodes, s.inodeBits), s.blockBits, n, b);
    } else {
      OwnedSame(s, n);
      OwnerHasBlock(s, n);
      assert s.blockBits[b := true] == s.blockBits;
    }
    RewriteOk(s, Written(s, h, n, b, bytes), n);
  }

  /** The bytes of every other file stay where they are. */
  lemma WrittenKeeps(s: State, h: nat, b: nat, bytes: seq<Byte>, m: nat)
    requires Sound(s) && HandleFits(s, h) && GoesTo(s, h, b)
    requires s.handles[h].offset + |bytes| <= s.blockSize && m < |s.inodes| && m != s.handles[h].inum
    ensures NodeKept(s, Written(s, h, s.handles[h].inum, b, bytes), m)
  {
    if s.inodeBits[m] && s.inodes[m].size > 0 {
      OwnerHasBlock(s, m);
      if s.inodes[s.handles[h].inum].size > 0 {
        BlocksApart(s, s.handles[h].inum, m);
      }
    }
  }

  lemma WrittenContent(s: State, h: nat, b: nat, bytes: seq<Byte>)
    requires Sound(s) && HandleFits(s, h) && GoesTo(s, h, b) && |bytes| > 0
    requires s.handles[h].offset + |bytes| <= s.blockSize
    ensures var n := s.handles[h].inum;
            && s.handles[h].offset <= |Content(s, n)|
            && Content(Written(s, h, n, b, bytes), n) == FS.Overwrite(Content(s, n), s.handles[h].offset, bytes)
  {
    ContentSize(s, s.handles[h].inum);
  }

  lemma WrittenNodes(s: State, h: nat, b: nat, bytes: seq<Byte>)
    requires Sound(s) && HandleFits(s, h) && GoesTo(s, h, b) && |bytes| > 0
    requires s.handles[h].offset + |bytes| <= s.blockSize
    ensures var n := s.handles[h].inum;
            && n in Nodes(s) && s.handles[h].offset <= |Content(s, n)|
            && Nodes(Written(s, h, n, b, bytes)) ==
               Nodes(s)[n := FS.Node(KindOf(s.inodes[n]), FS.Overwrite(Content(s, n), s.handles[h].offset, bytes))]
  {
    var n := s.handles[h].inum;
    var t := Written(s, h, n, b, bytes);
    WrittenRewrites(s, h, b, bytes);
    WrittenContent(s, h, b, bytes);
    forall m | 1 <= m < |s.inodes| && m != n ensures NodeKept(s, t, m) {
      WrittenKeeps(s, h, b, bytes, m);
    }
    RewriteNodes(s, t, n);
  }

  /** Tables with the same directory and sizes. */
  lemma AbsParts(s: State, t: State)
    requires RootOk(s) && RootOk(t) && RootDir(t) == RootDir(s) && SameShape(s, t)
    ensures Abs(t) == Abs(s).(nodes := Nodes(t), open := OpenHandles(t.handles, t.handleBits))
  {
  }

  lemma WroteIs(fs: FS.Fs, h: int, bytes: seq<Byte>, kind: FS.Kind, content: seq<Byte>)
    requires h in fs.open && FS.HandleOk(fs, h) && fs.open[h].offset + |bytes| <= fs.limits.blockSize
    requires fs.nodes[fs.open[h].inum] == FS.Node(kind, content)
    ensures var n, at := fs.open[h].inum, fs.open[h].offset;
            FS.Wrote(fs, h, bytes) == fs.(nodes := fs.nodes[n := FS.Node(kind, FS.Overwrite(content, at, bytes))],
                                          open := fs.open[h := Handle(n, at + |bytes|)])
  {
  }

  lemma WrittenView(s: State, h: nat, b: nat, bytes: seq<Byte>)
    requires RootOk(s) && HandleFits(s, h) && b < |s.blocks|
    requires s.handles[h].offset + |bytes| <= s.blockSize
    requires h in Abs(s).open && FS.HandleOk(Abs(s), h) && Abs(s).open[h] == s.handles[h]
    requires var n := s.handles[h].inum;
             var t := Written(s, h, n, b, bytes);
             && RootOk(t) && RootDir(t) == RootDir(s)
             && n in Nodes(s) && s.handles[h].offset <= |Content(s, n)|
             && Nodes(t) == Nodes(s)[n := FS.Node(KindOf(s.inodes[n]),
                                                  FS.Overwrite(Content(s, n), s.handles[h].offset, bytes))]
    ensures Abs(Written(s, h, s.handles[h].inum, b, bytes)) == FS.Wrote(Abs(s), h, bytes)
  {
    var n, t := s.handles[h].inum, Written(s, h, s.handles[h].inum, b, bytes);
    OpenHandlesChange(s.handles, s.handleBits, h, Handle(n, s.handles[h].offset + |bytes|), true);
    assert s.handleBits[h := true] == s.handleBits;
    AbsParts(s, t);
    WroteIs(Abs(s), h, bytes, KindOf(s.inodes[n]), Content(s, n));
  }

  /** A write shows in the file it is for, at the handle's offset, and nowhere else. */
  lemma WrittenAbs(s: State, h: nat, b: nat, bytes: seq<Byte>)
    requires TablesOk(s) && HandleFits(s, h) && GoesTo(s, h, b) && |bytes| > 0
    requires s.handles[h].offset + |bytes| <= s.blockSize
    requires h in Abs(s).open && FS.HandleOk(Abs(s), h)
    ensures var t := Written(s, h, s.handles[h].inum, b, bytes);
            TablesOk(t) && RootDir(t) == RootDir(s) && Abs(t) == FS.Wrote(Abs(s), h, bytes)
  {
    WrittenOk(s, h, b, bytes);
    WrittenNodes(s, h, b, bytes);
    HandleShows(s, h);
    WrittenView(s, h, b, bytes);
  }

  /** Where a write through handle h goes, or -1. */
  ghost function Destination(s: State, h: nat): int
    requires Shape(s) && HandleFits(s, h)
  {
    if s.inodes[s.handles[h].inum].size == 0 then First(s.blockBits, IsFree, 0)
    else s.inodes[s.handles[h].inum].block
  }

  /** The three branches of a write. */
  lemma WriteCases(s: State, h: nat, buffer: seq<Byte>, count: int)
    requires Sound(s) && HandleFits(s, h) && count == Min(|buffer|, s.blockSize - s.handles[h].offset)
    ensures s.handles[h].offset <= s.blockSize && 0 <= count <= |buffer|
    ensures Destination(s, h) == -1 <==> s.inodes[s.handles[h].inum].size == 0 && First(s.blockBits, IsFree, 0) == -1
    ensures Destination(s, h) != -1 ==> GoesTo(s, h, Destination(s, h))
    ensures count == 0 ==> Write(s, h, buffer) == Ok((s, 0))
    ensures count != 0 && Destination(s, h) == -1 ==> Write(s, h, buffer) == Ok((s, -1))
    ensures count != 0 && Destination(s, h) != -1 ==>
              Write(s, h, buffer) ==
              Ok((Written(s, h, s.handles[h].inum, Destination(s, h), buffer[..count]), count))
  {
    var n, b := s.handles[h].inum, Destination(s, h);
    if s.inodes[n].size > 0 {
      OwnerHasBlock(s, n);
    } else if b >= 0 {
      assert IsFree(s.blockBits[b]);
    }
    WriteUnfolds(s, h, buffer, b);
  }

  lemma DestinationShows(s: State, h: nat)
    requires TablesOk(s) && HandleFits(s, h) && h in Abs(s).open && FS.HandleOk(Abs(s), h)
    ensures var fs := Abs(s);
            && fs.open[h] == s.handles[h] && fs.limits.blockSize == s.blockSize
            && (Destination(s, h) == -1 <==> fs.nodes[s.handles[h].inum].content == [] && FS.BlocksFull(fs))
  {
    HandleShows(s, h);
    RoomForBlock(s);
    WriteCases(s, h, [], 0);
  }

  lemma WriteTakenAbs(s: State, h: nat, buffer: seq<Byte>)
    requires TablesOk(s) && HandleFits(s, h) && h in Abs(s).open && FS.HandleOk(Abs(s), h)
    ensures Shows(Write(s, h, buffer), FS.Write(Abs(s), h, buffer))
    ensures RootDir(Write(s, h, buffer).value.0) == RootDir(s)
  {
    DestinationShows(s, h);
    var count := FS.WriteCount(Abs(s), h, buffer);
    WriteCases(s, h, buffer, count);
    if count > 0 && Destination(s, h) != -1 {
      WrittenAbs(s, h, Destination(s, h), buffer[..count]);
    }
  }

  // ---------- reading ----------

  lemma MoveAbs(s: State, h: nat, moved: Handle, count: nat)
    requires RootOk(s) && ValidHandle(s, h) && s.handles[h].offset + count < SIZE_T
    requires moved == Handle(s.handles[h].inum, s.handles[h].offset + count)
    requires h in Abs(s).open && Abs(s).open[h] == s.handles[h]
    ensures Abs(s.(handles := s.handles[h := moved])) == FS.Advance(Abs(s), h, count)
  {
  }

  lemma ReadUnfolds(s: State, h: nat, len: SizeT, count: int)
    requires Shape(s) && ValidHandle(s, h) && 0 <= s.handles[h].inum < |s.inodes|
    requires s.handles[h].offset <= s.inodes[s.handles[h].inum].size == |Content(s, s.handles[h].inum)|
    requires count == Min(len, s.inodes[s.handles[h].inum].size - s.handles[h].offset)
    ensures var n, at := s.handles[h].inum, s.handles[h].offset;
            Read(s, h, len) == Ok((s.(handles := s.handles[h := Handle(n, at + count)]), count,
                                   Content(s, n)[at..at + count]))
  {
    var n, at := s.handles[h].inum, s.handles[h].offset;
    assert SubSize(s.inodes[n].size, at) == |Content(s, n)| - at;
    if count == 0 {
      assert s.handles[h := s.handles[h]] == s.handles;
      assert Content(s, n)[at..at + count] == [];
    } else {
      assert Content(s, n) == s.blocks[s.inodes[n].block][..s.inodes[n].size];
      MemoryInBlock(s, s.inodes[n].block, at, at + count);
      assert Content(s, n)[at..at + count] == s.blocks[s.inodes[n].block][at..at + count];
    }
  }

  lemma ReadTakenAbs(s: State, h: nat, len: SizeT)
    requires TablesOk(s) && HandleFits(s, h) && h in Abs(s).open && FS.HandleOk(Abs(s), h)
    ensures Read(s, h, len).Ok? && TablesOk(Read(s, h, len).value.0)
    ensures RootDir(Read(s, h, len).value.0) == RootDir(s)
    ensures Abs(Read(s, h, len).value.0) == FS.Read(Abs(s), h, len).0
    ensures FS.Reply(Read(s, h, len).value.1, Read(s, h, len).value.2) == FS.Read(Abs(s), h, len).1
  {
    HandleShows(s, h);
    var count := FS.ReadCount(Abs(s), h, len);
    ReadUnfolds(s, h, len, count);
    var moved := Handle(s.handles[h].inum, s.handles[h].offset + count);
    HandlesOnly(s, s.(handles := s.handles[h := moved]));
    MoveAbs(s, h, moved, count);
  }

  lemma HandleIsOpen(s: State, h: int)
    requires RootOk(s)
    ensures ValidHandle(s, h) <==> h in Abs(s).open
  {
  }
}
