/** What each function of Projeto1/fs/operations.c does to the tables. */
module Operations {
  import opened Base
  import opened Layout
  import opened Tables

  datatype Mode = Mode(creat: bool, trunc: bool, append: bool)

  /** Mode 0. */
  const PLAINLY := Mode(false, false, false)

  predicate ValidPath(path: CString) {
    |path| > 1 && path[0] == '/' as int
  }

  function Lookup(s: State, root: nat, path: CString): Outcome<int>
    requires root < |s.inodes|
  {
    if !ValidPath(path) then Ok(-1) else FindInDir(s, root, path[1..])
  }

  /** state_init followed by inode_create of the root; `memory` is what malloc returned. */
  function Init(memory: State): (r: (State, int))
    requires Shape(memory)
    ensures SameShape(memory, r.0)
  {
    var s := memory.(inodeBits := seq(|memory.inodes|, _ => false),
    blockBits := seq(|memory.blocks|, _ => false),
    handleBits := seq(|memory.handles|, _ => false));
    var (t, root) := DirectoryCreate(s);
    (t, if root != ROOT_DIR_INUM then -1 else 0)
  }

  function Truncate(s: State, n: nat): (r: Outcome<State>)
    requires Shape(s) && n < |s.inodes|
    ensures r.Ok? ==> SameShape(s, r.value)
  {
    if s.inodes[n].size == 0 then Ok(s)
    else
      var t :- DataBlockFree(s, s.inodes[n].block);
      Ok(t.(inodes := t.inodes[n := t.inodes[n].(size := 0)]))
  }

  /** The branch of tfs_open for a name that is not bound. */
  function CreateFile(s: State, root: nat, path: CString): (r: Outcome<(State, int)>)
    requires Shape(s) && root < |s.inodes| && |path| > 0
    ensures r.Ok? ==> SameShape(s, r.value.0)
  {
    var (s1, n) := InodeCreate(s, TFile);
    if n == -1 then Ok((s, -1))
    else
      var (s2, added) :- AddDirEntry(s1, root, path[1..], n);
      if added == -1 then
        var s3 :- InodeDelete(s2, n);
        Ok((s3, -1))
      else Ok(AddHandle(s2, n, 0))
  }

  /** The branch of tfs_open for a bound name: one soft-link hop, while TRUNC and
      APPEND act on the inode that was looked up first. */
  function OpenExisting(s: State, root: nat, n: nat, mode: Mode): (r: Outcome<(State, int)>)
    requires Shape(s) && root < |s.inodes| && n < |s.inodes|
    ensures r.Ok? ==> SameShape(s, r.value.0)
  {
    var node := s.inodes[n];
    var dest :- if node.kind.TSoftLink? then Lookup(s, root, CStr(node.target)) else Ok(n);
    if node.kind.TSoftLink? && dest == -1 then Ok((s, -1))
    else
      var t :- if mode.trunc then Truncate(s, n) else Ok(s);
      Ok(AddHandle(t, dest, if mode.append then t.inodes[n].size else 0))
  }

  function Open(s: State, path: CString, mode: Mode): (r: Outcome<(State, int)>)
    requires Shape(s)
    ensures r.Ok? ==> SameShape(s, r.value.0)
  {
    if !ValidPath(path) then Ok((s, -1))
    else
      var root :- InodeGet(s, ROOT_DIR_INUM);
      var n :- Lookup(s, root, path);
      if n >= 0 then
        var node :- InodeGet(s, n);
        OpenExisting(s, root, node, mode)
      else if mode.creat then CreateFile(s, root, path)
      else Ok((s, -1))
  }

  /** tfs_sym_link; a C caller passes a non-empty link name, since link_name + 1 is used. */
  function SymLink(s: State, target: CString, link: CString): (r: Outcome<(State, int)>)
    requires Shape(s) && |link| > 0
    ensures r.Ok? ==> SameShape(s, r.value.0)
  {
    var root :- InodeGet(s, ROOT_DIR_INUM);
    var found :- Lookup(s, root, target);
    if found == -1 then Ok((s, -1))
    else
      var (s1, n) := InodeCreate(s, TSoftLink);
      if n == -1 then Ok((s, -1))
      else
        var s2 := s1.(inodes := s1.inodes[n := s1.inodes[n].(target := NameField(target))]);
        var (s3, added) :- AddDirEntry(s2, root, link[1..], n);
        if added == -1 then
          var s4 :- InodeDelete(s3, n);
          Ok((s4, -1))
        else Ok((s3, 0))
  }

  /** The end of tfs_link: a soft link gets no other name; any other inode n gets one more. */
  function AddLink(s: State, root: nat, n: nat, name: CString): (r: Outcome<(State, int)>)
    requires Shape(s) && root < |s.inodes| && n < |s.inodes|
    ensures r.Ok? ==> SameShape(s, r.value.0)
  {
    if s.inodes[n].kind.TSoftLink? then Ok((s, -1))
    else
      var (t, added) :- AddDirEntry(s, root, name, n);
      if added == -1 then Ok((t, -1))
      else Ok((t.(inodes := t.inodes[n := t.inodes[n].(links := t.inodes[n].links + 1)]), 0))
  }

  function Link(s: State, target: CString, link: CString): (r: Outcome<(State, int)>)
    requires Shape(s) && |link| > 0
    ensures r.Ok? ==> SameShape(s, r.value.0)
  {
    var root :- InodeGet(s, ROOT_DIR_INUM);
    var found :- Lookup(s, root, target);
    if found == -1 then Ok((s, -1))
    else
      var n :- InodeGet(s, found);
      AddLink(s, root, n, link[1..])
  }

  function Close(s: State, h: int): (r: (State, int))
    requires Shape(s)
    ensures SameShape(s, r.0)
  {
    if !ValidHandle(s, h) then (s, -1) else (s.(handleBits := s.handleBits[h := false]), 0)
  }

  /** How many bytes a write at this offset copies; past the end of the block the subtraction wraps. */
  function ToWrite(s: State, at: SizeT, wanted: nat): (count: nat)
    requires Shape(s)
    ensures at <= s.blockSize ==> count == Min(wanted, s.blockSize - at)
    ensures at > s.blockSize ==> at + count > DataSize(s)
  {
    if wanted + at > s.blockSize then SubSize(s.blockSize, at) else wanted
  }

  /** The copy at the heart of tfs_write, once inode n owns a block. With a count from ToWrite, a copy that
      leaves its block leaves fs_data. */
  function WriteBytes(s: State, h: nat, n: nat, bytes: seq<Byte>): (r: Outcome<State>)
    requires Shape(s) && h < |s.handles| && n < |s.inodes|
    ensures r.Ok? ==> SameShape(s, r.value)
  {
    var b, at := s.inodes[n].block, s.handles[h].offset;
    if !ValidBlock(s, b) || at + |bytes| > s.blockSize then Abort
    else
      var end := at + |bytes|;
      var size := if end > s.inodes[n].size then end else s.inodes[n].size;
      Ok(s.(blocks := s.blocks[b := Splice(s.blocks[b], at, bytes)],
         handles := s.handles[h := s.handles[h].(offset := end)],
         inodes := s.inodes[n := s.inodes[n].(size := size)]))
  }

  /** The copy takes `count` bytes, whatever the buffer holds: past the end of a block the count wraps. */
  function WriteFrom(s: State, h: nat, n: nat, buffer: seq<Byte>, count: nat): (r: Outcome<State>)
    requires Shape(s) && h < |s.handles| && n < |s.inodes|
    ensures r.Ok? ==> SameShape(s, r.value)
  {
    if count > |buffer| then Abort else WriteBytes(s, h, n, buffer[..count])
  }

  /** An inode without bytes takes a block first. */
  function WriteSome(s: State, h: nat, n: nat, buffer: seq<Byte>, count: nat): (r: Outcome<(State, int)>)
    requires Shape(s) && h < |s.handles| && n < |s.inodes|
    ensures r.Ok? ==> SameShape(s, r.value.0)
  {
    var (t, b) := if s.inodes[n].size == 0 then DataBlockAlloc(s) else (s, 0);
    if b == -1 then Ok((s, -1))
    else
      var u := if s.inodes[n].size == 0 then t.(inodes := t.inodes[n := t.inodes[n].(block := b)]) else t;
      var v :- WriteFrom(u, h, n, buffer, count);
      Ok((v, count as int))
  }

  function Write(s: State, h: int, buffer: seq<Byte>): (r: Outcome<(State, int)>)
    requires Shape(s)
    ensures r.Ok? ==> SameShape(s, r.value.0)
  {
    if !ValidHandle(s, h) then Ok((s, -1))
    else
      var n :- InodeGet(s, s.handles[h].inum);
      var at := s.handles[h].offset;
      var count := ToWrite(s, at, |buffer|);
      if count == 0 then Ok((s, 0)) else WriteSome(s, h, n, buffer, count)
  }

  /** The copy at the heart of tfs_read, which may run on into the blocks that follow. */
  function ReadBytes(s: State, h: nat, n: nat, count: nat): (r: Outcome<(State, int, seq<Byte>)>)
    requires Shape(s) && h < |s.handles| && n < |s.inodes|
    ensures r.Ok? ==> SameShape(s, r.value.0)
  {
    var b, at := s.inodes[n].block, s.handles[h].offset;
    if !ValidBlock(s, b) || BlockStart(s, b) + at + count > DataSize(s) then Abort
    else
      var from := BlockStart(s, b) + at;
      Ok((s.(handles := s.handles[h := s.handles[h].(offset := at + count)]), count, Memory(s)[from..from + count]))
  }

  /** The state after tfs_read, the number of bytes, and the bytes it copied out. */
  function Read(s: State, h: int, len: SizeT): (r: Outcome<(State, int, seq<Byte>)>)
    requires Shape(s)
    ensures r.Ok? ==> SameShape(s, r.value.0)
  {
    if !ValidHandle(s, h) then Ok((s, -1, []))
    else
      var n :- InodeGet(s, s.handles[h].inum);
      var at := s.handles[h].offset;
      var left := SubSize(s.inodes[n].size, at);
      var count := if left > len then len else left;
      if count == 0 then Ok((s, 0, [])) else ReadBytes(s, h, n, count)
  }

  /** The end of tfs_unlink: a soft link's inode is deleted, and any inode is deleted
      when its link count reaches 0. */
  function DropLink(s: State, n: nat): (r: Outcome<State>)
    requires Shape(s) && n < |s.inodes|
    ensures r.Ok? ==> SameShape(s, r.value)
  {
    var t :- if s.inodes[n].kind.TSoftLink? then InodeDelete(s, n) else Ok(s);
    var u := t.(inodes := t.inodes[n := t.inodes[n].(links := t.inodes[n].links - 1)]);
    if u.inodes[n].links == 0 then InodeDelete(u, n) else Ok(u)
  }

  function Unlink(s: State, path: CString): (r: Outcome<(State, int)>)
    requires Shape(s)
    ensures r.Ok? ==> SameShape(s, r.value.0)
  {
    var root :- InodeGet(s, ROOT_DIR_INUM);
    var found :- Lookup(s, root, path);
    if found == -1 then Ok((s, -1))
    else
      var n :- InodeGet(s, found);
      var (s1, cleared) :- ClearDirEntry(s, root, path[1..]);
      if cleared == -1 then Ok((s1, -1))
      else
        var s2 :- DropLink(s1, n);
        Ok((s2, 0))
  }
}
