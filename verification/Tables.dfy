/** The tables of state.c as one value, and what each state.c function does to them. */
module Tables {
  import opened Base
  import opened Layout

  type SizeT = x: int | 0 <= x < SIZE_T

  datatype InodeType = TFile | TDirectory | TSoftLink

  /** inode_t; `target` holds the bytes of i_target. */
  datatype Inode = Inode(kind: InodeType, links: int, size: SizeT, block: int, target: seq<Byte>)

  /** open_file_entry_t. */
  datatype Handle = Handle(inum: int, offset: SizeT)

  /** A bit is true for TAKEN. `blocks[b]` is the stretch of fs_data that block b occupies. */
  datatype State = State(
    inodes: seq<Inode>, inodeBits: seq<bool>,
    blocks: seq<seq<Byte>>, blockBits: seq<bool>,
    handles: seq<Handle>, handleBits: seq<bool>,
    blockSize: SizeT)

  predicate Shape(s: State) {
    && 0 < s.blockSize
    && |s.inodes| == |s.inodeBits| <= INT_MAX
    && |s.blocks| == |s.blockBits| <= INT_MAX
    && |s.handles| == |s.handleBits| <= INT_MAX
    && DataSize(s) <= PTRDIFF_MAX
    && forall b :: 0 <= b < |s.blocks| ==> |s.blocks[b]| == s.blockSize
  }

  /** The size of fs_data. */
  function DataSize(s: State): nat {
    |s.blocks| * s.blockSize
  }

  /** Where block b begins in fs_data. */
  function BlockStart(s: State, b: nat): nat {
    b * s.blockSize
  }

  /** Blocks as they lie in memory, one after another. */
  function Flat(blocks: seq<seq<Byte>>): seq<Byte> {
    if blocks == [] then [] else blocks[0] + Flat(blocks[1..])
  }

  lemma {:induction false} FlatSize(blocks: seq<seq<Byte>>, size: nat)
    requires forall b :: 0 <= b < |blocks| ==> |blocks[b]| == size
    ensures |Flat(blocks)| == |blocks| * size
  {
    if blocks == [] {
    } else {
      FlatSize(blocks[1..], size);
      assert |blocks| * size == size + |blocks[1..]| * size;
    }
  }

  /** fs_data. */
  function Memory(s: State): (data: seq<Byte>)
    requires Shape(s)
    ensures |data| == DataSize(s)
  {
    FlatSize(s.blocks, s.blockSize);
    Flat(s.blocks)
  }

  lemma {:induction false} FlatBlock(blocks: seq<seq<Byte>>, size: nat, b: nat, start: nat)
    requires b < |blocks| && start == b * size && forall c :: 0 <= c < |blocks| ==> |blocks[c]| == size
    ensures start + size <= |Flat(blocks)| && Flat(blocks)[start..start + size] == blocks[b]
  {
    var first, rest := blocks[0], Flat(blocks[1..]);
    if b == 0 {
      assert Flat(blocks)[0..size] == first;
    } else {
      assert start == (b - 1) * size + size;
      FlatBlock(blocks[1..], size, b - 1, start - size);
      StretchOfSum(first, rest, start - size, start);
    }
  }

  lemma StretchOfSum(a: seq<Byte>, b: seq<Byte>, i: nat, j: nat)
    requires i <= j <= |b|
    ensures (a + b)[|a| + i..|a| + j] == b[i..j]
  {
  }

  lemma StretchOfStretch(a: seq<Byte>, from: nat, to: nat, i: nat, j: nat)
    requires from <= to <= |a| && i <= j <= to - from
    ensures a[from..to][i..j] == a[from + i..from + j]
  {
    var b, x, y := a[from..to], a[from..to][i..j], a[from + i..from + j];
    forall k | 0 <= k < j - i ensures x[k] == y[k] {
      assert x[k] == b[i + k] && b[i + k] == a[from + (i + k)];
    }
    assert x == y;
  }

  /** A copy that stays in its block reads that block. */
  lemma MemoryInBlock(s: State, b: nat, i: nat, j: nat)
    requires Shape(s) && b < |s.blocks| && i <= j <= s.blockSize
    ensures BlockStart(s, b) + s.blockSize <= DataSize(s)
    ensures Memory(s)[BlockStart(s, b) + i..BlockStart(s, b) + j] == s.blocks[b][i..j]
  {
    var start := BlockStart(s, b);
    FlatBlock(s.blocks, s.blockSize, b, start);
    var data := Memory(s);
    assert data[start..start + s.blockSize] == s.blocks[b];
    StretchOfStretch(data, start, start + s.blockSize, i, j);
  }

  predicate SameShape(s: State, t: State) {
    && Shape(s) && Shape(t)
    && |s.inodes| == |t.inodes| && |s.blocks| == |t.blocks| && |s.handles| == |t.handles|
    && s.blockSize == t.blockSize
  }

  predicate IsFree(taken: bool) {
    !taken
  }

  predicate IsEmptySlot(e: Entry) {
    !Live(e)
  }

  /** The test of find_in_dir. */
  function Matches(name: CString): Entry -> bool {
    (e: Entry) => Live(e) && StrnEq(e.name, name)
  }

  /** The test of clear_dir_entry, which does not look at d_inumber. */
  function Named(name: CString): Entry -> bool {
    (e: Entry) => StrEq(e.name, name)
  }

  predicate ValidBlock(s: State, b: int) {
    0 <= b < |s.blocks|
  }

  predicate ValidHandle(s: State, h: int)
    requires Shape(s)
  {
    0 <= h < |s.handles| && s.handleBits[h]
  }

  // ---------- inodes ----------

  /** inode_get: the pointer is the index. */
  function InodeGet(s: State, n: int): (r: Outcome<nat>)
    ensures r.Ok? <==> 0 <= n < |s.inodes|
    ensures r.Ok? ==> r.value == n
  {
    if 0 <= n < |s.inodes| then Ok(n) else Abort
  }

  /** inode_create for a file or a soft link. */
  function InodeCreate(s: State, kind: InodeType): (r: (State, int))
    requires Shape(s)
    ensures SameShape(s, r.0)
  {
    var n := First(s.inodeBits, IsFree, 0);
    if n == -1 then (s, -1)
    else
      var node := s.inodes[n].(kind := kind, size := 0, block := -1, links := 1);
      (s.(inodes := s.inodes[n := node], inodeBits := s.inodeBits[n := true]), n)
  }

  function DataBlockFree(s: State, b: int): (r: Outcome<State>)
    requires Shape(s)
    ensures r.Ok? ==> SameShape(s, r.value)
  {
    if ValidBlock(s, b) then Ok(s.(blockBits := s.blockBits[b := false])) else Abort
  }

  function InodeDelete(s: State, n: int): (r: Outcome<State>)
    requires Shape(s)
    ensures r.Ok? ==> SameShape(s, r.value)
  {
    if !(0 <= n < |s.inodes|) || !s.inodeBits[n] then Abort
    else
      var t :- if s.inodes[n].size > 0 then DataBlockFree(s, s.inodes[n].block) else Ok(s);
      Ok(t.(inodeBits := t.inodeBits[n := false]))
  }

  /** inode_create for the root, run on freshly allocated tables. */
  function DirectoryCreate(s: State): (r: (State, int))
    requires Shape(s)
    ensures SameShape(s, r.0)
  {
    var n := First(s.inodeBits, IsFree, 0);
    if n == -1 then (s, -1)
    else
      var b := First(s.blockBits, IsFree, 0);
      if b == -1 then
        (s.(inodes := s.inodes[n := s.inodes[n].(kind := TDirectory, size := 0, block := -1)]), -1)
      else
        var node := s.inodes[n].(kind := TDirectory, size := s.blockSize, block := b, links := 1);
        (s.(inodes := s.inodes[n := node], inodeBits := s.inodeBits[n := true],
         blocks := s.blocks[b := MarkEmpty(s.blocks[b], Slots(s.blocks[b]))],
         blockBits := s.blockBits[b := true]), n)
  }

  // ---------- directory ----------

  /** What the scan of find_in_dir returns; with duplicate names the first record wins. */
  function Find(dir: seq<Entry>, name: CString): int {
    var k := First(dir, Matches(name), 0);
    if k == -1 then -1 else dir[k].inum
  }

  function FindInDir(s: State, dir: nat, name: CString): Outcome<int>
    requires dir < |s.inodes|
  {
    if !s.inodes[dir].kind.TDirectory? then Ok(-1)
    else if !ValidBlock(s, s.inodes[dir].block) then Abort
    else Ok(Find(Dir(s.blocks[s.inodes[dir].block]), name))
  }

  function SetEntry(s: State, b: nat, i: nat, e: Entry): (r: State)
    requires Shape(s) && b < |s.blocks| && i < Slots(s.blocks[b])
    ensures SameShape(s, r)
  {
    s.(blocks := s.blocks[b := WriteEntry(s.blocks[b], i, e)])
  }

  function AddDirEntry(s: State, dir: nat, name: CString, inum: int): (r: Outcome<(State, int)>)
    requires Shape(s) && dir < |s.inodes|
    ensures r.Ok? ==> SameShape(s, r.value.0)
  {
    if |name| == 0 || |name| > MAX_FILE_NAME - 1 then Ok((s, -1))
    else if !s.inodes[dir].kind.TDirectory? then Ok((s, -1))
    else if !ValidBlock(s, s.inodes[dir].block) then Abort
    else
      var b := s.inodes[dir].block;
      var i := First(Dir(s.blocks[b]), IsEmptySlot, 0);
      if i == -1 then Ok((s, -1))
      else Ok((SetEntry(s, b, i, Entry(NameField(name), inum)), 0))
  }

  function ClearDirEntry(s: State, dir: nat, name: CString): (r: Outcome<(State, int)>)
    requires Shape(s) && dir < |s.inodes|
    ensures r.Ok? ==> SameShape(s, r.value.0)
  {
    if !s.inodes[dir].kind.TDirectory? then Ok((s, -1))
    else if !ValidBlock(s, s.inodes[dir].block) then Abort
    else
      var b := s.inodes[dir].block;
      var i := First(Dir(s.blocks[b]), Named(name), 0);
      if i == -1 then Ok((s, -1))
      else Ok((SetEntry(s, b, i, Entry(Zeros(MAX_FILE_NAME), NO_INUM)), 0))
  }

  // ---------- blocks and handles ----------

  function DataBlockAlloc(s: State): (r: (State, int))
    requires Shape(s)
    ensures SameShape(s, r.0)
  {
    var b := First(s.blockBits, IsFree, 0);
    if b == -1 then (s, -1) else (s.(blockBits := s.blockBits[b := true]), b)
  }

  function AddHandle(s: State, inum: int, offset: SizeT): (r: (State, int))
    requires Shape(s)
    ensures SameShape(s, r.0)
  {
    var h := First(s.handleBits, IsFree, 0);
    if h == -1 then (s, -1)
    else (s.(handles := s.handles[h := Handle(inum, offset)], handleBits := s.handleBits[h := true]), h)
  }
}
