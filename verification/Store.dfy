/** The static tables of state.c as arrays, and its functions as in-place methods. */
module Store {
  import opened Base
  import opened Layout
  import opened Tables

  // ---------- blocks of one flat array ----------

  lemma BlockBounds(b: nat, n: nat, size: nat)
    requires b < n
    ensures 0 <= b * size && b * size + size <= n * size
  {
    assert b + 1 <= n;
    assert (b + 1) * size <= n * size;
  }

  lemma BlocksDisjoint(b: nat, c: nat, size: nat)
    requires b < c
    ensures b * size + size <= c * size
  {
    BlockBounds(b, c, size);
  }

  function Block(data: seq<Byte>, b: nat, n: nat, size: nat): (r: seq<Byte>)
    requires b < n && |data| == n * size
    ensures |r| == size
  {
    BlockBounds(b, n, size);
    data[b * size..b * size + size]
  }

  lemma SliceOfBlock(data: seq<Byte>, b: nat, n: nat, size: nat, base: int, i: nat, j: nat)
    requires b < n && |data| == n * size && base == b * size && i <= j <= size
    ensures 0 <= base && base + size <= |data| && data[base + i..base + j] == Block(data, b, n, size)[i..j]
  {
    BlockBounds(b, n, size);
  }

  function Blocks(data: seq<Byte>, n: nat, size: nat): (r: seq<seq<Byte>>)
    requires |data| == n * size
    ensures |r| == n && forall b :: 0 <= b < n ==> r[b] == Block(data, b, n, size)
  {
    seq(n, b requires 0 <= b < n => Block(data, b, n, size))
  }

  /** The blocks of the flat array, one after another, are the flat array. */
  lemma {:induction false} BlocksAreData(data: seq<Byte>, n: nat, size: nat)
    requires |data| == n * size
    ensures Flat(Blocks(data, n, size)) == data
  {
    if n == 0 {
    } else {
      BlockBounds(0, n, size);
      var rest := data[size..];
      assert |rest| == (n - 1) * size;
      var after := Blocks(data, n, size)[1..];
      forall b | 0 <= b < n - 1 ensures after[b] == Block(rest, b, n - 1, size) {
        BlockBounds(b, n - 1, size);
        assert (b + 1) * size == b * size + size;
      }
      assert after == Blocks(rest, n - 1, size);
      BlocksAreData(rest, n - 1, size);
    }
  }

  /** Bytes copied in at base + at change the stretch at base, and none that lies beside it. */
  lemma SpliceInStretch(data: seq<Byte>, size: nat, base: nat, at: nat, bytes: seq<Byte>, other: nat)
    requires base + size <= |data| && other + size <= |data| && at + |bytes| <= size
    requires other == base || other + size <= base || base + size <= other
    ensures Splice(data, base + at, bytes)[other..other + size] ==
            if other == base then Splice(data[base..base + size], at, bytes) else data[other..other + size]
  {
  }

  /** Bytes copied into the flat array inside block b change that block there, and no other block. */
  lemma SpliceInBlock(data: seq<Byte>, n: nat, size: nat, b: nat, at: nat, bytes: seq<Byte>)
    requires |data| == n * size && b < n && at + |bytes| <= size
    ensures 0 <= b * size && b * size + at + |bytes| <= |data|
    ensures Blocks(Splice(data, b * size + at, bytes), n, size) ==
            Blocks(data, n, size)[b := Splice(Block(data, b, n, size), at, bytes)]
  {
    BlockBounds(b, n, size);
    var base := b * size;
    var after := Splice(data, base + at, bytes);
    forall c | 0 <= c < n
      ensures Block(after, c, n, size) ==
              if c == b then Splice(Block(data, b, n, size), at, bytes) else Block(data, c, n, size)
    {
      BlockBounds(c, n, size);
      if c < b {
        BlocksDisjoint(c, b, size);
      } else if b < c {
        BlocksDisjoint(b, c, size);
      }
      SpliceInStretch(data, size, base, at, bytes, c * size);
    }
  }

  class Disk {
    const inodeTable: array<Inode>
    const inodeBits: array<bool>
    const fsData: array<Byte>
    const blockBits: array<bool>
    const openFileTable: array<Handle>
    const openBits: array<bool>
    const blockSize: SizeT

    ghost predicate Valid() {
      && inodeBits != blockBits && inodeBits != openBits && blockBits != openBits
      && 0 < blockSize
      && inodeTable.Length == inodeBits.Length <= INT_MAX
      && fsData.Length == blockBits.Length * blockSize <= PTRDIFF_MAX && blockBits.Length <= INT_MAX
      && openFileTable.Length == openBits.Length <= INT_MAX
    }

    ghost function Repr(): set<object> {
      {inodeTable, inodeBits, fsData, blockBits, openFileTable, openBits}
    }

    /** The tables as one value. */
    ghost function Snapshot(): (s: State)
      requires Valid()
      reads Repr()
      ensures Shape(s)
      ensures |s.inodes| == inodeTable.Length && |s.blocks| == blockBits.Length && |s.handles| == openFileTable.Length
    {
      State(inodeTable[..], inodeBits[..], Blocks(fsData[..], blockBits.Length, blockSize), blockBits[..],
            openFileTable[..], openBits[..], blockSize)
    }

    /** state_init: the tables are allocated, and every entry of the bitmaps is FREE. */
    constructor (inodes: nat, blocks: nat, handles: nat, size: SizeT)
      requires 0 < size && inodes <= INT_MAX && blocks <= INT_MAX && handles <= INT_MAX
      requires blocks * size <= PTRDIFF_MAX
      ensures Valid() && fresh(Repr())
      ensures inodeTable.Length == inodes && blockBits.Length == blocks && openFileTable.Length == handles
      ensures blockSize == size
      ensures Snapshot().inodeBits == seq(inodes, _ => false)
      ensures Snapshot().blockBits == seq(blocks, _ => false)
      ensures Snapshot().handleBits == seq(handles, _ => false)
    {
      inodeTable := new Inode[inodes];
      inodeBits := new bool[inodes];
      fsData := new Byte[blocks * size];
      blockBits := new bool[blocks];
      openFileTable := new Handle[handles];
      openBits := new bool[handles];
      blockSize := size;
      new;
      FreeAll(inodeBits);
      FreeAll(blockBits);
      FreeAll(openBits);
    }

    static method FreeAll(bits: array<bool>)
      modifies bits
      ensures bits[..] == seq(bits.Length, _ => false)
    {
      for i := 0 to bits.Length
        invariant forall j :: 0 <= j < i ==> !bits[j]
      {
        bits[i] := false;
      }
    }

    /** The search loop of the allocators: the first FREE entry becomes TAKEN. */
    static method TakeFirst(bits: array<bool>) returns (n: int)
      modifies bits
      ensures n == First(old(bits[..]), IsFree, 0)
      ensures bits[..] == if n == -1 then old(bits[..]) else old(bits[..])[n := true]
    {
      var i := 0;
      while i < bits.Length
        invariant 0 <= i <= bits.Length
        invariant First(bits[..], IsFree, 0) == First(bits[..], IsFree, i)
        invariant bits[..] == old(bits[..])
      {
        if !bits[i] {
          bits[i] := true;
          return i;
        }
        i := i + 1;
      }
      n := -1;
    }

    /** memcpy, memset and strncpy into block b, at the pointer that data_block_get returns. */
    method CopyToBlock(b: nat, at: nat, bytes: seq<Byte>)
      requires Valid() && b < blockBits.Length && at + |bytes| <= blockSize
      modifies fsData
      ensures var s := old(Snapshot());
              Snapshot() == s.(blocks := s.blocks[b := Splice(s.blocks[b], at, bytes)])
    {
      SpliceInBlock(fsData[..], blockBits.Length, blockSize, b, at, bytes);
      forall i | 0 <= i < |bytes| {
        fsData[b * blockSize + at + i] := bytes[i];
      }
      assert fsData[..] == Splice(old(fsData[..]), b * blockSize + at, bytes);
    }

    /** memcpy out of block b. */
    method CopyFromBlock(b: nat, at: nat, count: nat) returns (bytes: seq<Byte>)
      requires Valid() && b < blockBits.Length && at + count <= blockSize
      ensures bytes == Snapshot().blocks[b][at..at + count]
    {
      SliceOfBlock(fsData[..], b, blockBits.Length, blockSize, b * blockSize, at, at + count);
      bytes := fsData[b * blockSize + at..b * blockSize + (at + count)];
    }

    /** memcpy from any place in fs_data. */
    method CopyFromData(start: nat, count: nat) returns (bytes: seq<Byte>)
      requires Valid() && start + count <= fsData.Length
      ensures bytes == Memory(Snapshot())[start..start + count]
    {
      BlocksAreData(fsData[..], blockBits.Length, blockSize);
      bytes := fsData[start..start + count];
    }

    // ---------- inodes ----------

    method InodeGet(n: int) returns (r: Outcome<nat>)
      requires Valid()
      ensures r == Tables.InodeGet(Snapshot(), n)
    {
      if 0 <= n < inodeTable.Length {
        return Ok(n);
      }
      return Abort;
    }

    method InodeAlloc() returns (n: int)
      requires Valid()
      modifies inodeBits
      ensures n == First(old(Snapshot()).inodeBits, IsFree, 0)
      ensures Snapshot() == if n == -1 then old(Snapshot())
                            else old(Snapshot()).(inodeBits := old(Snapshot()).inodeBits[n := true])
    {
      n := TakeFirst(inodeBits);
    }

    method DataBlockAlloc() returns (b: int)
      requires Valid()
      modifies blockBits
      ensures (Snapshot(), b) == Tables.DataBlockAlloc(old(Snapshot()))
    {
      b := TakeFirst(blockBits);
    }

    method DataBlockFree(b: int) returns (r: Outcome<bool>)
      requires Valid()
      modifies blockBits
      ensures r.Ok? <==> Tables.DataBlockFree(old(Snapshot()), b).Ok?
      ensures r.Ok? ==> Snapshot() == Tables.DataBlockFree(old(Snapshot()), b).value
    {
      if !(0 <= b < blockBits.Length) {
        return Abort;
      }
      blockBits[b] := false;
      return Ok(true);
    }

    method InodeDelete(n: int) returns (r: Outcome<bool>)
      requires Valid()
      modifies inodeBits, blockBits
      ensures r.Ok? <==> Tables.InodeDelete(old(Snapshot()), n).Ok?
      ensures r.Ok? ==> Snapshot() == Tables.InodeDelete(old(Snapshot()), n).value
    {
      if !(0 <= n < inodeTable.Length) || !inodeBits[n] {
        return Abort;
      }
      if inodeTable[n].size > 0 {
        var freed :- DataBlockFree(inodeTable[n].block);
      }
      inodeBits[n] := false;
      return Ok(true);
    }

    /** inode_create; a directory also gets a block, in which every record is marked empty. */
    method InodeCreate(kind: InodeType) returns (n: int)
      requires Valid()
      modifies inodeTable, inodeBits, fsData, blockBits
      ensures var made := if kind.TDirectory? then Tables.DirectoryCreate(old(Snapshot()))
                          else Tables.InodeCreate(old(Snapshot()), kind);
              n == made.1 && Snapshot() == made.0
    {
      n := InodeAlloc();
      if n == -1 {
        return;
      }
      inodeTable[n] := inodeTable[n].(kind := kind);
      if kind.TDirectory? {
        ghost var s := old(Snapshot());
        assert s.inodeBits[n := true][n := false] == s.inodeBits by { assert IsFree(s.inodeBits[n]); }
        var made := FillDirectory(n);
        if !made {
          return -1;
        }
      } else {
        inodeTable[n] := inodeTable[n].(size := 0, block := -1, links := 1);
      }
    }

    /** The T_DIRECTORY branch: without a free block the inode is given back. */
    method FillDirectory(n: nat) returns (made: bool)
      requires Valid() && n < inodeTable.Length && inodeBits[n]
      modifies inodeTable, inodeBits, fsData, blockBits
      ensures var s := old(Snapshot());
              var b := First(s.blockBits, IsFree, 0);
              && made == (b != -1)
              && Snapshot() ==
                 if b == -1 then
                   s.(inodes := s.inodes[n := s.inodes[n].(size := 0, block := -1)],
                      inodeBits := s.inodeBits[n := false])
                 else
                   s.(inodes := s.inodes[n := s.inodes[n].(size := blockSize, block := b, links := 1)],
                      blocks := s.blocks[b := MarkEmpty(s.blocks[b], Slots(s.blocks[b]))],
                      blockBits := s.blockBits[b := true])
    {
      var b := DataBlockAlloc();
      if b == -1 {
        inodeTable[n] := inodeTable[n].(size := 0, block := -1);
        var deleted := InodeDelete(n);
        return false;
      }
      inodeTable[n] := inodeTable[n].(size := blockSize, block := b, links := 1);
      MarkRecords(b);
      return true;
    }

    method MarkRecords(b: nat)
      requires Valid() && b < blockBits.Length
      modifies fsData
      ensures var s := old(Snapshot());
              Snapshot() == s.(blocks := s.blocks[b := MarkEmpty(s.blocks[b], Slots(s.blocks[b]))])
    {
      ghost var s := Snapshot();
      var count := blockSize / ENTRY_SIZE;
      for i := 0 to count
        invariant Snapshot() == s.(blocks := s.blocks[b := MarkEmpty(s.blocks[b], i)])
      {
        CopyToBlock(b, ENTRY_SIZE * i + MAX_FILE_NAME, EncodeInt(NO_INUM));
      }
    }

    // ---------- directory ----------

    /** One dir_entry_t, read from memory. */
    method ReadEntry(b: nat, i: nat) returns (e: Entry)
      requires Valid() && b < blockBits.Length && i < blockSize / ENTRY_SIZE
      ensures e == Dir(Snapshot().blocks[b])[i]
    {
      var name := CopyFromBlock(b, ENTRY_SIZE * i, MAX_FILE_NAME);
      var inum := CopyFromBlock(b, ENTRY_SIZE * i + MAX_FILE_NAME, ENTRY_SIZE - MAX_FILE_NAME);
      e := Entry(name, DecodeInt(inum));
    }

    /** Sets d_inumber, then d_name. */
    method WriteRecord(b: nat, i: nat, e: Entry)
      requires Valid() && b < blockBits.Length && i < blockSize / ENTRY_SIZE
      modifies fsData
      ensures Snapshot() == SetEntry(old(Snapshot()), b, i, e)
    {
      CopyToBlock(b, ENTRY_SIZE * i + MAX_FILE_NAME, EncodeInt(e.inum));
      CopyToBlock(b, ENTRY_SIZE * i, e.name);
    }

    method FindInDir(dir: nat, name: CString) returns (r: Outcome<int>)
      requires Valid() && dir < inodeTable.Length
      ensures r == Tables.FindInDir(Snapshot(), dir, name)
    {
      if !inodeTable[dir].kind.TDirectory? {
        return Ok(-1);
      }
      var b := inodeTable[dir].block;
      if !(0 <= b < blockBits.Length) {
        return Abort;
      }
      ghost var entries := Dir(Snapshot().blocks[b]);
      var i, count := 0, blockSize / ENTRY_SIZE;
      while i < count
        invariant 0 <= i <= count
        invariant First(entries, Matches(name), 0) == First(entries, Matches(name), i)
      {
        var e := ReadEntry(b, i);
        if Live(e) && StrnEq(e.name, name) {
          return Ok(e.inum);
        }
        i := i + 1;
      }
      return Ok(-1);
    }

    method AddDirEntry(dir: nat, name: CString, inum: int) returns (r: Outcome<int>)
      requires Valid() && dir < inodeTable.Length
      modifies fsData
      ensures r.Ok? <==> Tables.AddDirEntry(old(Snapshot()), dir, name, inum).Ok?
      ensures r.Ok? ==> (Snapshot(), r.value) == Tables.AddDirEntry(old(Snapshot()), dir, name, inum).value
    {
      if |name| == 0 || |name| > MAX_FILE_NAME - 1 {
        return Ok(-1);
      }
      if !inodeTable[dir].kind.TDirectory? {
        return Ok(-1);
      }
      var b := inodeTable[dir].block;
      if !(0 <= b < blockBits.Length) {
        return Abort;
      }
      ghost var entries := Dir(Snapshot().blocks[b]);
      var i, count := 0, blockSize / ENTRY_SIZE;
      while i < count
        invariant 0 <= i <= count && fsData[..] == old(fsData[..])
        invariant First(entries, IsEmptySlot, 0) == First(entries, IsEmptySlot, i)
      {
        var e := ReadEntry(b, i);
        if e.inum == NO_INUM {
          WriteRecord(b, i, Entry(NameField(name), inum));
          return Ok(0);
        }
        i := i + 1;
      }
      return Ok(-1);
    }

    method ClearDirEntry(dir: nat, name: CString) returns (r: Outcome<int>)
      requires Valid() && dir < inodeTable.Length
      modifies fsData
      ensures r.Ok? <==> Tables.ClearDirEntry(old(Snapshot()), dir, name).Ok?
      ensures r.Ok? ==> (Snapshot(), r.value) == Tables.ClearDirEntry(old(Snapshot()), dir, name).value
    {
      if !inodeTable[dir].kind.TDirectory? {
        return Ok(-1);
      }
      var b := inodeTable[dir].block;
      if !(0 <= b < blockBits.Length) {
        return Abort;
      }
      ghost var entries := Dir(Snapshot().blocks[b]);
      var i, count := 0, blockSize / ENTRY_SIZE;
      while i < count
        invariant 0 <= i <= count && fsData[..] == old(fsData[..])
        invariant First(entries, Named(name), 0) == First(entries, Named(name), i)
      {
        var e := ReadEntry(b, i);
        if StrEq(e.name, name) {
          WriteRecord(b, i, Entry(Zeros(MAX_FILE_NAME), NO_INUM));
          return Ok(0);
        }
        i := i + 1;
      }
      return Ok(-1);
    }

    // ---------- open files ----------

    method AddToOpenFileTable(inum: int, offset: SizeT) returns (h: int)
      requires Valid()
      modifies openFileTable, openBits
      ensures (Snapshot(), h) == AddHandle(old(Snapshot()), inum, offset)
    {
      h := TakeFirst(openBits);
      if h != -1 {
        openFileTable[h] := Handle(inum, offset);
      }
    }

    /** remove_from_open_file_table, whose two assertions ask for a taken handle. */
    method RemoveFromOpenFileTable(h: int) returns (r: Outcome<bool>)
      requires Valid()
      modifies openBits
      ensures r.Ok? <==> ValidHandle(old(Snapshot()), h)
      ensures r.Ok? ==> Snapshot() == old(Snapshot()).(handleBits := old(Snapshot()).handleBits[h := false])
    {
      if !(0 <= h < openBits.Length) || !openBits[h] {
        return Abort;
      }
      openBits[h] := false;
      return Ok(true);
    }

    /** get_open_file_entry: whether the pointer is not NULL. */
    method IsOpen(h: int) returns (open: bool)
      requires Valid()
      ensures open == ValidHandle(Snapshot(), h)
    {
      open := 0 <= h < openBits.Length && openBits[h];
    }
  }
}
