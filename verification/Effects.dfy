/** How small changes to the tables carry the invariants along. */
module Effects {
  import opened Base
  import opened Layout
  import opened Tables
  import opened Directory
  import opened Invariants
  import FS = FileSystem

  // ---------- inodes and link counts ----------

  /** Changing one record and the one inode it concerns. */
  lemma NodesChange(inodes: seq<Inode>, bits: seq<bool>, dir: seq<Entry>,
                    k: nat, e: Entry, n: nat, node: Inode, taken: bool)
    requires |inodes| == |bits| && NodesOk(inodes, bits, dir) && k < |dir| && n < |inodes|
    requires dir[k].inum == n || !Live(dir[k])
    requires e.inum == n || !Live(e)
    requires n > 0 ==> Counted(node, taken, Count(dir[k := e], n))
    ensures NodesOk(inodes[n := node], bits[n := taken], dir[k := e])
  {
    forall m | 1 <= m < |inodes| && m != n ensures Count(dir[k := e], m) == Count(dir, m) {
      CountUpdate(dir, k, e, m);
    }
  }

  lemma CountOfChange(dir: seq<Entry>, k: nat, e: Entry, n: int)
    requires k < |dir| && n != NO_INUM
    ensures dir[k].inum != n && e.inum == n ==> Count(dir[k := e], n) == Count(dir, n) + 1
    ensures dir[k].inum == n && e.inum != n ==> Count(dir[k := e], n) == Count(dir, n) - 1
  {
    CountUpdate(dir, k, e, n);
  }

  /** Changing an inode in ways its links do not show. */
  lemma NodesKept(inodes: seq<Inode>, bits: seq<bool>, dir: seq<Entry>, n: nat, node: Inode)
    requires |inodes| == |bits| && NodesOk(inodes, bits, dir) && n < |inodes|
    requires bits[n] ==> node.kind == inodes[n].kind && node.links == inodes[n].links
    ensures NodesOk(inodes[n := node], bits, dir)
  {
  }

  // ---------- blocks ----------

  lemma OwnedChange(inodes: seq<Inode>, bits: seq<bool>, n: nat, node: Inode, taken: bool)
    requires |inodes| == |bits| && n < |inodes|
    ensures Owned(inodes[n := node], bits[n := taken]) ==
            if taken && node.size > 0 then Owned(inodes, bits)[n := node.block] else Owned(inodes, bits) - {n}
  {
  }

  lemma ApartFreed(owned: map<int, int>, blockBits: seq<bool>, n: int)
    requires Apart(owned, blockBits) && n in owned
    ensures Apart(owned - {n}, blockBits[owned[n] := false])
  {
  }

  lemma ApartTaken(owned: map<int, int>, blockBits: seq<bool>, n: int, b: nat)
    requires Apart(owned, blockBits) && n !in owned && b < |blockBits| && !blockBits[b]
    ensures Apart(owned[n := b], blockBits[b := true])
  {
  }

  /** An inode gives its block up. */
  lemma BlockFreed(owned: map<int, int>, blockBits: seq<bool>, n: int)
    requires Backed(owned, blockBits) && n in owned
    ensures Backed(owned - {n}, blockBits[owned[n] := false])
  {
    var owned', bits' := owned - {n}, blockBits[owned[n] := false];
    forall b | 0 <= b < |bits'| && bits'[b] ensures exists m :: m in owned' && owned'[m] == b {
      var m :| m in owned && owned[m] == b;
      assert m in owned';
    }
  }

  /** An inode without bytes takes the free block b. */
  lemma BlockTaken(owned: map<int, int>, blockBits: seq<bool>, n: int, b: nat)
    requires Backed(owned, blockBits) && n !in owned && b < |blockBits| && !blockBits[b]
    ensures Backed(owned[n := b], blockBits[b := true])
  {
    var owned', bits' := owned[n := b], blockBits[b := true];
    forall c | 0 <= c < |bits'| && bits'[c] ensures exists m :: m in owned' && owned'[m] == c {
      if c == b {
        assert owned'[n] == b;
      } else {
        var m :| m in owned && owned[m] == c;
        assert owned'[m] == c;
      }
    }
  }

  /** No file's bytes lie in the directory's block, and no two files share one. */
  lemma BlocksApart(s: State, n: nat, m: nat)
    requires Shape(s) && Apart(Owned(s.inodes, s.inodeBits), s.blockBits) && n < |s.inodes| && m < |s.inodes| && n != m
    requires s.inodeBits[n] && s.inodes[n].size > 0 && s.inodeBits[m] && s.inodes[m].size > 0
    ensures s.inodes[n].block != s.inodes[m].block
  {
    assert n in Owned(s.inodes, s.inodeBits) && m in Owned(s.inodes, s.inodeBits);
  }

  /** Node m, its taken bit and the block with its bytes are the same in t. */
  ghost predicate NodeKept(s: State, t: State, m: int)
    requires SameShape(s, t) && 0 <= m < |s.inodes|
  {
    && t.inodeBits[m] == s.inodeBits[m]
    && (s.inodeBits[m] ==>
         && t.inodes[m].(links := 0) == s.inodes[m].(links := 0)
         && (s.inodes[m].size > 0 && ValidBlock(s, s.inodes[m].block) ==>
              t.blocks[s.inodes[m].block] == s.blocks[s.inodes[m].block]))
  }

  /** Every node but n is as before. */
  lemma NodesFrame(s: State, t: State, n: int)
    requires SameShape(s, t)
    requires forall m :: 1 <= m < |s.inodes| && m != n ==> NodeKept(s, t, m)
    ensures Nodes(t) - {n} == Nodes(s) - {n}
  {
    forall m | 1 <= m < |s.inodes| && m != n && s.inodeBits[m] ensures t.inodeBits[m] && Nodes(t)[m] == Nodes(s)[m] {
      assert NodeKept(s, t, m);
    }
    forall m | 1 <= m < |s.inodes| && m != n && t.inodeBits[m] ensures s.inodeBits[m] {
      assert NodeKept(s, t, m);
    }
  }

  lemma NodesSplit(s: State, t: State, n: nat)
    requires SameShape(s, t) && 1 <= n < |s.inodes| && t.inodeBits[n]
    requires Nodes(t) - {n} == Nodes(s) - {n}
    ensures Nodes(t) == Nodes(s)[n := FS.Node(KindOf(t.inodes[n]), Content(t, n))]
  {
    assert Nodes(t) == (Nodes(t) - {n})[n := Nodes(t)[n]];
    assert Nodes(s)[n := Nodes(t)[n]] == (Nodes(s) - {n})[n := Nodes(t)[n]];
  }

  // ---------- one record and the inode it names ----------

  /** Inode n, record k of the root directory, and the block bitmap to put in s. */
  datatype Change = Change(n: nat, node: Inode, taken: bool, k: nat, e: Entry, blockBits: seq<bool>)

  ghost predicate Applies(s: State, c: Change) {
    && RootOk(s) && 1 <= c.n < |s.inodes| && c.k < |RootDir(s)| && FitsInt(c.e.inum)
    && |c.blockBits| == |s.blockBits|
  }

  ghost function Put(s: State, c: Change): (t: State)
    requires Applies(s, c)
    ensures SameShape(s, t)
  {
    SetEntry(s.(inodes := s.inodes[c.n := c.node], inodeBits := s.inodeBits[c.n := c.taken], blockBits := c.blockBits),
             s.inodes[0].block, c.k, c.e)
  }

  lemma PutParts(s: State, c: Change)
    requires Applies(s, c)
    ensures var t := Put(s, c);
            && t.inodes == s.inodes[c.n := c.node] && t.inodeBits == s.inodeBits[c.n := c.taken]
            && t.blockBits == c.blockBits && t.handles == s.handles && t.handleBits == s.handleBits
  {
  }

  lemma PutDir(s: State, c: Change)
    requires Applies(s, c)
    ensures RootOk(Put(s, c)) && RootDir(Put(s, c)) == RootDir(s)[c.k := c.e]
  {
    WriteEntryReads(s.blocks[s.inodes[0].block], c.k, c.e);
  }

  lemma PutKeeps(s: State, c: Change, m: nat)
    requires TablesOk(s) && Applies(s, c) && 1 <= m < |s.inodes|
    requires m != c.n || (s.inodeBits[m] && c.taken && c.node == s.inodes[m].(links := c.node.links))
    ensures NodeKept(s, Put(s, c), m)
  {
    if s.inodeBits[m] && s.inodes[m].size > 0 {
      BlocksApart(s, 0, m);
    }
  }

  lemma PutNodes(s: State, c: Change)
    requires TablesOk(s) && Applies(s, c)
    ensures Nodes(Put(s, c)) - {c.n} == Nodes(s) - {c.n}
  {
    forall m | 1 <= m < |s.inodes| && m != c.n ensures NodeKept(s, Put(s, c), m) {
      PutKeeps(s, c, m);
    }
    NodesFrame(s, Put(s, c), c.n);
  }

  /** A change of one record, and of the inode that it names or named. */
  ghost predicate Renames(s: State, c: Change) {
    && Applies(s, c) && DirOk(RootDir(s)[c.k := c.e], |s.inodes|)
    && (RootDir(s)[c.k].inum == c.n || !Live(RootDir(s)[c.k]))
    && (c.e.inum == c.n || !Live(c.e))
    && Counted(c.node, c.taken, Count(RootDir(s)[c.k := c.e], c.n))
  }

  lemma PutNamesOk(s: State, c: Change)
    requires NamesOk(s) && Renames(s, c)
    ensures NamesOk(Put(s, c)) && RootDir(Put(s, c)) == RootDir(s)[c.k := c.e]
  {
    PutDir(s, c);
    NodesChange(s.inodes, s.inodeBits, RootDir(s), c.k, c.e, c.n, c.node, c.taken);
  }

  /** The invariants of the changed tables, part by part. */
  lemma PutOk(s: State, c: Change)
    requires TablesOk(s) && Renames(s, c) && c.node.size <= s.blockSize
    requires Backed(if c.taken && c.node.size > 0 then Owned(s.inodes, s.inodeBits)[c.n := c.node.block]
                    else Owned(s.inodes, s.inodeBits) - {c.n}, c.blockBits)
    ensures TablesOk(Put(s, c))
  {
    PutNamesOk(s, c);
    OwnedChange(s.inodes, s.inodeBits, c.n, c.node, c.taken);
  }

  /** A record under a good name for inode n. */
  function Record(name: CString, n: int): Entry {
    Entry(NameField(name), n)
  }

  lemma RecordReads(name: CString, n: int)
    requires 1 <= |name| < MAX_FILE_NAME
    ensures WellNamed(Record(name, n)) && NameOf(Record(name, n)) == name
  {
    NameFieldReads(name);
  }

  /** The first free record holds no inumber. */
  lemma FirstEmptyIsEmpty(dir: seq<Entry>)
    ensures var k := First(dir, IsEmptySlot, 0); k >= 0 ==> !Live(dir[k])
  {
  }

  // ---------- a new inode and its first name ----------

  ghost function BindChange(s: State, n: nat, node: Inode, name: CString): Change
    requires RootOk(s) && First(RootDir(s), IsEmptySlot, 0) >= 0
  {
    Change(n, node, true, First(RootDir(s), IsEmptySlot, 0), Record(name, n), s.blockBits)
  }

  ghost predicate CanBind(s: State, n: nat, node: Inode, name: CString) {
    && NamesOk(s) && 1 <= n < |s.inodes| && !s.inodeBits[n]
    && node.size == 0 && node.links == 1 && !node.kind.TDirectory?
    && First(RootDir(s), IsEmptySlot, 0) >= 0 && 1 <= |name| < MAX_FILE_NAME
  }

  lemma BindRenames(s: State, n: nat, node: Inode, name: CString)
    requires CanBind(s, n, node, name)
    ensures Renames(s, BindChange(s, n, node, name))
  {
    var dir, c := RootDir(s), BindChange(s, n, node, name);
    RecordReads(name, n);
    FirstEmptyIsEmpty(dir);
    AddKeepsOk(dir, |s.inodes|, c.k, c.e);
    assert Counted(s.inodes[n], s.inodeBits[n], Count(dir, n));
    CountOfChange(dir, c.k, c.e, n);
  }

  lemma BindOk(s: State, n: nat, node: Inode, name: CString)
    requires TablesOk(s) && CanBind(s, n, node, name)
    ensures TablesOk(Put(s, BindChange(s, n, node, name)))
  {
    var c := BindChange(s, n, node, name);
    BindRenames(s, n, node, name);
    assert Owned(s.inodes, s.inodeBits) - {n} == Owned(s.inodes, s.inodeBits);
    PutOk(s, c);
  }

  lemma BindAbs(s: State, n: nat, node: Inode, name: CString)
    requires TablesOk(s) && CanBind(s, n, node, name)
    requires Distinct(RootDir(s)) && name !in LiveNames(RootDir(s))
    ensures var t := Put(s, BindChange(s, n, node, name));
            TablesOk(t) && Distinct(RootDir(t)) && Abs(t) == FS.Bind(Abs(s), name, n, KindOf(node))
  {
    var c := BindChange(s, n, node, name);
    var t := Put(s, c);
    BindOk(s, n, node, name);
    RecordReads(name, n);
    PutDir(s, c);
    FirstEmptyIsEmpty(RootDir(s));
    AddBinds(RootDir(s), |s.inodes|, c.k, c.e);
    PutNodes(s, c);
    NodesSplit(s, t, n);
  }

  // ---------- one more name for an inode ----------

  ghost function LinkChange(s: State, n: nat, name: CString): Change
    requires RootOk(s) && First(RootDir(s), IsEmptySlot, 0) >= 0 && n < |s.inodes|
  {
    Change(n, s.inodes[n].(links := s.inodes[n].links + 1), true, First(RootDir(s), IsEmptySlot, 0), Record(name, n),
           s.blockBits)
  }

  ghost predicate CanLink(s: State, n: nat, name: CString) {
    && NamesOk(s) && 1 <= n < |s.inodes| && s.inodeBits[n] && !s.inodes[n].kind.TSoftLink?
    && First(RootDir(s), IsEmptySlot, 0) >= 0 && 1 <= |name| < MAX_FILE_NAME
  }

  lemma OwnedSame(s: State, n: nat)
    requires Shape(s) && n < |s.inodes| && s.inodeBits[n]
    ensures Owned(s.inodes, s.inodeBits) ==
            if s.inodes[n].size > 0 then Owned(s.inodes, s.inodeBits)[n := s.inodes[n].block]
            else Owned(s.inodes, s.inodeBits) - {n}
  {
  }

  lemma LinkRenames(s: State, n: nat, name: CString)
    requires CanLink(s, n, name)
    ensures Renames(s, LinkChange(s, n, name))
  {
    var dir, c := RootDir(s), LinkChange(s, n, name);
    RecordReads(name, n);
    FirstEmptyIsEmpty(dir);
    AddKeepsOk(dir, |s.inodes|, c.k, c.e);
    assert Counted(s.inodes[n], s.inodeBits[n], Count(dir, n));
    CountOfChange(dir, c.k, c.e, n);
  }

  lemma LinkOk(s: State, n: nat, name: CString)
    requires TablesOk(s) && CanLink(s, n, name)
    ensures TablesOk(Put(s, LinkChange(s, n, name)))
  {
    LinkRenames(s, n, name);
    OwnedSame(s, n);
    PutOk(s, LinkChange(s, n, name));
  }

  /** A file whose inode only changed its link count shows no change. */
  lemma PutSameNode(s: State, c: Change)
    requires TablesOk(s) && Applies(s, c) && s.inodeBits[c.n] && c.taken
    requires c.node == s.inodes[c.n].(links := c.node.links)
    ensures Nodes(Put(s, c)) == Nodes(s)
  {
    var t := Put(s, c);
    forall m | 1 <= m < |s.inodes| ensures NodeKept(s, t, m) {
      PutKeeps(s, c, m);
    }
    NodesFrame(s, t, -1);
    assert Nodes(t) - {-1} == Nodes(t) && Nodes(s) - {-1} == Nodes(s);
  }

  lemma LinkAbs(s: State, n: nat, name: CString)
    requires TablesOk(s) && CanLink(s, n, name)
    requires Distinct(RootDir(s)) && name !in LiveNames(RootDir(s))
    ensures var t := Put(s, LinkChange(s, n, name));
            && TablesOk(t) && Distinct(RootDir(t))
            && Abs(t) == Abs(s).(names := Abs(s).names[name := n])
  {
    var c := LinkChange(s, n, name);
    LinkOk(s, n, name);
    RecordReads(name, n);
    PutDir(s, c);
    FirstEmptyIsEmpty(RootDir(s));
    AddBinds(RootDir(s), |s.inodes|, c.k, c.e);
    PutSameNode(s, c);
  }

  // ---------- one name less ----------

  const BLANK := Entry(Zeros(MAX_FILE_NAME), NO_INUM)

  /** Record k goes. With the last name goes the inode, and its block if it has one. */
  ghost function RemoveChange(s: State, n: nat, k: nat, node: Inode): Change
    requires Shape(s) && n < |s.inodes|
  {
    var last, b := s.inodes[n].links == 1, s.inodes[n].block;
    Change(n, node, !last, k, BLANK,
           if last && s.inodes[n].size > 0 && ValidBlock(s, b) then s.blockBits[b := false] else s.blockBits)
  }

  ghost predicate CanRemove(s: State, n: nat, k: nat, node: Inode) {
    && NamesOk(s) && 1 <= n < |s.inodes| && k < |RootDir(s)| && RootDir(s)[k].inum == n
    && node.size <= s.blockSize
    && (s.inodes[n].links != 1 ==> node == s.inodes[n].(links := s.inodes[n].links - 1))
  }

  lemma LiveIsCounted(s: State, k: nat)
    requires NamesOk(s) && k < |RootDir(s)| && Live(RootDir(s)[k])
    ensures var n := RootDir(s)[k].inum;
            1 <= n < |s.inodes| && s.inodeBits[n] && Counted(s.inodes[n], true, Count(RootDir(s), n))
  {
  }

  lemma OwnerHasBlock(s: State, n: nat)
    requires Shape(s) && Apart(Owned(s.inodes, s.inodeBits), s.blockBits)
    requires n < |s.inodes| && s.inodeBits[n] && s.inodes[n].size > 0
    ensures n in Owned(s.inodes, s.inodeBits) && Owned(s.inodes, s.inodeBits)[n] == s.inodes[n].block
    ensures ValidBlock(s, s.inodes[n].block) && s.blockBits[s.inodes[n].block]
  {
  }

  lemma RemoveRenames(s: State, n: nat, k: nat, node: Inode)
    requires CanRemove(s, n, k, node)
    ensures Renames(s, RemoveChange(s, n, k, node))
  {
    LiveIsCounted(s, k);
    ClearKeepsOk(RootDir(s), |s.inodes|, k, BLANK);
    CountOfChange(RootDir(s), k, BLANK, n);
  }

  lemma RemoveOk(s: State, n: nat, k: nat, node: Inode)
    requires TablesOk(s) && CanRemove(s, n, k, node)
    ensures TablesOk(Put(s, RemoveChange(s, n, k, node)))
  {
    RemoveRenames(s, n, k, node);
    LiveIsCounted(s, k);
    OwnedSame(s, n);
    if s.inodes[n].size > 0 {
      OwnerHasBlock(s, n);
      BlockFreed(Owned(s.inodes, s.inodeBits), s.blockBits, n);
    }
    PutOk(s, RemoveChange(s, n, k, node));
  }

  lemma RemoveNodes(s: State, n: nat, k: nat, node: Inode)
    requires TablesOk(s) && CanRemove(s, n, k, node)
    ensures Nodes(Put(s, RemoveChange(s, n, k, node))) == if s.inodes[n].links == 1 then Nodes(s) - {n} else Nodes(s)
  {
    var c := RemoveChange(s, n, k, node);
    LiveIsCounted(s, k);
    if s.inodes[n].links == 1 {
      PutNodes(s, c);
      assert n !in Nodes(Put(s, c));
      assert Nodes(Put(s, c)) - {n} == Nodes(Put(s, c));
    } else {
      PutSameNode(s, c);
    }
  }

  lemma RemoveAbs(s: State, n: nat, k: nat, node: Inode)
    requires TablesOk(s) && CanRemove(s, n, k, node) && Distinct(RootDir(s))
    ensures var t := Put(s, RemoveChange(s, n, k, node));
            && TablesOk(t) && Distinct(RootDir(t))
            && Abs(t) == Abs(s).(names := Abs(s).names - {NameOf(RootDir(s)[k])},
                                 nodes := if s.inodes[n].links == 1 then Nodes(s) - {n} else Nodes(s))
  {
    RemoveOk(s, n, k, node);
    RemoveNodes(s, n, k, node);
    PutDir(s, RemoveChange(s, n, k, node));
    ClearUnbinds(RootDir(s), |s.inodes|, k, BLANK);
  }

  /** With distinct names, an inode with one link is a file with one name. */
  lemma LastNameIsOneLink(s: State, k: nat)
    requires NamesOk(s) && Distinct(RootDir(s)) && k < |RootDir(s)| && Live(RootDir(s)[k])
    ensures NameOf(RootDir(s)[k]) in Names(RootDir(s))
    ensures s.inodes[RootDir(s)[k].inum].links == 1 <==> FS.LastName(Abs(s), NameOf(RootDir(s)[k]))
  {
    LiveIsCounted(s, k);
    NamesBinds(RootDir(s), |s.inodes|);
    OneRecordIsLastName(RootDir(s), Names(RootDir(s)), k);
  }

  // ---------- an inode and its block ----------

  /** Inode n, the block bitmap and the blocks, with the directory left alone. */
  ghost predicate Rewrites(s: State, t: State, n: nat) {
    && RootOk(s) && SameShape(s, t) && 1 <= n < |s.inodes|
    && t == s.(inodes := s.inodes[n := t.inodes[n]], blocks := t.blocks, blockBits := t.blockBits,
               handles := t.handles, handleBits := t.handleBits)
    && t.blocks[s.inodes[0].block] == s.blocks[s.inodes[0].block]
    && (s.inodeBits[n] ==> t.inodes[n].kind == s.inodes[n].kind && t.inodes[n].links == s.inodes[n].links)
  }

  lemma RewriteOk(s: State, t: State, n: nat)
    requires TablesOk(s) && Rewrites(s, t, n) && t.inodes[n].size <= s.blockSize
    requires Backed(if s.inodeBits[n] && t.inodes[n].size > 0 then Owned(s.inodes, s.inodeBits)[n := t.inodes[n].block]
                    else Owned(s.inodes, s.inodeBits) - {n}, t.blockBits)
    ensures TablesOk(t) && RootDir(t) == RootDir(s)
  {
    NodesKept(s.inodes, s.inodeBits, RootDir(s), n, t.inodes[n]);
    OwnedChange(s.inodes, s.inodeBits, n, t.inodes[n], s.inodeBits[n]);
    assert s.inodeBits[n := s.inodeBits[n]] == s.inodeBits;
  }

  lemma RewriteNodes(s: State, t: State, n: nat)
    requires Rewrites(s, t, n)
    requires forall m :: 1 <= m < |s.inodes| && m != n ==> NodeKept(s, t, m)
    ensures s.inodeBits[n] ==> Nodes(t) == Nodes(s)[n := FS.Node(KindOf(t.inodes[n]), Content(t, n))]
    ensures !s.inodeBits[n] ==> Nodes(t) == Nodes(s)
  {
    NodesFrame(s, t, n);
    if s.inodeBits[n] {
      NodesSplit(s, t, n);
    } else {
      assert Nodes(t) == Nodes(t) - {n} && Nodes(s) == Nodes(s) - {n};
    }
  }

  lemma RewriteAbs(s: State, t: State, n: nat)
    requires Rewrites(s, t, n) && RootOk(t) && RootDir(t) == RootDir(s)
    ensures Abs(t) == Abs(s).(nodes := Nodes(t), open := OpenHandles(t.handles, t.handleBits))
  {
  }
}
