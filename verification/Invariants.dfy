/** What the tables keep agreeing on, and the file system they stand for. */
module Invariants {
  import opened Base
  import opened Layout
  import opened Tables
  import opened Directory
  import FS = FileSystem

  ghost predicate RootOk(s: State) {
    && Shape(s) && |s.inodes| > 0 && s.inodeBits[0]
    && s.inodes[0].kind.TDirectory? && s.inodes[0].size == s.blockSize
    && ValidBlock(s, s.inodes[0].block)
  }

  ghost function RootDir(s: State): (d: seq<Entry>)
    requires RootOk(s)
    ensures |d| == s.blockSize / ENTRY_SIZE
  {
    Dir(s.blocks[s.inodes[0].block])
  }

  /** An inode is TAKEN exactly when some record names it, and then its link count is the
      number of records that do. A soft link has one. */
  ghost predicate Counted(node: Inode, taken: bool, count: nat) {
    && (taken <==> count > 0)
    && (taken ==> node.links == count && !node.kind.TDirectory? && (node.kind.TSoftLink? ==> count == 1))
  }

  ghost predicate NodesOk(inodes: seq<Inode>, bits: seq<bool>, dir: seq<Entry>)
    requires |inodes| == |bits|
  {
    forall n :: 1 <= n < |inodes| ==> Counted(inodes[n], bits[n], Count(dir, n))
  }

  /** The TAKEN inodes that have bytes, with their blocks. */
  ghost function Owned(inodes: seq<Inode>, bits: seq<bool>): map<int, int>
    requires |inodes| == |bits|
  {
    map n | 0 <= n < |inodes| && bits[n] && inodes[n].size > 0 :: inodes[n].block
  }

  /** Every inode with bytes has a TAKEN block, and no two share one. */
  ghost predicate Apart(owned: map<int, int>, blockBits: seq<bool>) {
    && (forall n :: n in owned ==> 0 <= owned[n] < |blockBits| && blockBits[owned[n]])
    && (forall n, m :: n in owned && m in owned && n != m ==> owned[n] != owned[m])
  }

  /** Besides, no block is TAKEN without an inode that has it. */
  ghost predicate Backed(owned: map<int, int>, blockBits: seq<bool>) {
    && Apart(owned, blockBits)
    && (forall b :: 0 <= b < |blockBits| && blockBits[b] ==> exists n :: n in owned && owned[n] == b)
  }

  ghost predicate SizesOk(inodes: seq<Inode>, bits: seq<bool>, blockSize: int)
    requires |inodes| == |bits|
  {
    forall n :: 0 <= n < |inodes| && bits[n] ==> inodes[n].size <= blockSize
  }

  ghost predicate HandlesOk(s: State)
    requires Shape(s)
  {
    forall h :: 0 <= h < |s.handles| && s.handleBits[h] ==>
      && 1 <= s.handles[h].inum < |s.inodes| && s.inodeBits[s.handles[h].inum]
      && s.handles[h].offset <= s.inodes[s.handles[h].inum].size
  }

  /** The directory is well formed, and bitmap and link counts agree with it. */
  ghost predicate NamesOk(s: State) {
    && RootOk(s)
    && DirOk(RootDir(s), |s.inodes|)
    && NodesOk(s.inodes, s.inodeBits, RootDir(s))
  }

  ghost predicate TablesOk(s: State) {
    && NamesOk(s)
    && SizesOk(s.inodes, s.inodeBits, s.blockSize)
    && Backed(Owned(s.inodes, s.inodeBits), s.blockBits)
  }

  /** TablesOk, except that a TAKEN block may have no owner. */
  ghost predicate Sound(s: State) {
    && NamesOk(s)
    && SizesOk(s.inodes, s.inodeBits, s.blockSize)
    && Apart(Owned(s.inodes, s.inodeBits), s.blockBits)
  }

  ghost predicate Inv(s: State) {
    TablesOk(s) && HandlesOk(s)
  }

  // ---------- what holds even after handles were left behind ----------

  /** Inode n fits its block, which is not the directory's. */
  ghost predicate BytesOk(s: State, n: int)
    requires RootOk(s) && 0 <= n < |s.inodes|
  {
    && s.inodes[n].size <= s.blockSize
    && (s.inodes[n].size > 0 ==> ValidBlock(s, s.inodes[n].block) && s.inodes[n].block != s.inodes[0].block)
  }

  /** A handle refers to some inode, TAKEN or not, at any offset. */
  ghost predicate HandleBounded(s: State, h: Handle)
    requires RootOk(s)
  {
    1 <= h.inum < |s.inodes| && BytesOk(s, h.inum)
  }

  ghost predicate HandlesBounded(s: State)
    requires RootOk(s)
  {
    forall h :: ValidHandle(s, h) ==> HandleBounded(s, s.handles[h])
  }

  /** What no call can break, although files may be truncated or deleted under their handles. */
  ghost predicate AlwaysOk(s: State) {
    Sound(s) && HandlesBounded(s)
  }

  // ---------- the file system the tables stand for ----------

  function KindOf(node: Inode): FS.Kind {
    if node.kind.TSoftLink? then FS.SoftLink(CStr(node.target)) else FS.File
  }

  function Content(s: State, n: int): (r: seq<Byte>)
    requires Shape(s) && 0 <= n < |s.inodes|
    ensures |r| <= s.blockSize
  {
    var node := s.inodes[n];
    if 0 < node.size <= s.blockSize && ValidBlock(s, node.block) then s.blocks[node.block][..node.size] else []
  }

  function Nodes(s: State): map<int, FS.Node>
    requires Shape(s)
  {
    map n | 1 <= n < |s.inodes| && s.inodeBits[n] :: FS.Node(KindOf(s.inodes[n]), Content(s, n))
  }

  function OpenHandles(handles: seq<Handle>, bits: seq<bool>): map<int, Handle>
    requires |handles| == |bits|
  {
    map h | 0 <= h < |handles| && bits[h] :: handles[h]
  }

  function LimitsOf(s: State): FS.Limits {
    FS.Limits(|s.inodes|, s.blockSize / ENTRY_SIZE, |s.blocks|, |s.handles|, s.blockSize)
  }

  ghost function Abs(s: State): FS.Fs
    requires RootOk(s)
  {
    FS.Fs(Names(RootDir(s)), Nodes(s), OpenHandles(s.handles, s.handleBits), LimitsOf(s))
  }

  lemma ContentSize(s: State, n: int)
    requires Sound(s) && 0 <= n < |s.inodes| && s.inodeBits[n]
    ensures |Content(s, n)| == s.inodes[n].size
  {
    assert s.inodes[n].size > 0 ==> n in Owned(s.inodes, s.inodeBits);
  }

  lemma NamedIsTaken(s: State, name: CString)
    requires NamesOk(s) && name in LiveNames(RootDir(s))
    ensures Names(RootDir(s))[name] in Nodes(s)
  {
  }

  lemma NodeFacts(s: State)
    requires Sound(s)
    ensures forall n :: n in Nodes(s) <==> 1 <= n < |s.inodes| && s.inodeBits[n]
    ensures forall n :: n in Nodes(s) ==> |Nodes(s)[n].content| == s.inodes[n].size <= s.blockSize
  {
    forall n | n in Nodes(s) ensures |Nodes(s)[n].content| == s.inodes[n].size {
      ContentSize(s, n);
    }
  }

  lemma HandleFacts(s: State, nodes: map<int, FS.Node>, open: map<int, Handle>)
    requires Shape(s) && open == OpenHandles(s.handles, s.handleBits)
    requires forall n :: n in nodes <==> 1 <= n < |s.inodes| && s.inodeBits[n]
    requires forall n :: n in nodes ==> |nodes[n].content| == s.inodes[n].size
    ensures HandlesOk(s) <==>
            forall h :: h in open ==> open[h].inum in nodes && open[h].offset <= |nodes[open[h].inum].content|
  {
    forall h | 0 <= h < |s.handles| && s.handleBits[h] ensures h in open && open[h] == s.handles[h] {}
  }

  /** The handle invariant is the one a client can state about the file system it sees. */
  lemma InvIsCoherent(s: State)
    requires TablesOk(s)
    ensures HandlesOk(s) <==> FS.Coherent(Abs(s))
  {
    NodeFacts(s);
    HandleFacts(s, Nodes(s), OpenHandles(s.handles, s.handleBits));
    forall name | name in LiveNames(RootDir(s)) ensures Names(RootDir(s))[name] in Nodes(s) {
      NamedIsTaken(s, name);
    }
  }
}
