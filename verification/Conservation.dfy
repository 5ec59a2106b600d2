/** Nothing is leaked and nothing is freed twice: how many inodes, blocks and links there are. */
module Conservation {
  import opened Base
  import opened Layout
  import opened Tables
  import opened Directory
  import opened Invariants
  import opened Simulation
  import opened Effects
  import opened Operations
  import opened Runs
  import opened Always
  import FS = FileSystem

  // ---------- counting records ----------

  function HoldsAt(dir: seq<Entry>, n: int): int -> bool {
    (i: int) => 0 <= i < |dir| && dir[i].inum == n
  }

  /** Records whose inumber lies in 1..limit. */
  function BelowAt(dir: seq<Entry>, limit: int): int -> bool {
    (i: int) => 0 <= i < |dir| && 1 <= dir[i].inum < limit
  }

  lemma {:induction false} WhereAdds(n: nat, p: int -> bool, q: int -> bool, r: int -> bool)
    requires forall i :: 0 <= i < n ==> (r(i) <==> p(i) || q(i)) && !(p(i) && q(i))
    ensures |Where(n, r)| == |Where(n, p)| + |Where(n, q)|
  {
    assert Where(n, r) == Where(n, p) + Where(n, q);
    assert Where(n, p) !! Where(n, q);
  }

  lemma {:induction false} CountPrefix(dir: seq<Entry>, n: int, k: nat)
    requires k <= |dir|
    ensures multiset(Inums(dir)[..k])[n] == |Where(k, HoldsAt(dir, n))|
  {
    if k == 0 {
    } else {
      CountPrefix(dir, n, k - 1);
      assert Inums(dir)[..k] == Inums(dir)[..k - 1] + [dir[k - 1].inum];
      var p := HoldsAt(dir, n);
      assert Where(k, p) == Where(k - 1, p) + if p(k - 1) then {k - 1} else {};
    }
  }

  lemma CountIsWhere(dir: seq<Entry>, n: int)
    ensures Count(dir, n) == |Where(|dir|, HoldsAt(dir, n))|
  {
    CountPrefix(dir, n, |dir|);
    assert Inums(dir)[..|dir|] == Inums(dir);
  }

  /** The link counts of inodes 1 to n - 1 that are TAKEN, added up. */
  ghost function LinkSum(inodes: seq<Inode>, bits: seq<bool>, n: nat): int
    requires |inodes| == |bits| && n <= |inodes|
  {
    if n <= 1 then 0
    else LinkSum(inodes, bits, n - 1) + if bits[n - 1] then inodes[n - 1].links else 0
  }

  lemma CountedLinks(inodes: seq<Inode>, bits: seq<bool>, dir: seq<Entry>, n: nat)
    requires |inodes| == |bits| && 1 <= n < |inodes| && NodesOk(inodes, bits, dir)
    ensures (if bits[n] then inodes[n].links else 0) == Count(dir, n)
  {
  }

  lemma {:induction false} LinkSumCounts(inodes: seq<Inode>, bits: seq<bool>, dir: seq<Entry>, n: nat)
    requires |inodes| == |bits| && n <= |inodes| && NodesOk(inodes, bits, dir)
    ensures LinkSum(inodes, bits, n) == |Where(|dir|, BelowAt(dir, n))|
  {
    if n <= 1 {
      assert Where(|dir|, BelowAt(dir, n)) == {};
    } else {
      LinkSumCounts(inodes, bits, dir, n - 1);
      CountIsWhere(dir, n - 1);
      CountedLinks(inodes, bits, dir, n - 1);
      WhereAdds(|dir|, BelowAt(dir, n - 1), HoldsAt(dir, n - 1), BelowAt(dir, n));
    }
  }

  /** The link counts of all files add up to the number of live records, duplicate names included. */
  lemma LinksAddUp(s: State)
    requires NamesOk(s)
    ensures LinkSum(s.inodes, s.inodeBits, |s.inodes|) == |Where(|RootDir(s)|, LiveAt(RootDir(s)))|
  {
    var dir := RootDir(s);
    LinkSumCounts(s.inodes, s.inodeBits, dir, |s.inodes|);
    assert Where(|dir|, BelowAt(dir, |s.inodes|)) == Where(|dir|, LiveAt(dir));
  }

  // ---------- what is TAKEN ----------

  /** A link count is the number of live records, and an inode is TAKEN exactly when it is
      the root or some live record names it. */
  lemma LinkCounts(s: State, n: int)
    requires NamesOk(s) && 0 <= n < |s.inodes|
    ensures s.inodeBits[n] <==> n == 0 || exists i :: 0 <= i < |RootDir(s)| && RootDir(s)[i].inum == n
    ensures n > 0 && s.inodeBits[n] ==> s.inodes[n].links == |Where(|RootDir(s)|, HoldsAt(RootDir(s), n))| >= 1
  {
    if n > 0 {
      CountPositive(RootDir(s), n);
      CountIsWhere(RootDir(s), n);
      assert Counted(s.inodes[n], s.inodeBits[n], Count(RootDir(s), n));
    }
  }

  /** One inode is TAKEN for the root and one for each inumber in a live record. RoomForBlock
      says the same of blocks: one for the directory and one for each non-empty file. */
  lemma TakenInodes(s: State)
    requires NamesOk(s)
    ensures Where(|s.inodes|, TakenBlock(s.inodeBits)) ==
            {0} + set i | 0 <= i < |RootDir(s)| && Live(RootDir(s)[i]) :: RootDir(s)[i].inum
  {
  }

  /** In every state that any run reaches, safe or not, duplicate names or not: an inode is TAKEN
      exactly when it is the root or a live record names it, its link count is the number of those
      records, and the link counts add up to the number of live records. */
  lemma LinksInEveryState(t: State)
    requires Reachable(t)
    ensures NamesOk(t)
    ensures forall n :: 0 <= n < |t.inodes| ==>
              (t.inodeBits[n] <==> n == 0 || exists i :: 0 <= i < |RootDir(t)| && RootDir(t)[i].inum == n)
    ensures forall n :: 1 <= n < |t.inodes| && t.inodeBits[n] ==>
              t.inodes[n].links == |Where(|RootDir(t)|, HoldsAt(RootDir(t), n))| >= 1
    ensures LinkSum(t.inodes, t.inodeBits, |t.inodes|) == |Where(|RootDir(t)|, LiveAt(RootDir(t)))|
  {
    ReachableIsAlwaysOk(t);
    LinksAddUp(t);
    forall n | 0 <= n < |t.inodes|
      ensures t.inodeBits[n] <==> n == 0 || exists i :: 0 <= i < |RootDir(t)| && RootDir(t)[i].inum == n
      ensures n > 0 && t.inodeBits[n] ==> t.inodes[n].links == |Where(|RootDir(t)|, HoldsAt(RootDir(t), n))| >= 1
    {
      LinkCounts(t, n);
    }
  }

  /** Inode n has bytes, in block b. */
  predicate Has(s: State, n: int, b: int)
    requires Shape(s)
  {
    0 <= n < |s.inodes| && s.inodes[n].size > 0 && s.inodes[n].block == b
  }

  predicate Owns(s: State, n: int, b: int)
    requires Shape(s)
  {
    Has(s, n, b) && s.inodeBits[n]
  }

  /** No run, safe or not, gives two TAKEN inodes the same block or frees a block that is in use; so no
      file ever shares the root's block, which holds the directory. An inode that a handle is on can have
      the block of another, but only when it is FREE, and never the root's. */
  lemma BlocksNeverShared(t: State, b: nat)
    requires Reachable(t) && b < |t.blocks|
    ensures forall n :: Owns(t, n, b) ==> t.blockBits[b]
    ensures forall n, m :: Owns(t, n, b) && Owns(t, m, b) ==> n == m
    ensures b == t.inodes[0].block ==> Owns(t, 0, b)
    ensures forall h, m :: ValidHandle(t, h) && Has(t, t.handles[h].inum, b) && Owns(t, m, b) ==>
              m == t.handles[h].inum || (m != 0 && !t.inodeBits[t.handles[h].inum])
  {
    ReachableIsAlwaysOk(t);
    var owned := Owned(t.inodes, t.inodeBits);
    forall n ensures Owns(t, n, b) <==> n in owned && owned[n] == b {}
    forall h, m | ValidHandle(t, h) && Has(t, t.handles[h].inum, b) && Owns(t, m, b)
      ensures m == t.handles[h].inum || (m != 0 && !t.inodeBits[t.handles[h].inum])
    {
      HandleShares(t, h, m, b);
    }
  }

  lemma HandleShares(t: State, h: int, m: int, b: int)
    requires AlwaysOk(t) && ValidHandle(t, h) && Has(t, t.handles[h].inum, b) && Owns(t, m, b)
    ensures m == t.handles[h].inum || (m != 0 && !t.inodeBits[t.handles[h].inum])
  {
    assert HandleBounded(t, t.handles[h]);
    if m != t.handles[h].inum && t.inodeBits[t.handles[h].inum] {
      BlocksApart(t, m, t.handles[h].inum);
    }
  }

  /** The call writes the first byte of an inode that is FREE, through a handle left behind. */
  ghost predicate WritesUnowned(s: State, op: FS.Op)
    requires RootOk(s)
  {
    && op.WriteOp? && ValidHandle(s, op.handle) && 1 <= s.handles[op.handle].inum < |s.inodes|
    && !s.inodeBits[s.handles[op.handle].inum] && s.inodes[s.handles[op.handle].inum].size == 0
    && op.buffer != [] && s.handles[op.handle].offset < s.blockSize && First(s.blockBits, IsFree, 0) != -1
  }

  /** A TAKEN block that no inode has. */
  lemma OrphanBlock(owned: map<int, int>, blockBits: seq<bool>, b: nat)
    requires Apart(owned, blockBits) && b < |blockBits| && !blockBits[b]
    ensures !Backed(owned, blockBits[b := true])
  {
    assert blockBits[b := true][b];
  }

  lemma WriteOwners(s: State, t: State, n: nat, b: int)
    requires SameShape(s, t) && n < |s.inodes| && Backed(Owned(s.inodes, s.inodeBits), s.blockBits)
    requires t.inodes == s.inodes[n := t.inodes[n]] && t.inodeBits == s.inodeBits
    requires t.inodes[n].size > 0 && t.inodes[n].block == (if s.inodes[n].size == 0 then b else s.inodes[n].block)
    requires s.inodes[n].size == 0 ==> 0 <= b < |s.blockBits| && !s.blockBits[b]
    requires t.blockBits == (if s.inodes[n].size == 0 then s.blockBits[b := true] else s.blockBits)
    ensures Backed(Owned(t.inodes, t.inodeBits), t.blockBits) <==> s.inodeBits[n] || s.inodes[n].size > 0
  {
    var owned := Owned(s.inodes, s.inodeBits);
    assert s.inodeBits[n := s.inodeBits[n]] == s.inodeBits;
    OwnedChange(s.inodes, s.inodeBits, n, t.inodes[n], s.inodeBits[n]);
    if s.inodeBits[n] {
      OwnedSame(s, n);
      if s.inodes[n].size == 0 {
        BlockTaken(owned, s.blockBits, n, b);
      }
    } else {
      assert owned - {n} == owned;
      if s.inodes[n].size == 0 {
        OrphanBlock(owned, s.blockBits, b);
      }
    }
  }

  lemma WriteLeaks(s: State, h: int, buffer: seq<Byte>)
    requires TablesOk(s) && AlwaysOk(s) && Write(s, h, buffer).Ok? && AlwaysOk(Write(s, h, buffer).value.0)
    ensures TablesOk(Write(s, h, buffer).value.0) <==> !WritesUnowned(s, FS.WriteOp(h, buffer))
  {
    if ValidHandle(s, h) {
      assert HandleBounded(s, s.handles[h]);
      var t, n, b := Write(s, h, buffer).value.0, s.handles[h].inum, First(s.blockBits, IsFree, 0);
      WriteTakes(s, h, buffer);
      if t != s {
        assert b != -1 ==> IsFree(s.blockBits[b]);
        WriteOwners(s, t, n, b);
      }
    }
  }

  lemma OpenLeaksNothing(s: State, path: CString, mode: Mode)
    requires TablesOk(s)
    ensures Open(s, path, mode).Ok? ==> TablesOk(Open(s, path, mode).value.0)
  {
    if FS.Bound(Abs(s), path) {
      BoundFacts(s, path);
      OpenBoundAbs(s, path, mode);
    } else {
      OpenUnboundIs(s, path, mode);
      if ValidPath(path) && mode.creat {
        CreateFileOk(s, path);
      }
    }
  }

  /** A block stays TAKEN without an owner exactly after a write to a FREE inode: truncating under a
      handle, or deleting an open file, does not leak a block by itself. */
  lemma LeaksExactly(s: State, op: FS.Op)
    requires TablesOk(s) && HandlesBounded(s) && FS.WellFormed(op) && Step(s, op).Ok?
    ensures AlwaysOk(s) && AlwaysOk(Step(s, op).value.0)
    ensures TablesOk(Step(s, op).value.0) <==> !WritesUnowned(s, op)
  {
    CallAlways(s, op);
    match op
    case OpenOp(path, mode) => OpenLeaksNothing(s, path, mode);
    case CloseOp(h) => CloseAbs(s, h);
    case WriteOp(h, buffer) => WriteLeaks(s, h, buffer);
    case ReadOp(h, len) =>
    case LinkOp(target, link) => LinkKeepsOk(s, target, link);
    case SymLinkOp(target, link) => SymLinkOk(s, target, link);
    case UnlinkOp(path) => UnlinkAborts(s, path);
  }

  /** After any safe run a block is TAKEN exactly when it has an owner, and the owner is the only
      one; so no file ever shares the root's block, which holds the directory. */
  lemma BlockOwnership(memory: State, ops: seq<FS.Call>, b: nat)
    requires Shape(memory) && Init(memory).1 == 0 && (InitEstablishes(memory); SafeRun(Init(memory).0, ops))
    requires Run(Init(memory).0, ops).Ok? && b < |Run(Init(memory).0, ops).value.0.blocks|
    ensures var t := Run(Init(memory).0, ops).value.0;
            && Shape(t)
            && (t.blockBits[b] <==> exists n :: Owns(t, n, b))
            && (forall n, m :: Owns(t, n, b) && Owns(t, m, b) ==> n == m)
            && (b == t.inodes[0].block ==> Owns(t, 0, b))
  {
    InitEstablishes(memory);
    SafeRuns(Init(memory).0, ops);
    var t := Run(Init(memory).0, ops).value.0;
    var owned := Owned(t.inodes, t.inodeBits);
    forall n ensures Owns(t, n, b) <==> n in owned && owned[n] == b {}
  }

  /** A safe run that ends with an empty directory is back to the root's inode and block. */
  lemma NothingLeaks(memory: State, ops: seq<FS.Call>)
    requires Shape(memory) && Init(memory).1 == 0 && (InitEstablishes(memory); SafeRun(Init(memory).0, ops))
    requires Run(Init(memory).0, ops).Ok?
    ensures var t := Run(Init(memory).0, ops).value.0;
            && Inv(t)
            && (LiveNames(RootDir(t)) == {} ==>
                 && (forall h :: 0 <= h < |t.handles| ==> !t.handleBits[h])
                 && (forall n :: 0 <= n < |t.inodes| ==> (t.inodeBits[n] <==> n == 0))
                 && (forall b :: 0 <= b < |t.blocks| ==> (t.blockBits[b] <==> b == t.inodes[0].block)))
  {
    InitEstablishes(memory);
    SafeRuns(Init(memory).0, ops);
    var t := Run(Init(memory).0, ops).value.0;
    if LiveNames(RootDir(t)) == {} {
      EmptyIsClean(t);
    }
  }

  lemma EmptyIsClean(t: State)
    requires TablesOk(t) && LiveNames(RootDir(t)) == {}
    ensures forall n :: 0 <= n < |t.inodes| ==> (t.inodeBits[n] <==> n == 0)
    ensures forall b :: 0 <= b < |t.blocks| ==> (t.blockBits[b] <==> b == t.inodes[0].block)
  {
    var dir := RootDir(t);
    forall i | 0 <= i < |dir| && Live(dir[i]) ensures NameOf(dir[i]) in LiveNames(dir) {}
    assert forall i :: 0 <= i < |dir| ==> !Live(dir[i]);
    forall n | 0 <= n < |t.inodes| ensures t.inodeBits[n] <==> n == 0 {
      LinkCounts(t, n);
    }
    var owned := Owned(t.inodes, t.inodeBits);
    assert 0 in owned;
    forall b | 0 <= b < |t.blocks| ensures t.blockBits[b] <==> b == t.inodes[0].block {
      if t.blockBits[b] {
        var n :| n in owned && owned[n] == b;
      }
    }
  }
}
