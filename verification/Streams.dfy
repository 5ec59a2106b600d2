/** What is written through a handle is what is read back. */
module Streams {
  import opened Base
  import opened Tables
  import opened Invariants
  import opened Operations
  import opened Simulation
  import opened Runs
  import opened Always
  import opened Guarantees
  import FS = FileSystem

  function WriteCalls(h: int, buffers: seq<seq<Byte>>): seq<FS.Call> {
    if buffers == [] then [] else [FS.WriteOp(h, buffers[0])] + WriteCalls(h, buffers[1..])
  }

  function ReadCalls(h: int, lens: seq<SizeT>): seq<FS.Call> {
    if lens == [] then [] else [FS.ReadOp(h, lens[0])] + ReadCalls(h, lens[1..])
  }

  function Join(parts: seq<seq<Byte>>): seq<Byte> {
    if parts == [] then [] else parts[0] + Join(parts[1..])
  }

  function Sum(lens: seq<SizeT>): nat {
    if lens == [] then 0 else lens[0] + Sum(lens[1..])
  }

  /** Each write takes as much as still fits. */
  function WriteReplies(room: nat, buffers: seq<seq<Byte>>): seq<FS.Reply>
    decreases |buffers|
  {
    if buffers == [] then []
    else
      var count := Min(|buffers[0]|, room);
      [FS.Reply(count, [])] + WriteReplies(room - count, buffers[1..])
  }

  /** Each read returns as much as there is left. */
  function ReadReplies(rest: seq<Byte>, lens: seq<SizeT>): seq<FS.Reply>
    decreases |lens|
  {
    if lens == [] then []
    else
      var count := Min(lens[0], |rest|);
      [FS.Reply(count, rest[..count])] + ReadReplies(rest[count..], lens[1..])
  }

  function Data(replies: seq<FS.Reply>): seq<Byte> {
    if replies == [] then [] else replies[0].data + Data(replies[1..])
  }

  lemma {:induction false} ReadRepliesJoin(rest: seq<Byte>, lens: seq<SizeT>)
    ensures Data(ReadReplies(rest, lens)) == rest[..Min(Sum(lens), |rest|)]
    decreases |lens|
  {
    if lens == [] {
    } else {
      var count := Min(lens[0], |rest|);
      ReadRepliesJoin(rest[count..], lens[1..]);
      var replies := ReadReplies(rest, lens);
      assert replies[1..] == ReadReplies(rest[count..], lens[1..]);
      assert rest[..Min(Sum(lens), |rest|)] == rest[..count] + rest[count..][..Min(Sum(lens[1..]), |rest| - count)];
    }
  }

  // ---------- writing ----------

  /** The handle's file has a block, or one can be had. */
  predicate HasBlock(s: State, h: int)
    requires Shape(s) && 0 <= h < |s.handles| && 0 <= s.handles[h].inum < |s.inodes|
  {
    s.inodes[s.handles[h].inum].size > 0 || First(s.blockBits, IsFree, 0) != -1
  }

  /** Handle h is in order, whatever became of the others, and its file has a block or can get one. */
  ghost predicate CanWrite(s: State, h: int) {
    AlwaysOk(s) && HandleFits(s, h) && HasBlock(s, h)
  }

  function Room(s: State, h: int): int
    requires Shape(s) && 0 <= h < |s.handles|
  {
    s.blockSize - s.handles[h].offset
  }

  /** The client's view of a handle in order. */
  ghost predicate Viewed(s: State, h: int)
    requires RootOk(s)
  {
    && h in Abs(s).open && FS.HandleOk(Abs(s), h) && ValidHandle(s, h) && Abs(s).open[h] == s.handles[h]
    && Abs(s).limits.blockSize == s.blockSize
  }

  lemma FitsIsViewed(s: State, h: int)
    requires AlwaysOk(s)
    ensures HandleFits(s, h) <==> Viewed(s, h)
    ensures HandleFits(s, h) ==> 0 <= Room(s, h)
  {
    NodeFacts(s);
    if HandleFits(s, h) {
      HandleShows(s, h);
    }
  }

  lemma NothingWrote(fs: FS.Fs, h: int)
    requires h in fs.open && FS.HandleOk(fs, h)
    ensures FS.Wrote(fs, h, []) == fs
  {
    var n, at := fs.open[h].inum, fs.open[h].offset;
    assert FS.Overwrite(fs.nodes[n].content, at, []) == fs.nodes[n].content;
    assert fs.nodes[n := fs.nodes[n].(content := fs.nodes[n].content)] == fs.nodes;
    assert fs.open[h := Handle(n, at)] == fs.open;
  }

  lemma WroteSome(s: State, h: int, buffer: seq<Byte>, count: int)
    requires CanWrite(s, h) && Viewed(s, h) && 0 < count == Min(|buffer|, Room(s, h))
    ensures var r := Write(s, h, buffer);
            && r.Ok? && r.value.1 == count && AlwaysOk(r.value.0)
            && Abs(r.value.0) == FS.Wrote(Abs(s), h, buffer[..count])
            && 0 <= h < |r.value.0.handles| && 0 <= r.value.0.handles[h].inum < |r.value.0.inodes|
            && HasBlock(r.value.0, h)
  {
    var b := Destination(s, h);
    WriteAlways(s, h, buffer);
    WriteCases(s, h, buffer, count);
    WrittenNodes(s, h, b, buffer[..count]);
    WrittenView(s, h, b, buffer[..count]);
  }

  /** What a client sees of the handle that wrote. */
  lemma WroteViewed(s: State, h: int, bytes: seq<Byte>, t: State)
    requires RootOk(s) && RootOk(t) && Viewed(s, h) && |bytes| <= Room(s, h)
    requires Abs(t) == FS.Wrote(Abs(s), h, bytes)
    ensures Viewed(t, h) && Room(t, h) == Room(s, h) - |bytes| && t.blockSize == s.blockSize
    ensures t.handles[h].inum == s.handles[h].inum
  {
    assert h in Abs(t).open && ValidHandle(t, h);
  }

  lemma OneWrite(s: State, h: int, buffer: seq<Byte>)
    requires CanWrite(s, h)
    ensures Viewed(s, h)
    ensures var count, r := Min(|buffer|, Room(s, h)), Write(s, h, buffer);
            && 0 <= count <= |buffer| && r.Ok? && r.value.1 == count
            && CanWrite(r.value.0, h) && Abs(r.value.0) == FS.Wrote(Abs(s), h, buffer[..count])
  {
    var count := Min(|buffer|, Room(s, h));
    FitsIsViewed(s, h);
    if count > 0 {
      WroteSome(s, h, buffer, count);
      WroteViewed(s, h, buffer[..count], Write(s, h, buffer).value.0);
      FitsIsViewed(Write(s, h, buffer).value.0, h);
    } else {
      WriteCases(s, h, buffer, count);
      assert buffer[..count] == [];
      NothingWrote(Abs(s), h);
    }
  }

  lemma OverwriteTwice(content: seq<Byte>, at: nat, a: seq<Byte>, b: seq<Byte>)
    requires at <= |content|
    ensures FS.Overwrite(FS.Overwrite(content, at, a), at + |a|, b) == FS.Overwrite(content, at, a + b)
  {
  }

  lemma WroteTwice(fs: FS.Fs, h: int, a: seq<Byte>, b: seq<Byte>)
    requires h in fs.open && FS.HandleOk(fs, h) && fs.open[h].offset + |a| + |b| <= fs.limits.blockSize
    ensures h in FS.Wrote(fs, h, a).open && FS.HandleOk(FS.Wrote(fs, h, a), h)
    ensures FS.Wrote(FS.Wrote(fs, h, a), h, b) == FS.Wrote(fs, h, a + b)
  {
    OverwriteTwice(fs.nodes[fs.open[h].inum].content, fs.open[h].offset, a, b);
  }

  function Cut(bytes: seq<Byte>, limit: nat): (r: seq<Byte>)
    ensures |r| == Min(|bytes|, limit)
  {
    bytes[..Min(|bytes|, limit)]
  }

  lemma CutOfSum(a: seq<Byte>, b: seq<Byte>, room: nat)
    ensures Cut(a + b, room) == Cut(a, room) + Cut(b, room - |Cut(a, room)|)
  {
  }

  /** What the file that handle h writes to holds after the writes. */
  ghost function FileAfter(s: State, h: int, buffers: seq<seq<Byte>>): seq<Byte>
    requires RootOk(s) && Viewed(s, h) && 0 <= Room(s, h)
  {
    FS.Overwrite(Abs(s).nodes[s.handles[h].inum].content, s.handles[h].offset, Cut(Join(buffers), Room(s, h)))
  }

  /** Writes alone, one after another. */
  function WriteAll(s: State, h: int, buffers: seq<seq<Byte>>): (r: Outcome<(State, seq<FS.Reply>)>)
    requires Shape(s)
    ensures r.Ok? ==> SameShape(s, r.value.0)
    decreases |buffers|
  {
    if buffers == [] then Ok((s, []))
    else
      var (next, count) :- Write(s, h, buffers[0]);
      var (last, replies) :- WriteAll(next, h, buffers[1..]);
      Ok((last, [FS.Reply(count, [])] + replies))
  }

  lemma {:induction false} WriteAllIsRun(s: State, h: int, buffers: seq<seq<Byte>>)
    requires Shape(s)
    ensures Run(s, WriteCalls(h, buffers)) == WriteAll(s, h, buffers)
    decreases |buffers|
  {
    if buffers == [] {
    } else {
      var calls := WriteCalls(h, buffers);
      assert calls[0] == FS.WriteOp(h, buffers[0]) && calls[1..] == WriteCalls(h, buffers[1..]);
      if Write(s, h, buffers[0]).Ok? {
        WriteAllIsRun(Write(s, h, buffers[0]).value.0, h, buffers[1..]);
      }
    }
  }

  /** The view after the first of a run of writes, and after the others. */
  lemma OverlayOn(fs: FS.Fs, h: int, buffers: seq<seq<Byte>>, room: nat, first: seq<Byte>, rest: seq<Byte>)
    requires h in fs.open && FS.HandleOk(fs, h) && buffers != [] && room == fs.limits.blockSize - fs.open[h].offset
    requires first == Cut(buffers[0], room) && rest == Cut(Join(buffers[1..]), room - |first|)
    ensures fs.open[h].offset + |first| + |rest| <= fs.limits.blockSize
    ensures h in FS.Wrote(fs, h, first).open && FS.HandleOk(FS.Wrote(fs, h, first), h)
    ensures FS.Wrote(FS.Wrote(fs, h, first), h, rest) == FS.Wrote(fs, h, Cut(Join(buffers), room))
  {
    CutOfSum(buffers[0], Join(buffers[1..]), room);
    WroteTwice(fs, h, first, rest);
  }

  lemma WriteFirst(s: State, h: int, buffers: seq<seq<Byte>>, room: nat, next: State, count: int)
    requires Shape(s) && buffers != [] && Write(s, h, buffers[0]) == Ok((next, count))
    requires count == Min(|buffers[0]|, room) && WriteAll(next, h, buffers[1..]).Ok?
    requires WriteAll(next, h, buffers[1..]).value.1 == WriteReplies(room - count, buffers[1..])
    ensures WriteAll(s, h, buffers).Ok? && WriteAll(s, h, buffers).value.1 == WriteReplies(room, buffers)
    ensures WriteAll(s, h, buffers).value.0 == WriteAll(next, h, buffers[1..]).value.0
  {
    var (last, replies) := WriteAll(next, h, buffers[1..]).value;
    assert WriteAll(s, h, buffers) == Ok((last, [FS.Reply(count, [])] + replies));
    assert WriteReplies(room, buffers) == [FS.Reply(count, [])] + WriteReplies(room - count, buffers[1..]);
  }

  lemma NoWrites(fs: FS.Fs, h: int, room: nat)
    requires h in fs.open && FS.HandleOk(fs, h)
    ensures FS.Wrote(fs, h, Cut(Join([]), room)) == fs
  {
    NothingWrote(fs, h);
  }

  lemma {:induction false} WritesLay(s: State, h: int, buffers: seq<seq<Byte>>)
    requires CanWrite(s, h)
    ensures Viewed(s, h) && 0 <= Room(s, h)
    ensures var r := WriteAll(s, h, buffers);
            && r.Ok? && r.value.1 == WriteReplies(Room(s, h), buffers) && CanWrite(r.value.0, h)
            && Abs(r.value.0) == FS.Wrote(Abs(s), h, Cut(Join(buffers), Room(s, h)))
    decreases |buffers|
  {
    FitsIsViewed(s, h);
    if buffers == [] {
      NoWrites(Abs(s), h, Room(s, h));
    } else {
      OneWrite(s, h, buffers[0]);
      var (next, count) := Write(s, h, buffers[0]).value;
      WroteViewed(s, h, buffers[0][..count], next);
      WritesLay(next, h, buffers[1..]);
      WriteFirst(s, h, buffers, Room(s, h), next, count);
      OverlayOn(Abs(s), h, buffers, Room(s, h), buffers[0][..count], Cut(Join(buffers[1..]), Room(next, h)));
    }
  }

  /** A run of writes through a handle in order lays their bytes over its file from its offset on, cut
      where the block ends, and changes nothing else that a client sees. */
  lemma WritesOverlay(s: State, h: int, buffers: seq<seq<Byte>>)
    requires CanWrite(s, h)
    ensures Viewed(s, h) && 0 <= Room(s, h)
    ensures var r := Run(s, WriteCalls(h, buffers));
            && r.Ok? && r.value.1 == WriteReplies(Room(s, h), buffers) && CanWrite(r.value.0, h)
            && Abs(r.value.0) == FS.Wrote(Abs(s), h, Cut(Join(buffers), Room(s, h)))
  {
    WritesLay(s, h, buffers);
    WriteAllIsRun(s, h, buffers);
  }

  // ---------- reading ----------

  /** What the handle has still to read. */
  function Rest(s: State, h: int): seq<Byte>
    requires Shape(s) && 0 <= h < |s.handles| && 0 <= s.handles[h].inum < |s.inodes|
  {
    var content, at := Content(s, s.handles[h].inum), s.handles[h].offset;
    content[Min(at, |content|)..]
  }

  lemma MovedReads(s: State, h: int, len: SizeT)
    requires Shape(s) && HandleFits(s, h) && |Content(s, s.handles[h].inum)| == s.inodes[s.handles[h].inum].size
    ensures var count, r := Min(len, |Rest(s, h)|), Read(s, h, len);
            && r.Ok? && r.value.1 == count && r.value.2 == Rest(s, h)[..count]
            && HandleFits(r.value.0, h) && Rest(r.value.0, h) == Rest(s, h)[count..]
  {
    var content, at, count := Content(s, s.handles[h].inum), s.handles[h].offset, Min(len, |Rest(s, h)|);
    ReadUnfolds(s, h, len, count);
    assert content[at..][..count] == content[at..at + count] && content[at..][count..] == content[at + count..];
  }

  lemma OneRead(s: State, h: int, len: SizeT)
    requires AlwaysOk(s) && HandleFits(s, h)
    ensures var count, r := Min(len, |Rest(s, h)|), Read(s, h, len);
            && r.Ok? && r.value.1 == count && r.value.2 == Rest(s, h)[..count]
            && AlwaysOk(r.value.0) && HandleFits(r.value.0, h) && Rest(r.value.0, h) == Rest(s, h)[count..]
  {
    HandleShows(s, h);
    MovedReads(s, h, len);
    ReadAlways(s, h, len);
  }

  lemma ReadThen(s: State, h: int, lens: seq<SizeT>, next: State, reply: FS.Reply)
    requires Shape(s) && lens != [] && Read(s, h, lens[0]) == Ok((next, reply.value, reply.data))
    requires Run(next, ReadCalls(h, lens[1..])).Ok?
    ensures var (last, replies) := Run(next, ReadCalls(h, lens[1..])).value;
            Run(s, ReadCalls(h, lens)) == Ok((last, [reply] + replies))
  {
    RunCons(s, FS.ReadOp(h, lens[0]), ReadCalls(h, lens[1..]));
  }

  /** A run of reads returns the bytes from the handle's offset on, cut where the file ends. */
  lemma {:induction false} ReadsReturn(s: State, h: int, lens: seq<SizeT>)
    requires AlwaysOk(s) && HandleFits(s, h)
    ensures Run(s, ReadCalls(h, lens)).Ok?
    ensures Run(s, ReadCalls(h, lens)).value.1 == ReadReplies(Rest(s, h), lens)
    decreases |lens|
  {
    if lens == [] {
    } else {
      OneRead(s, h, lens[0]);
      var (next, count, data) := Read(s, h, lens[0]).value;
      ReadsReturn(next, h, lens[1..]);
      ReadThen(s, h, lens, next, FS.Reply(count, data));
    }
  }

  /** Reads through any handle in order, whenever it was opened, return the file from its offset on. */
  lemma ReadBack(s: State, h: int, lens: seq<SizeT>)
    requires AlwaysOk(s) && HandleFits(s, h)
    ensures var r := Run(s, ReadCalls(h, lens));
            && r.Ok? && r.value.1 == ReadReplies(Rest(s, h), lens)
            && Data(r.value.1) == Cut(Rest(s, h), Sum(lens))
  {
    ReadsReturn(s, h, lens);
    ReadRepliesJoin(Rest(s, h), lens);
  }

  // ---------- writing, then reading ----------

  /** The path leads to inode n, and one more handle is free. */
  ghost predicate CanReopen(fs: FS.Fs, path: CString, n: int) {
    && FS.Bound(fs, path) && FS.Target(fs, path) in fs.nodes && FS.Resolve(fs, FS.Target(fs, path)) == n
    && n != -1 && FS.NewHandle(fs) != -1
  }

  lemma Reopens(s: State, path: CString, n: int)
    requires AlwaysOk(s) && CanReopen(Abs(s), path, n)
    ensures 1 <= n < |s.inodes| && s.inodeBits[n]
    ensures First(s.handleBits, IsFree, 0) == FS.NewHandle(Abs(s))
    ensures Open(s, path, PLAINLY) == Ok(AddHandle(s, n, 0)) && AlwaysOk(AddHandle(s, n, 0).0)
  {
    var m := FS.Target(Abs(s), path);
    NewHandleAgrees(s);
    LeadsSomewhere(s, m, n);
    PlainOpenIs(s, path, m, n);
    TakenBytesOk(s, n);
    AddHandleAlways(s, n, 0);
  }

  lemma LeadsSomewhere(s: State, m: int, n: int)
    requires NamesOk(s) && m in Abs(s).nodes && FS.Resolve(Abs(s), m) == n && n != -1
    ensures 1 <= n < |s.inodes| && s.inodeBits[n]
  {
    ResolveAgrees(s, m);
  }

  lemma PlainOpenIs(s: State, path: CString, m: int, n: int)
    requires AlwaysOk(s) && FS.Bound(Abs(s), path) && m == FS.Target(Abs(s), path) && m in Abs(s).nodes
    requires n == FS.Resolve(Abs(s), m) && n != -1
    ensures Open(s, path, PLAINLY) == Ok(AddHandle(s, n, 0))
  {
    OpenBoundUnfolds(s, path, PLAINLY, m);
  }

  /** A new handle has the whole file to read. */
  lemma NewHandleReads(s: State, n: int)
    requires Shape(s) && 1 <= n < |s.inodes| && s.inodeBits[n] && First(s.handleBits, IsFree, 0) != -1
    ensures var (t, g) := AddHandle(s, n, 0);
            g == First(s.handleBits, IsFree, 0) && HandleFits(t, g) && Rest(t, g) == Content(s, n)
  {
  }

  function ReopenCalls(path: CString, g: int, lens: seq<SizeT>): seq<FS.Call> {
    [FS.OpenOp(path, PLAINLY)] + ReadCalls(g, lens)
  }

  lemma OpenThen(s: State, path: CString, next: State, g: int, lens: seq<SizeT>)
    requires Shape(s) && Open(s, path, PLAINLY) == Ok((next, g)) && Run(next, ReadCalls(g, lens)).Ok?
    ensures var (last, replies) := Run(next, ReadCalls(g, lens)).value;
            Run(s, ReopenCalls(path, g, lens)) == Ok((last, [FS.Reply(g, [])] + replies))
  {
    RunCons(s, FS.OpenOp(path, PLAINLY), ReadCalls(g, lens));
  }

  lemma ReopenAndRead(s: State, path: CString, n: int, g: int, lens: seq<SizeT>)
    requires AlwaysOk(s) && CanReopen(Abs(s), path, n) && g == FS.NewHandle(Abs(s))
    ensures 0 <= n < |s.inodes|
    ensures var r := Run(s, ReopenCalls(path, g, lens));
            r.Ok? && r.value.1 == [FS.Reply(g, [])] + ReadReplies(Content(s, n), lens)
  {
    Reopens(s, path, n);
    NewHandleReads(s, n);
    var t := AddHandle(s, n, 0).0;
    ReadsReturn(t, g, lens);
    OpenThen(s, path, t, g, lens);
  }

  /** Writing changes no path and no handle but the one that writes. */
  lemma WroteReopens(fs: FS.Fs, h: int, bytes: seq<Byte>, path: CString, n: int)
    requires h in fs.open && FS.HandleOk(fs, h) && fs.open[h].offset + |bytes| < SIZE_T && CanReopen(fs, path, n)
    ensures CanReopen(FS.Wrote(fs, h, bytes), path, n) && FS.NewHandle(FS.Wrote(fs, h, bytes)) == FS.NewHandle(fs)
  {
    assert FS.Wrote(fs, h, bytes).open.Keys == fs.open.Keys;
  }

  lemma WroteContent(s: State, h: int, bytes: seq<Byte>, t: State)
    requires RootOk(s) && RootOk(t) && Viewed(s, h) && |bytes| <= Room(s, h)
    requires Abs(t) == FS.Wrote(Abs(s), h, bytes)
    ensures var n, at := s.handles[h].inum, s.handles[h].offset;
            && 0 <= n < |s.inodes| && 0 <= n < |t.inodes| && at <= |Content(s, n)|
            && Content(t, n) == FS.Overwrite(Content(s, n), at, bytes)
  {
    var n := s.handles[h].inum;
    assert n in Abs(s).nodes && n in Abs(t).nodes && Abs(t).nodes[n].content == Content(t, n);
  }

  /** Writes, then an open, then reads. */
  function StreamCalls(h: int, buffers: seq<seq<Byte>>, path: CString, g: int, lens: seq<SizeT>): seq<FS.Call> {
    WriteCalls(h, buffers) + ReopenCalls(path, g, lens)
  }

  function StreamReplies(room: nat, buffers: seq<seq<Byte>>, g: int, file: seq<Byte>, lens: seq<SizeT>): seq<FS.Reply> {
    WriteReplies(room, buffers) + ([FS.Reply(g, [])] + ReadReplies(file, lens))
  }

  lemma StreamRuns(s: State, h: int, buffers: seq<seq<Byte>>, path: CString, n: int, g: int, lens: seq<SizeT>)
    requires CanWrite(s, h) && Viewed(s, h) && n == s.handles[h].inum && CanReopen(Abs(s), path, n)
    requires g == FS.NewHandle(Abs(s)) && 0 <= Room(s, h)
    ensures var r := Run(s, StreamCalls(h, buffers, path, g, lens));
            r.Ok? && r.value.1 == StreamReplies(Room(s, h), buffers, g, FileAfter(s, h, buffers), lens)
  {
    var bytes := Cut(Join(buffers), Room(s, h));
    WritesOverlay(s, h, buffers);
    var t := Run(s, WriteCalls(h, buffers)).value.0;
    WroteReopens(Abs(s), h, bytes, path, n);
    WroteContent(s, h, bytes, t);
    ReopenAndRead(t, path, n, g, lens);
    RunThen(s, WriteCalls(h, buffers), ReopenCalls(path, g, lens));
  }

  lemma FileAfterReads(s: State, h: int, buffers: seq<seq<Byte>>, lens: seq<SizeT>)
    requires RootOk(s) && Viewed(s, h) && 0 <= Room(s, h)
    ensures var file := FileAfter(s, h, buffers);
            && Data(ReadReplies(file, lens)) == Cut(file, Sum(lens))
            && (Abs(s).nodes[s.handles[h].inum].content == [] ==> file == Cut(Join(buffers), s.blockSize))
  {
    ReadRepliesJoin(FileAfter(s, h, buffers), lens);
  }

  /** Writes through one handle, then opening the file under any path that leads to it, then reads:
      the reads return, end to end, the file as it was with the writes laid over it from the handle's
      offset on, cut at the block size; on an empty file that is the writes themselves. So it is in every
      reachable state in which this one handle is in order. */
  lemma StreamRoundTrip(s: State, h: int, buffers: seq<seq<Byte>>, path: CString, lens: seq<SizeT>)
    requires CanWrite(s, h) && CanReopen(Abs(s), path, s.handles[h].inum)
    ensures Viewed(s, h) && 0 <= Room(s, h)
    ensures var g, file := FS.NewHandle(Abs(s)), FileAfter(s, h, buffers);
            var r := Run(s, StreamCalls(h, buffers, path, g, lens));
            && r.Ok? && r.value.1 == StreamReplies(Room(s, h), buffers, g, file, lens)
            && Data(ReadReplies(file, lens)) == Cut(file, Sum(lens))
            && (Abs(s).nodes[s.handles[h].inum].content == [] ==> file == Cut(Join(buffers), s.blockSize))
  {
    FitsIsViewed(s, h);
    StreamRuns(s, h, buffers, path, s.handles[h].inum, FS.NewHandle(Abs(s)), lens);
    FileAfterReads(s, h, buffers, lens);
  }

  // ---------- a reader that is open before the writes ----------

  lemma OtherHandleSees(s: State, h: int, g: int, bytes: seq<Byte>, t: State)
    requires RootOk(s) && RootOk(t) && Viewed(s, h) && |bytes| <= Room(s, h)
    requires Viewed(s, g) && g != h && s.handles[g].inum == s.handles[h].inum
    requires Abs(t) == FS.Wrote(Abs(s), h, bytes)
    ensures Viewed(t, g) && 0 <= t.handles[g].inum < |t.inodes|
    ensures s.handles[g].offset <= |Abs(s).nodes[s.handles[h].inum].content|
    ensures Rest(t, g) == FS.Overwrite(Abs(s).nodes[s.handles[h].inum].content, s.handles[h].offset,
                                       bytes)[s.handles[g].offset..]
  {
    WroteContent(s, h, bytes, t);
    assert Abs(t).open[g] == Abs(s).open[g] && ValidHandle(t, g);
  }

  /** Any other handle in order on the file, at any offset, reads the same file on from its offset. */
  lemma SharedStream(s: State, h: int, buffers: seq<seq<Byte>>, g: int, lens: seq<SizeT>)
    requires CanWrite(s, h) && HandleFits(s, g) && g != h && s.handles[g].inum == s.handles[h].inum
    ensures Viewed(s, h) && 0 <= Room(s, h)
    ensures var r := Run(s, WriteCalls(h, buffers) + ReadCalls(g, lens));
            && r.Ok? && s.handles[g].offset <= |FileAfter(s, h, buffers)|
            && r.value.1 == WriteReplies(Room(s, h), buffers) +
                            ReadReplies(FileAfter(s, h, buffers)[s.handles[g].offset..], lens)
  {
    FitsIsViewed(s, h);
    FitsIsViewed(s, g);
    WritesOverlay(s, h, buffers);
    var t := Run(s, WriteCalls(h, buffers)).value.0;
    OtherHandleSees(s, h, g, Cut(Join(buffers), Room(s, h)), t);
    FitsIsViewed(t, g);
    ReadsReturn(t, g, lens);
    RunThen(s, WriteCalls(h, buffers), ReadCalls(g, lens));
  }
}
