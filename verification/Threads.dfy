/** Any number of threads calling Projeto2's operations, interleaved at the level of the
    table updates that each operation makes under g_library_mutex. */
module Threads {
  import opened Base
  import opened Tables
  import opened Invariants
  import opened Operations
  import opened Simulation
  import opened Locked
  import FS = FileSystem
  import Runs

  // ---------- one operation in micro-steps ----------

  /** Where the thread that holds the mutex is inside its operation. */
  datatype Phase =
    | Start
    | Found(n: nat)                  // open or unlink: the path is bound to n
    | Missing(root: nat)             // open: no such name, about to create
    | Made(root: nat, n: nat)        // open: an inode is taken, not yet named
    | Undo(n: nat)                   // open: the name could not be added
    | Located(n: nat, offset: SizeT) // open: about to take a handle
    | Deleted                        // unlink: the inode is gone, its record is not
    | Placed(n: nat, count: nat)     // write: the file has a block
    | Finished(reply: FS.Reply)

  function Rank(p: Phase): nat {
    match p
    case Start => 5
    case Missing(_) => 4
    case Made(_, _) => 3
    case Found(_) => 3
    case Undo(_) => 2
    case Located(_, _) => 2
    case Deleted => 2
    case Placed(_, _) => 2
    case Finished(_) => 0
  }

  function Value(v: int): Phase {
    Finished(FS.Reply(v, []))
  }

  function StartOpen(s: State, path: CString, mode: Mode): Outcome<(Phase, State)> {
    if !ValidPath(path) then Ok((Value(-1), s))
    else
      var root :- InodeGet(s, ROOT_DIR_INUM);
      var found :- Lookup(s, root, path);
      if found >= 0 then
        var n :- InodeGet(s, found);
        Ok((Found(n), s))
      else Ok((if mode.creat then Missing(root) else Value(-1), s))
  }

  function StartUnlink(s: State, path: CString): Outcome<(Phase, State)> {
    if !ValidPath(path) then Ok((Value(-1), s))
    else
      var root :- InodeGet(s, ROOT_DIR_INUM);
      var found :- Lookup(s, root, path);
      if found == -1 then Ok((Value(-1), s))
      else
        var n :- InodeGet(s, found);   // the first assertion of inode_delete
        Ok((Found(n), s))
  }

  function StartWrite(s: State, h: int, buffer: seq<Byte>): (r: Outcome<(Phase, State)>)
    requires Shape(s)
    ensures r.Ok? ==> SameShape(s, r.value.1)
  {
    if !ValidHandle(s, h) then Ok((Value(-1), s))
    else
      var n :- InodeGet(s, s.handles[h].inum);
      var at := s.handles[h].offset;
      var count := ToWrite(s, at, |buffer|);
      if count == 0 then Ok((Value(0), s))
      else
        var (t, b) := if s.inodes[n].size == 0 then DataBlockAlloc(s) else (s, 0);
        if b == -1 then Ok((Value(-1), s))
        else
          var u := if s.inodes[n].size == 0 then t.(inodes := t.inodes[n := t.inodes[n].(block := b)]) else t;
          Ok((Placed(n, count), u))
  }

  /** The phases an operation can be in. */
  predicate CanBeIn(s: State, op: Request, p: Phase) {
    match p
    case Start => true
    case Found(n) => n < |s.inodes| && (op.OpenOp? || (op.UnlinkOp? && |op.path| > 0))
    case Missing(root) => op.OpenOp? && root < |s.inodes| && |op.path| > 0
    case Made(root, n) => op.OpenOp? && root < |s.inodes| && |op.path| > 0
    case Undo(_) => op.OpenOp?
    case Located(_, _) => op.OpenOp?
    case Deleted => op.UnlinkOp? && |s.inodes| > 0 && |op.path| > 0
    case Placed(n, count) =>
      op.WriteOp? && n < |s.inodes| && 0 <= op.handle < |s.handles|
    case Finished(_) => false
  }

  /** The first table update of an operation. */
  function Begin(s: State, op: Request): (r: Outcome<(Phase, State)>)
    requires Shape(s)
    ensures r.Ok? ==> SameShape(s, r.value.1) && Rank(r.value.0) < Rank(Start)
    ensures r.Ok? ==> r.value.0.Finished? || CanBeIn(r.value.1, op, r.value.0)
  {
    match op
    case OpenOp(path, mode) => StartOpen(s, path, mode)
    case CloseOp(h) => var (t, v) := Close(s, h); Ok((Value(v), t))
    case WriteOp(h, buffer) => StartWrite(s, h, buffer)
    case ReadOp(h, len) => var r :- Read(s, h, len); Ok((Finished(FS.Reply(r.1, r.2)), r.0))
    case UnlinkOp(path) => StartUnlink(s, path)
  }

  /** Open: TRUNC and APPEND. */
  function ObeyMode(s: State, n: nat, mode: Mode): (r: Outcome<(Phase, State)>)
    requires Shape(s) && n < |s.inodes|
    ensures r.Ok? ==> r.value.0.Located? && SameShape(s, r.value.1)
  {
    var t :- if mode.trunc then Truncate(s, n) else Ok(s);
    Ok((Located(n, if mode.append then t.inodes[n].size else 0), t))
  }

  /** The next table update of an operation. */
  function Micro(s: State, op: Request, p: Phase): (r: Outcome<(Phase, State)>)
    requires Shape(s) && CanBeIn(s, op, p)
    ensures r.Ok? ==> SameShape(s, r.value.1) && Rank(r.value.0) < Rank(p)
    ensures r.Ok? ==> r.value.0.Finished? || CanBeIn(r.value.1, op, r.value.0)
  {
    match p
    case Start => Begin(s, op)
    case Found(n) =>
      if op.UnlinkOp? then
        var t :- InodeDelete(s, n);
        Ok((Deleted, t))
      else ObeyMode(s, n, op.mode)
    case Missing(root) =>
      var (t, n) := InodeCreate(s, TFile);
      Ok((if n == -1 then Value(-1) else Made(root, n), t))
    case Made(root, n) =>
      var (t, added) :- AddDirEntry(s, root, op.path[1..], n);
      Ok((if added == -1 then Undo(n) else Located(n, 0), t))
    case Undo(n) =>
      var t :- InodeDelete(s, n);
      Ok((Value(-1), t))
    case Located(n, offset) =>
      var (t, h) := AddHandle(s, n, offset);
      Ok((Value(h), t))
    case Deleted =>
      var (t, v) :- ClearDirEntry(s, ROOT_DIR_INUM, op.path[1..]);
      Ok((Value(v), t))
    case Placed(n, count) =>
      var t :- WriteFrom(s, op.handle, n, op.buffer, count);
      Ok((Value(count), t))
  }

  /** What is left of an operation, if no other thread interferes. */
  function Rest(s: State, op: Request, p: Phase): Outcome<(State, FS.Reply)>
    requires Shape(s) && (p.Finished? || CanBeIn(s, op, p))
    decreases Rank(p)
  {
    if p.Finished? then Ok((s, p.reply))
    else
      var (q, t) :- Micro(s, op, p);
      Rest(t, op, q)
  }

  lemma OpenComposes(s: State, path: CString, mode: Mode)
    requires Shape(s)
    ensures Rest(s, FS.OpenOp(path, mode), Start) == Do(s, FS.OpenOp(path, mode))
  {
    var op: Request := FS.OpenOp(path, mode);
    if StartOpen(s, path, mode).Ok? && StartOpen(s, path, mode).value.0.Found? {
      OpenFoundComposes(s, op, StartOpen(s, path, mode).value.0.n);
    } else if StartOpen(s, path, mode).Ok? && StartOpen(s, path, mode).value.0.Missing? {
      CreateComposes(s, op, StartOpen(s, path, mode).value.0.root);
    }
  }

  lemma OpenFoundComposes(s: State, op: Request, n: nat)
    requires Shape(s) && op.OpenOp? && n < |s.inodes|
    ensures Rest(s, op, Found(n)) == Runs.Plain(OpenFound(s, n, op.mode))
  {
    if Micro(s, op, Found(n)).Ok? {
      var (q, t) := Micro(s, op, Found(n)).value;
      LocatedComposes(t, op, q.n, q.offset);
    }
  }

  lemma LocatedComposes(s: State, op: Request, n: nat, offset: SizeT)
    requires Shape(s) && op.OpenOp?
    ensures Rest(s, op, Located(n, offset)) == Runs.Plain(Ok(AddHandle(s, n, offset)))
  {
  }

  lemma UndoComposes(s: State, op: Request, n: nat)
    requires Shape(s) && op.OpenOp?
    ensures Rest(s, op, Undo(n)) ==
            if InodeDelete(s, n).Ok? then Ok((InodeDelete(s, n).value, FS.Reply(-1, []))) else Abort
  {
  }

  lemma CreateComposes(s: State, op: Request, root: nat)
    requires Shape(s) && op.OpenOp? && root < |s.inodes| && |op.path| > 0
    ensures Rest(s, op, Missing(root)) == Runs.Plain(CreateFile(s, root, op.path))
  {
    var (t, n) := InodeCreate(s, TFile);
    if n != -1 {
      var r := AddDirEntry(t, root, op.path[1..], n);
      if r.Ok? && r.value.1 == -1 {
        UndoComposes(r.value.0, op, n);
      } else if r.Ok? {
        LocatedComposes(r.value.0, op, n, 0);
      }
    }
  }

  lemma UnlinkFoundComposes(s: State, op: Request, n: nat)
    requires Shape(s) && op.UnlinkOp? && CanBeIn(s, op, Found(n))
    ensures var r := InodeDelete(s, n);
            Rest(s, op, Found(n)) ==
            if r.Ok? then Runs.Plain(ClearDirEntry(r.value, ROOT_DIR_INUM, op.path[1..])) else Abort
  {
  }

  lemma UnlinkComposes(s: State, path: CString)
    requires Shape(s)
    ensures Rest(s, FS.UnlinkOp(path), Start) == Do(s, FS.UnlinkOp(path))
  {
    var r := StartUnlink(s, path);
    if r.Ok? && r.value.0.Found? {
      UnlinkFoundComposes(s, FS.UnlinkOp(path), r.value.0.n);
    }
  }

  lemma PlacedComposes(s: State, op: Request, n: nat, count: nat)
    requires Shape(s) && CanBeIn(s, op, Placed(n, count))
    ensures var r := WriteFrom(s, op.handle, n, op.buffer, count);
            Rest(s, op, Placed(n, count)) == if r.Ok? then Ok((r.value, FS.Reply(count, []))) else Abort
  {
  }

  lemma WriteComposes(s: State, h: int, buffer: seq<Byte>)
    requires Shape(s)
    ensures Rest(s, FS.WriteOp(h, buffer), Start) == Do(s, FS.WriteOp(h, buffer))
  {
    var r := StartWrite(s, h, buffer);
    if r.Ok? && r.value.0.Placed? {
      PlacedComposes(r.value.1, FS.WriteOp(h, buffer), r.value.0.n, r.value.0.count);
    }
  }

  /** Run alone, the micro-steps of an operation are the operation. */
  lemma MicroStepsCompose(s: State, op: Request)
    requires Shape(s)
    ensures Rest(s, op, Start) == Do(s, op)
  {
    match op
    case OpenOp(path, mode) => OpenComposes(s, path, mode);
    case CloseOp(h) =>
    case WriteOp(h, buffer) => WriteComposes(s, h, buffer);
    case ReadOp(h, len) =>
    case UnlinkOp(path) => UnlinkComposes(s, path);
  }

  lemma UnlinkSteps(s: State, op: Request, n: nat)
    requires Shape(s) && n < |s.inodes| && op.UnlinkOp? && ValidPath(op.path) && Lookup(s, 0, op.path) == Ok(n)
    requires InodeDelete(s, n).Ok?
    ensures Begin(s, op) == Ok((Found(n), s)) && CanBeIn(s, op, Found(n))
    ensures Micro(s, op, Found(n)) == Ok((Deleted, InodeDelete(s, n).value))
  {
  }

  /** The steps are fine enough to show it: in the middle of an unlink the inode is FREE, and a record
      still names it. */
  lemma MidUnlinkDangles(s: State, op: Request, n: nat)
    requires Good(s) && op.UnlinkOp? && FS.Bound(Abs(s), op.path) && n == FS.Target(Abs(s), op.path)
    ensures Begin(s, op) == Ok((Found(n), s)) && CanBeIn(s, op, Found(n)) && InodeDelete(s, n).Ok?
    ensures Micro(s, op, Found(n)) == Ok((Deleted, InodeDelete(s, n).value)) && !TablesOk(InodeDelete(s, n).value)
  {
    LookupAgrees(s, op.path);
    BoundFacts(s, op.path);
    UnlinkDangles(s, op.path);
    UnlinkSteps(s, op, n);
  }

  // ---------- threads ----------

  datatype Option<T> = None | Some(value: T)

  /** One call, entered in the log when its thread gets the mutex. */
  datatype Record = Record(op: Request, called: nat, entered: nat, reply: Option<FS.Reply>, returned: Option<nat>)

  datatype Thread =
    | Idle
    | Waiting(op: Request, called: nat)
    | Inside(entry: nat, phase: Phase)
    | Leaving(entry: nat)

  /** The tables, who holds the mutex, the threads, and the log in the order the mutex was taken. */
  datatype System = System(state: State, holder: Option<nat>, threads: seq<Thread>, log: seq<Record>, clock: nat)

  datatype Event = CallBy(t: nat, op: Request) | EnterBy(t: nat) | WorkBy(t: nat) | LeaveBy(t: nat) | ReturnBy(t: nat)

  function SetThread(c: System, t: nat, thread: Thread): System
    requires t < |c.threads|
  {
    c.(threads := c.threads[t := thread], clock := c.clock + 1)
  }

  /** The system after one event, if the event can happen. An aborting micro-step ends the
      process, so no event follows it. */
  function Next(c: System, e: Event): Option<System>
    requires Shape(c.state)
  {
    if e.t >= |c.threads| then None
    else
      match (e, c.threads[e.t])
      case (CallBy(t, op), Idle) => Some(SetThread(c, t, Waiting(op, c.clock)))
      case (EnterBy(t), Waiting(op, called)) =>
        if c.holder.Some? then None
        else Some(SetThread(c, t, Inside(|c.log|, Start))
                  .(holder := Some(t), log := c.log + [Record(op, called, c.clock, None, None)]))
      case (WorkBy(t), Inside(k, phase)) =>
        if k >= |c.log| || phase.Finished? || !CanBeIn(c.state, c.log[k].op, phase) then None
        else
          (match Micro(c.state, c.log[k].op, phase)
           case Abort => None
           case Ok((next, state)) => Some(SetThread(c, t, Inside(k, next)).(state := state)))
      case (LeaveBy(t), Inside(k, Finished(reply))) =>
        if k >= |c.log| then None
        else Some(SetThread(c, t, Leaving(k)).(holder := None, log := c.log[k := c.log[k].(reply := Some(reply))]))
      case (ReturnBy(t), Leaving(k)) =>
        if k >= |c.log| then None
        else Some(SetThread(c, t, Idle).(log := c.log[k := c.log[k].(returned := Some(c.clock))]))
      case _ => None
  }

  function Initially(s: State, threads: nat): System {
    System(s, None, seq(threads, _ => Idle), [], 0)
  }

  // ---------- linearization ----------

  function Ops(log: seq<Record>): (ops: seq<Request>)
    ensures |ops| == |log| && forall i :: 0 <= i < |log| ==> ops[i] == log[i].op
  {
    seq(|log|, i requires 0 <= i < |log| => log[i].op)
  }

  /** How many calls of the log have given the mutex back. */
  function Done(c: System): int {
    |c.log| - if c.holder.Some? then 1 else 0
  }

  /** The tables as the finished calls, run one after another, leave them. */
  ghost predicate Replays(s: State, log: seq<Record>, t: State)
    requires Shape(s)
  {
    var r := DoAll(s, Ops(log));
    r.Ok? && r.value.0 == t && |r.value.1| == |log|
    && forall i :: 0 <= i < |log| ==> log[i].reply == Some(r.value.1[i])
  }

  /** The holder's call is the last of the log, and what it has still to do completes it. */
  ghost predicate InProgress(c: System, before: State)
    requires Shape(before) && Shape(c.state) && c.holder.Some? && |c.log| > 0
  {
    var t, k := c.holder.value, |c.log| - 1;
    && t < |c.threads| && c.threads[t].Inside? && c.threads[t].entry == k
    && (c.threads[t].phase.Finished? || CanBeIn(c.state, c.log[k].op, c.threads[t].phase))
    && Rest(c.state, c.log[k].op, c.threads[t].phase) == Do(before, c.log[k].op)
  }

  /** Only the holder is inside an operation: every thread that left has given the mutex back. */
  ghost predicate Exclusive(c: System) {
    && (forall t :: 0 <= t < |c.threads| && c.threads[t].Inside? ==> c.holder == Some(t))
    && (forall t :: 0 <= t < |c.threads| && c.threads[t].Leaving? ==> c.threads[t].entry < Done(c))
  }

  /** `before` is what the sequential run of the finished calls makes of s. */
  ghost predicate Linear(s: State, c: System, before: State)
    requires Shape(s)
  {
    && Shape(c.state) && Shape(before) && 0 <= Done(c) && Exclusive(c)
    && Replays(s, c.log[..Done(c)], before)
    && (c.holder.None? ==> c.state == before)
    && (c.holder.Some? ==> InProgress(c, before))
  }

  lemma {:induction false} DoAllAppend(s: State, ops: seq<Request>, op: Request)
    requires Shape(s) && DoAll(s, ops).Ok?
    ensures var (t, replies) := DoAll(s, ops).value;
            DoAll(s, ops + [op]) ==
            if Do(t, op).Ok? then Ok((Do(t, op).value.0, replies + [Do(t, op).value.1])) else Abort
    decreases |ops|
  {
    if ops == [] {
      var one := [op];
      assert ops + [op] == one && one[1..] == [];
      if Do(s, op).Ok? {
        var (next, reply) := Do(s, one[0]).value;
        assert DoAll(next, one[1..]) == Ok((next, []));
        assert DoAll(s, one) == Ok((next, [reply] + []));
        assert [reply] + [] == [] + [reply];
      }
    } else {
      DoAllAppend(Do(s, ops[0]).value.0, ops[1..], op);
      assert (ops + [op])[1..] == ops[1..] + [op];
      var (t, replies) := DoAll(s, ops).value;
      var rest := DoAll(Do(s, ops[0]).value.0, ops[1..]).value.1;
      assert replies == [Do(s, ops[0]).value.1] + rest;
      if Do(t, op).Ok? {
        assert replies + [Do(t, op).value.1] == [Do(s, ops[0]).value.1] + (rest + [Do(t, op).value.1]);
      }
    }
  }

  lemma ReplaysOneMore(s: State, log: seq<Record>, t: State, record: Record, u: State)
    requires Shape(s) && Shape(t) && Replays(s, log, t) && Do(t, record.op).Ok?
    requires u == Do(t, record.op).value.0 && record.reply == Some(Do(t, record.op).value.1)
    ensures Replays(s, log + [record], u)
  {
    DoAllAppend(s, Ops(log), record.op);
    assert Ops(log + [record]) == Ops(log) + [record.op];
  }

  lemma ReplaysSame(s: State, log: seq<Record>, log': seq<Record>, t: State)
    requires Shape(s) && Replays(s, log, t) && |log'| == |log|
    requires forall i :: 0 <= i < |log| ==> log'[i].op == log[i].op && log'[i].reply == log[i].reply
    ensures Replays(s, log', t)
  {
    assert Ops(log') == Ops(log);
  }

  lemma CallKeeps(s: State, c: System, before: State, t: nat, op: Request)
    requires Shape(s) && Linear(s, c, before) && Next(c, CallBy(t, op)).Some?
    ensures Linear(s, Next(c, CallBy(t, op)).value, before)
  {
  }

  lemma EnterKeeps(s: State, c: System, before: State, t: nat)
    requires Shape(s) && Linear(s, c, before) && Next(c, EnterBy(t)).Some?
    ensures Linear(s, Next(c, EnterBy(t)).value, before)
  {
    var d := Next(c, EnterBy(t)).value;
    assert d.log[..Done(d)] == c.log[..Done(c)];
    MicroStepsCompose(before, c.threads[t].op);
  }

  lemma WorkKeeps(s: State, c: System, before: State, t: nat)
    requires Shape(s) && Linear(s, c, before) && Next(c, WorkBy(t)).Some?
    ensures Linear(s, Next(c, WorkBy(t)).value, before)
  {
  }

  /** Giving the mutex back is the point at which the call has taken effect. */
  lemma LeaveKeeps(s: State, c: System, before: State, t: nat)
    requires Shape(s) && Linear(s, c, before) && Next(c, LeaveBy(t)).Some?
    ensures Linear(s, Next(c, LeaveBy(t)).value, c.state)
  {
    var d := Next(c, LeaveBy(t)).value;
    var k := |c.log| - 1;
    ReplaysOneMore(s, c.log[..k], before, d.log[k], c.state);
    assert d.log[..Done(d)] == c.log[..k] + [d.log[k]];
  }

  lemma ReturnKeeps(s: State, c: System, before: State, t: nat)
    requires Shape(s) && Linear(s, c, before) && Next(c, ReturnBy(t)).Some?
    ensures Linear(s, Next(c, ReturnBy(t)).value, before)
  {
    var d := Next(c, ReturnBy(t)).value;
    ReplaysSame(s, c.log[..Done(c)], d.log[..Done(d)], before);
  }

  // ---------- time ----------

  /** In the execution h, thread t calls op at position q, takes the mutex at p, and returns at r or has not
      returned; in between it does nothing but this. */
  ghost predicate IsCall(h: seq<Event>, t: nat, op: Request, q: nat, p: nat, r: Option<nat>) {
    && q < p < |h| && h[q] == CallBy(t, op) && h[p] == EnterBy(t)
    && (forall j :: q < j < p ==> h[j].t != t)
    && (r.Some? ==> p < r.value < |h| && h[r.value] == ReturnBy(t))
    && (forall j :: p < j < (if r.Some? then r.value else |h|) && h[j].t == t ==> h[j].WorkBy? || h[j].LeaveBy?)
  }

  /** The record's stamps are the positions of its call's events. */
  ghost predicate RecordStamped(h: seq<Event>, record: Record) {
    record.entered < |h| && IsCall(h, h[record.entered].t, record.op, record.called, record.entered, record.returned)
  }

  ghost predicate LogStamped(h: seq<Event>, log: seq<Record>) {
    && (forall i :: 0 <= i < |log| ==> RecordStamped(h, log[i]))
    && (forall i, j :: 0 <= i < j < |log| ==> log[i].entered < log[j].entered)
    && (forall p :: 0 <= p < |h| && h[p].EnterBy? ==> exists i :: 0 <= i < |log| && log[i].entered == p)
  }

  /** What thread t is doing is the last thing that it began. */
  ghost predicate ThreadStamped(h: seq<Event>, log: seq<Record>, thread: Thread, t: nat) {
    && (thread.Waiting? ==>
         && thread.called < |h| && h[thread.called] == CallBy(t, thread.op)
         && forall j :: thread.called < j < |h| ==> h[j].t != t)
    && (thread.Inside? || thread.Leaving? ==>
         && thread.entry < |log| && log[thread.entry].returned.None?
         && log[thread.entry].entered < |h| && h[log[thread.entry].entered].t == t)
    && (forall i :: 0 <= i < |log| && log[i].returned.None? && log[i].entered < |h| && h[log[i].entered].t == t ==>
         (thread.Inside? || thread.Leaving?) && thread.entry == i)
  }

  /** The log of c holds exactly the calls of the execution h that have taken the mutex, in the order in
      which they took it. */
  ghost predicate Stamped(h: seq<Event>, c: System) {
    && c.clock == |h| && LogStamped(h, c.log)
    && forall t :: 0 <= t < |c.threads| ==> ThreadStamped(h, c.log, c.threads[t], t)
  }

  lemma RecordGrows(h: seq<Event>, record: Record, e: Event)
    requires RecordStamped(h, record)
    requires record.returned.None? && e.t == h[record.entered].t ==> e.WorkBy? || e.LeaveBy?
    ensures RecordStamped(h + [e], record)
  {
  }

  lemma LogGrows(h: seq<Event>, log: seq<Record>, e: Event)
    requires LogStamped(h, log) && !e.EnterBy?
    requires forall i :: 0 <= i < |log| && log[i].returned.None? && e.t == h[log[i].entered].t ==>
               e.WorkBy? || e.LeaveBy?
    ensures LogStamped(h + [e], log)
  {
    forall i | 0 <= i < |log| ensures RecordStamped(h + [e], log[i]) {
      RecordGrows(h, log[i], e);
    }
    forall p | 0 <= p < |h + [e]| && (h + [e])[p].EnterBy? ensures exists i :: 0 <= i < |log| && log[i].entered == p {
      assert p < |h| && h[p].EnterBy?;
    }
  }

  lemma OthersGrow(h: seq<Event>, log: seq<Record>, thread: Thread, t: nat, e: Event)
    requires LogStamped(h, log) && ThreadStamped(h, log, thread, t) && e.t != t
    ensures ThreadStamped(h + [e], log, thread, t)
  {
  }

  lemma CallStamps(h: seq<Event>, c: System, t: nat, op: Request)
    requires Shape(c.state) && Stamped(h, c) && Next(c, CallBy(t, op)).Some?
    ensures Stamped(h + [CallBy(t, op)], Next(c, CallBy(t, op)).value)
  {
    var e, d := CallBy(t, op), Next(c, CallBy(t, op)).value;
    LogGrows(h, c.log, e);
    forall u | 0 <= u < |c.threads| ensures ThreadStamped(h + [e], d.log, d.threads[u], u) {
      assert ThreadStamped(h, c.log, c.threads[u], u);
      if u != t {
        OthersGrow(h, c.log, c.threads[u], u, e);
      }
    }
  }

  lemma WorkStamps(h: seq<Event>, c: System, t: nat)
    requires Shape(c.state) && Stamped(h, c) && Next(c, WorkBy(t)).Some?
    ensures Stamped(h + [WorkBy(t)], Next(c, WorkBy(t)).value)
  {
    var e, d := WorkBy(t), Next(c, WorkBy(t)).value;
    WorkLeavesLog(c, t);
    LogGrows(h, c.log, e);
    forall u | 0 <= u < |c.threads| ensures ThreadStamped(h + [e], d.log, d.threads[u], u) {
      assert ThreadStamped(h, c.log, c.threads[u], u);
      if u != t {
        OthersGrow(h, c.log, c.threads[u], u, e);
      }
    }
  }

  lemma WorkLeavesLog(c: System, t: nat)
    requires Shape(c.state) && Next(c, WorkBy(t)).Some?
    ensures var d := Next(c, WorkBy(t)).value;
            && d.log == c.log && d.clock == c.clock + 1 && d.holder == c.holder && t < |c.threads|
            && c.threads[t].Inside? && d.threads[t].Inside? && d.threads[t].entry == c.threads[t].entry
            && d.threads == c.threads[t := d.threads[t]]
  {
  }

  lemma EnterStamps(h: seq<Event>, c: System, t: nat)
    requires Shape(c.state) && Stamped(h, c) && Next(c, EnterBy(t)).Some?
    ensures Stamped(h + [EnterBy(t)], Next(c, EnterBy(t)).value)
  {
    var e, d := EnterBy(t), Next(c, EnterBy(t)).value;
    assert ThreadStamped(h, c.log, c.threads[t], t);
    EnterLogs(h, c.log, e, d.log[|c.log|]);
    forall u | 0 <= u < |c.threads| ensures ThreadStamped(h + [e], d.log, d.threads[u], u) {
      assert ThreadStamped(h, c.log, c.threads[u], u);
      if u != t {
        OthersGrow(h, c.log, c.threads[u], u, e);
      }
    }
  }

  lemma EnterLogs(h: seq<Event>, log: seq<Record>, e: Event, record: Record)
    requires LogStamped(h, log) && e.EnterBy? && RecordStamped(h + [e], record) && record.entered == |h|
    requires forall i :: 0 <= i < |log| && log[i].returned.None? ==> h[log[i].entered].t != e.t
    ensures LogStamped(h + [e], log + [record])
  {
    var g, more := h + [e], log + [record];
    forall i | 0 <= i < |more| ensures RecordStamped(g, more[i]) {
      if i < |log| {
        RecordGrows(h, log[i], e);
      }
    }
    forall p | 0 <= p < |g| && g[p].EnterBy? ensures exists i :: 0 <= i < |more| && more[i].entered == p {
      if p < |h| {
        assert h[p].EnterBy?;
        var i :| 0 <= i < |log| && log[i].entered == p;
        assert more[i] == log[i];
      } else {
        assert more[|log|].entered == p;
      }
    }
  }

  /** Giving the mutex back and returning change one record, but not its first two stamps. */
  lemma RecordChanges(h: seq<Event>, log: seq<Record>, e: Event, k: nat, record: Record)
    requires LogStamped(h, log) && !e.EnterBy? && k < |log| && RecordStamped(h + [e], record)
    requires record.called == log[k].called && record.entered == log[k].entered
    requires forall i :: 0 <= i < |log| && i != k && log[i].returned.None? ==> h[log[i].entered].t != e.t
    ensures LogStamped(h + [e], log[k := record])
  {
    var g, changed := h + [e], log[k := record];
    forall i | 0 <= i < |log| ensures RecordStamped(g, changed[i]) {
      if i != k {
        RecordGrows(h, log[i], e);
      }
    }
    forall p | 0 <= p < |g| && g[p].EnterBy? ensures exists i :: 0 <= i < |changed| && changed[i].entered == p {
      assert h[p].EnterBy?;
      var i :| 0 <= i < |log| && log[i].entered == p;
      assert changed[i].entered == p;
    }
  }

  lemma LeaveStamps(h: seq<Event>, c: System, t: nat)
    requires Shape(c.state) && Stamped(h, c) && Next(c, LeaveBy(t)).Some?
    ensures Stamped(h + [LeaveBy(t)], Next(c, LeaveBy(t)).value)
  {
    var e, d, k := LeaveBy(t), Next(c, LeaveBy(t)).value, c.threads[t].entry;
    assert ThreadStamped(h, c.log, c.threads[t], t);
    RecordGrows(h, c.log[k], e);
    RecordChanges(h, c.log, e, k, d.log[k]);
    EntersKept(h, c.log, e, k, d.log[k]);
    forall u | 0 <= u < |c.threads| ensures ThreadStamped(h + [e], d.log, d.threads[u], u) {
      assert ThreadStamped(h, c.log, c.threads[u], u);
      if u != t {
        OtherKept(h, c.log, c.threads[u], u, e, k, d.log[k]);
      }
    }
  }

  lemma EntersKept(h: seq<Event>, log: seq<Record>, e: Event, k: nat, record: Record)
    requires LogStamped(h, log) && k < |log| && record.entered == log[k].entered
    ensures forall i :: 0 <= i < |log| ==>
              log[i].entered < |h| && log[k := record][i].entered == log[i].entered
              && (h + [e])[log[i].entered] == h[log[i].entered]
  {
    forall i | 0 <= i < |log| ensures log[i].entered < |h| {
      assert RecordStamped(h, log[i]);
    }
  }

  lemma OtherKept(h: seq<Event>, log: seq<Record>, thread: Thread, u: nat, e: Event, k: nat, record: Record)
    requires LogStamped(h, log) && ThreadStamped(h, log, thread, u) && e.t != u && k < |log|
    requires record.entered == log[k].entered < |h| && h[log[k].entered].t == e.t
    ensures ThreadStamped(h + [e], log[k := record], thread, u)
  {
    EntersKept(h, log, e, k, record);
  }

  lemma ReturnStamps(h: seq<Event>, c: System, t: nat)
    requires Shape(c.state) && Stamped(h, c) && Next(c, ReturnBy(t)).Some?
    ensures Stamped(h + [ReturnBy(t)], Next(c, ReturnBy(t)).value)
  {
    var e, d, k := ReturnBy(t), Next(c, ReturnBy(t)).value, c.threads[t].entry;
    assert ThreadStamped(h, c.log, c.threads[t], t);
    assert RecordStamped(h, c.log[k]);
    RecordChanges(h, c.log, e, k, d.log[k]);
    EntersKept(h, c.log, e, k, d.log[k]);
    forall u | 0 <= u < |c.threads| ensures ThreadStamped(h + [e], d.log, d.threads[u], u) {
      assert ThreadStamped(h, c.log, c.threads[u], u);
      if u != t {
        OtherKept(h, c.log, c.threads[u], u, e, k, d.log[k]);
      }
    }
  }

  lemma NextStamps(h: seq<Event>, c: System, e: Event)
    requires Shape(c.state) && Stamped(h, c) && Next(c, e).Some?
    ensures Stamped(h + [e], Next(c, e).value)
  {
    match e
    case CallBy(t, op) => CallStamps(h, c, t, op);
    case EnterBy(t) => EnterStamps(h, c, t);
    case WorkBy(t) => WorkStamps(h, c, t);
    case LeaveBy(t) => LeaveStamps(h, c, t);
    case ReturnBy(t) => ReturnStamps(h, c, t);
  }

  lemma FirstReached(c: System, events: seq<Event>, d: System) returns (next: System)
    requires Shape(c.state) && events != [] && Reaches(c, events, d)
    ensures Next(c, events[0]) == Some(next) && Shape(next.state) && Reaches(next, events[1..], d)
  {
    next := Next(c, events[0]).value;
  }

  lemma {:induction false} ReachesStamps(h: seq<Event>, c: System, events: seq<Event>, d: System)
    requires Shape(c.state) && Stamped(h, c) && Reaches(c, events, d)
    ensures Stamped(h + events, d)
    decreases |events|
  {
    if events == [] {
      assert h + events == h;
    } else {
      var next := FirstReached(c, events, d);
      NextStamps(h, c, events[0]);
      ReachesStamps(h + [events[0]], next, events[1..], d);
      HeadOfSecond(h, events);
    }
  }

  /** Call i returned before call j was made. */
  predicate ReturnedBefore(c: System, i: nat, j: nat)
    requires i < |c.log| && j < |c.log|
  {
    c.log[i].returned.Some? && c.log[i].returned.value < c.log[j].called
  }

  lemma FindRecord(h: seq<Event>, log: seq<Record>, t: nat, op: Request, q: nat, p: nat, r: Option<nat>)
    returns (i: nat)
    requires LogStamped(h, log) && IsCall(h, t, op, q, p, r)
    ensures i < |log| && log[i] == Record(op, q, p, log[i].reply, r)
  {
    assert h[p].EnterBy?;
    i :| 0 <= i < |log| && log[i].entered == p;
    var record := log[i];
    assert RecordStamped(h, record);
    assert record.called == q;
    if r.Some? && record.returned.Some? {
      assert record.returned.value == r.value;
    }
  }

  lemma StampsFromStart(s: State, threads: nat, events: seq<Event>, c: System)
    requires Shape(s) && Reaches(Initially(s, threads), events, c)
    ensures Stamped(events, c)
  {
    ReachesStamps([], Initially(s, threads), events, c);
    assert [] + events == events;
  }

  /** In any execution: a call that returned, by position in the execution, before another one was made
      took the mutex before it, and comes before it in the log. */
  lemma RealTimeOrder(s: State, threads: nat, events: seq<Event>, c: System,
                      t: nat, op: Request, q: nat, p: nat, r: nat,
                      t': nat, op': Request, q': nat, p': nat, r': Option<nat>) returns (i: nat, j: nat)
    requires Shape(s) && Reaches(Initially(s, threads), events, c)
    requires IsCall(events, t, op, q, p, Some(r)) && IsCall(events, t', op', q', p', r') && r < q'
    ensures i < j < |c.log| && c.log[i] == Record(op, q, p, c.log[i].reply, Some(r))
    ensures c.log[j] == Record(op', q', p', c.log[j].reply, r')
  {
    StampsFromStart(s, threads, events, c);
    i, j := OrderOfCalls(events, c.log, t, op, q, p, r, t', op', q', p', r');
  }

  lemma OrderOfCalls(h: seq<Event>, log: seq<Record>, t: nat, op: Request, q: nat, p: nat, r: nat,
                     t': nat, op': Request, q': nat, p': nat, r': Option<nat>) returns (i: nat, j: nat)
    requires LogStamped(h, log) && IsCall(h, t, op, q, p, Some(r)) && IsCall(h, t', op', q', p', r') && r < q'
    ensures i < j < |log| && log[i] == Record(op, q, p, log[i].reply, Some(r))
    ensures log[j] == Record(op', q', p', log[j].reply, r')
  {
    i := FindRecord(h, log, t, op, q, p, Some(r));
    j := FindRecord(h, log, t', op', q', p', r');
  }

  // ---------- whole executions ----------

  /** The system after a sequence of events that can happen one after another. */
  ghost predicate Reaches(c: System, events: seq<Event>, d: System)
    requires Shape(c.state)
    decreases |events|
  {
    if events == [] then c == d
    else
      && Next(c, events[0]).Some? && Shape(Next(c, events[0]).value.state)
      && Reaches(Next(c, events[0]).value, events[1..], d)
  }

  lemma NextKeeps(s: State, c: System, before: State, e: Event) returns (after: State)
    requires Shape(s) && Linear(s, c, before) && Next(c, e).Some?
    ensures Shape(after) && Linear(s, Next(c, e).value, after)
  {
    after := before;
    match e
    case CallBy(t, op) => CallKeeps(s, c, before, t, op);
    case EnterBy(t) => EnterKeeps(s, c, before, t);
    case WorkBy(t) => WorkKeeps(s, c, before, t);
    case LeaveBy(t) => LeaveKeeps(s, c, before, t); after := c.state;
    case ReturnBy(t) => ReturnKeeps(s, c, before, t);
  }

  lemma {:induction false} ReachesKeeps(s: State, c: System, before: State, events: seq<Event>, d: System)
    returns (after: State)
    requires Shape(s) && Linear(s, c, before) && Reaches(c, events, d)
    ensures Shape(after) && Linear(s, d, after)
    decreases |events|
  {
    if events == [] {
      after := before;
    } else {
      var next := NextKeeps(s, c, before, events[0]);
      after := ReachesKeeps(s, Next(c, events[0]).value, next, events[1..], d);
    }
  }

  /** Linearizability. After any interleaving of any number of threads: the log holds the calls of the
      execution, with the positions of their events, in the order in which they took the mutex, which
      respects real time; the finished ones have the replies of the sequential run in that order; when
      nobody holds the mutex the tables are those of that run; and only the thread inside its operation
      can hold it. */
  lemma Linearizable(s: State, threads: nat, events: seq<Event>, c: System)
    requires Shape(s) && Reaches(Initially(s, threads), events, c)
    ensures Stamped(events, c) && Exclusive(c) && 0 <= Done(c) <= |c.log|
    ensures var r := DoAll(s, Ops(c.log[..Done(c)]));
            && r.Ok? && Replays(s, c.log[..Done(c)], r.value.0)
            && (c.holder.None? ==> c.state == r.value.0)
    ensures forall i, j | 0 <= i < |c.log| && 0 <= j < |c.log| && ReturnedBefore(c, i, j) :: i < j
  {
    var c0 := Initially(s, threads);
    assert Linear(s, c0, s);
    var after := ReachesKeeps(s, c0, s, events, c);
    StampsFromStart(s, threads, events, c);
    forall i, j | 0 <= i < |c.log| && 0 <= j < |c.log| && ReturnedBefore(c, i, j) ensures i < j {
      assert RecordStamped(events, c.log[i]) && RecordStamped(events, c.log[j]);
    }
  }

  // ---------- progress ----------

  lemma NextMicroRuns(s: State, op: Request, p: Phase)
    requires Shape(s) && CanBeIn(s, op, p) && Rest(s, op, p).Ok?
    ensures Micro(s, op, p).Ok?
  {
  }

  /** The thread inside its operation can take its next micro-step, which brings it closer to
      the end, or is at the end and can give the mutex back. */
  ghost predicate CanMove(c: System)
    requires Shape(c.state)
  {
    c.holder.Some? && var t := c.holder.value;
    && t < |c.threads| && c.threads[t].Inside?
    && if c.threads[t].phase.Finished? then Next(c, LeaveBy(t)).Some? && Next(c, LeaveBy(t)).value.holder.None?
       else && Next(c, WorkBy(t)).Some?
            && var after := Next(c, WorkBy(t)).value.threads[t];
               after.Inside? && Rank(after.phase) < Rank(c.threads[t].phase)
  }

  lemma HolderMoves(c: System, before: State)
    requires Shape(before) && Shape(c.state) && c.holder.Some? && |c.log| > 0 && InProgress(c, before)
    requires Do(before, c.log[|c.log| - 1].op).Ok?
    ensures CanMove(c)
  {
    var t, k := c.holder.value, |c.log| - 1;
    if !c.threads[t].phase.Finished? {
      NextMicroRuns(c.state, c.log[k].op, c.threads[t].phase);
    }
  }

  /** When the finished calls respect what a client can see, their replies are those of the
      client's file system, and so are the tables once nobody holds the mutex. */
  lemma ThreadsSeeOneFileSystem(s: State, threads: nat, events: seq<Event>, c: System)
    requires Good(s) && FS.Coherent(Abs(s)) && Reaches(Initially(s, threads), events, c)
    requires 0 <= Done(c) <= |c.log| && FS.Allowed(Abs(s), Ops(c.log[..Done(c)]))
    ensures var r := FS.Run(Abs(s), Ops(c.log[..Done(c)]));
            && r.Ok? && |r.value.1| == Done(c)
            && (forall i :: 0 <= i < Done(c) ==> c.log[i].reply == Some(r.value.1[i]))
            && (c.holder.None? ==> Good(c.state) && Abs(c.state) == r.value.0)
  {
    Linearizable(s, threads, events, c);
    DoAllSimulates(s, Ops(c.log[..Done(c)]));
  }

  /** The finished calls of any interleaving run one after another, whatever they are. */
  lemma FinishedCalls(s: State, threads: nat, events: seq<Event>, c: System) returns (before: State)
    requires OneNamed(s) && Reaches(Initially(s, threads), events, c)
    ensures Shape(c.state) && Linear(s, c, before) && 0 <= Done(c) <= |c.log|
    ensures DoAll(s, Ops(c.log[..Done(c)])).Ok? && before == DoAll(s, Ops(c.log[..Done(c)])).value.0
    ensures OneNamed(before)
  {
    assert Linear(s, Initially(s, threads), s);
    before := ReachesKeeps(s, Initially(s, threads), s, events, c);
    DoAllAlways(s, Ops(c.log[..Done(c)]));
  }

  lemma StaysHeld(s: State, c: System, before: State, e: Event)
    requires Shape(s) && Linear(s, c, before) && c.holder.Some? && Next(c, e).Some?
    requires |c.log| > 0 && Do(before, c.log[|c.log| - 1].op).Abort?
    ensures var d := Next(c, e).value;
            && d.holder == c.holder && |d.log| == |c.log| && d.log[|c.log| - 1].op == c.log[|c.log| - 1].op
            && Linear(s, d, before)
  {
    match e
    case CallBy(t, op) => CallKeeps(s, c, before, t, op);
    case EnterBy(t) =>
    case WorkBy(t) => WorkKeeps(s, c, before, t);
    case LeaveBy(t) =>
    case ReturnBy(t) => ReturnKeeps(s, c, before, t);
  }

  lemma {:induction false} StaysHeldForever(s: State, c: System, before: State, events: seq<Event>, d: System)
    requires Shape(s) && Linear(s, c, before) && c.holder.Some? && Reaches(c, events, d)
    requires |c.log| > 0 && Do(before, c.log[|c.log| - 1].op).Abort?
    ensures d.holder == c.holder
    decreases |events|
  {
    if events == [] {
    } else {
      StaysHeld(s, c, before, events[0]);
      StaysHeldForever(s, Next(c, events[0]).value, before, events[1..], d);
    }
  }

  /** The mutex stays with its holder whatever happens next. */
  ghost predicate NeverComesBack(c: System)
    requires Shape(c.state)
  {
    forall events, d :: Reaches(c, events, d) ==> d.holder == c.holder
  }

  lemma AbortLosesMutex(s: State, c: System, before: State)
    requires Shape(s) && Linear(s, c, before) && c.holder.Some? && |c.log| > 0
    requires Do(before, c.log[|c.log| - 1].op).Abort?
    ensures NeverComesBack(c)
  {
    forall events, d | Reaches(c, events, d) ensures d.holder == c.holder {
      StaysHeldForever(s, c, before, events, d);
    }
  }

  /** Whatever was called before, safe or not: unless the call that is inside is astray on the tables it
      found, its thread can move on to the end, where it gives the mutex back; if it is astray, the mutex
      never comes back. */
  lemma MutexComesBack(s: State, threads: nat, events: seq<Event>, c: System) returns (before: State)
    requires OneNamed(s) && Reaches(Initially(s, threads), events, c) && c.holder.Some?
    ensures Shape(c.state) && 0 <= Done(c) < |c.log|
    ensures DoAll(s, Ops(c.log[..Done(c)])).Ok? && before == DoAll(s, Ops(c.log[..Done(c)])).value.0
    ensures OneNamed(before)
    ensures if Astray(before, c.log[Done(c)].op) then NeverComesBack(c) else CanMove(c)
  {
    before := FinishedCalls(s, threads, events, c);
    DoAlways(before, c.log[Done(c)].op);
    if Astray(before, c.log[Done(c)].op) {
      AbortLosesMutex(s, c, before);
    } else {
      HolderMoves(c, before);
    }
  }

  // ---------- every schedule can happen ----------

  /** An idle thread can make any call, and a waiting one can take the mutex whenever it is free. */
  lemma NobodyIsRefused(c: System, t: nat, op: Request)
    requires Shape(c.state) && t < |c.threads|
    ensures c.threads[t].Idle? ==>
              Next(c, CallBy(t, op)).Some? && Next(c, CallBy(t, op)).value.threads[t] == Waiting(op, c.clock)
    ensures c.threads[t].Waiting? && c.holder.None? ==>
              Next(c, EnterBy(t)).Some? && Next(c, EnterBy(t)).value.holder == Some(t)
  {
  }

  /** In any execution a thread that gave the mutex back can return. */
  lemma LeaverReturns(s: State, threads: nat, events: seq<Event>, c: System, t: nat)
    requires Shape(s) && Reaches(Initially(s, threads), events, c) && t < |c.threads| && c.threads[t].Leaving?
    ensures Shape(c.state) && Next(c, ReturnBy(t)).Some? && Next(c, ReturnBy(t)).value.threads[t].Idle?
  {
    assert Linear(s, Initially(s, threads), s);
    var before := ReachesKeeps(s, Initially(s, threads), s, events, c);
  }

  lemma ReachesCons(c: System, events: seq<Event>, next: System, d: System)
    requires Shape(c.state) && Shape(next.state) && events != [] && Next(c, events[0]) == Some(next)
    requires Reaches(next, events[1..], d)
    ensures Reaches(c, events, d)
  {
  }

  lemma {:induction false} ReachesThen(c: System, first: seq<Event>, d: System, second: seq<Event>, e: System)
    requires Shape(c.state) && Shape(d.state) && Reaches(c, first, d) && Reaches(d, second, e)
    ensures Reaches(c, first + second, e)
    decreases |first|
  {
    if first == [] {
      assert first + second == second;
    } else {
      var next := Next(c, first[0]).value;
      ReachesThen(next, first[1..], d, second, e);
      TailOfSum(first, second);
      ReachesCons(c, first + second, next, e);
    }
  }

  lemma ReachesOne(c: System, e: Event, d: System)
    requires Shape(c.state) && Shape(d.state) && Next(c, e) == Some(d)
    ensures Reaches(c, [e], d)
  {
    assert [e][1..] == [] && Reaches(d, [], d);
  }

  /** The holder works on to the end. */
  lemma {:induction false} WorkToEnd(s: State, c: System, before: State, t: nat, k: nat)
    returns (events: seq<Event>, d: System, reply: FS.Reply)
    requires Shape(s) && Linear(s, c, before) && c.holder == Some(t) && |c.log| == k + 1 && t < |c.threads|
    requires Do(before, c.log[k].op).Ok? && c.threads[t].Inside?
    ensures Reaches(c, events, d) && Linear(s, d, before) && d.log == c.log && d.holder == c.holder
    ensures d.threads == c.threads[t := Inside(k, Finished(reply))]
    ensures Do(before, c.log[k].op) == Ok((d.state, reply))
    decreases Rank(c.threads[t].phase)
  {
    if c.threads[t].phase.Finished? {
      events, d, reply := [], c, c.threads[t].phase.reply;
    } else {
      HolderMoves(c, before);
      WorkKeeps(s, c, before, t);
      WorkLeavesLog(c, t);
      var next := Next(c, WorkBy(t)).value;
      ReachesOne(c, WorkBy(t), next);
      var rest;
      rest, d, reply := WorkToEnd(s, next, before, t, k);
      events := [WorkBy(t)] + rest;
      ReachesThen(c, [WorkBy(t)], next, rest, d);
    }
  }

  /** One waiting thread takes the free mutex and does its work. */
  lemma Worked(s: State, c: System, t: nat) returns (events: seq<Event>, d: System)
    requires Shape(s) && Linear(s, c, c.state) && c.holder.None? && t < |c.threads| && c.threads[t].Waiting?
    requires Do(c.state, c.threads[t].op).Ok?
    ensures Reaches(c, events, d) && Linear(s, d, c.state) && d.holder == Some(t)
    ensures t < |d.threads| && d.threads[t].Inside? && d.threads[t].phase.Finished?
    ensures d.threads == c.threads[t := d.threads[t]]
    ensures Ops(d.log) == Ops(c.log) + [c.threads[t].op] && d.state == Do(c.state, c.threads[t].op).value.0
  {
    var entered := Next(c, EnterBy(t)).value;
    EnterKeeps(s, c, c.state, t);
    ReachesOne(c, EnterBy(t), entered);
    var work, last, reply := WorkToEnd(s, entered, c.state, t, |c.log|);
    ReachesThen(c, [EnterBy(t)], entered, work, last);
    events, d := [EnterBy(t)] + work, last;
  }

  /** Then it gives the mutex back and returns. */
  lemma Served(s: State, c: System, t: nat) returns (events: seq<Event>, d: System)
    requires Shape(s) && Linear(s, c, c.state) && c.holder.None? && t < |c.threads| && c.threads[t].Waiting?
    requires Do(c.state, c.threads[t].op).Ok?
    ensures Reaches(c, events, d) && Linear(s, d, d.state) && d.holder.None? && d.threads == c.threads[t := Idle]
    ensures Ops(d.log) == Ops(c.log) + [c.threads[t].op] && d.state == Do(c.state, c.threads[t].op).value.0
  {
    var work, done := Worked(s, c, t);
    var end, last := HandedBack(s, done, c.state, t);
    ReachesThen(c, work, done, end, last);
    events, d := work + end, last;
  }

  lemma Returned(s: State, c: System, t: nat) returns (events: seq<Event>, d: System)
    requires Shape(s) && Linear(s, c, c.state) && c.holder.None? && t < |c.threads| && c.threads[t].Leaving?
    ensures Reaches(c, events, d) && Linear(s, d, d.state) && d.holder.None? && d.threads == c.threads[t := Idle]
    ensures Ops(d.log) == Ops(c.log) && d.state == c.state
  {
    d := Next(c, ReturnBy(t)).value;
    ReturnKeeps(s, c, c.state, t);
    ReachesOne(c, ReturnBy(t), d);
    events := [ReturnBy(t)];
  }

  lemma HandedBack(s: State, c: System, before: State, t: nat) returns (events: seq<Event>, d: System)
    requires Shape(s) && Linear(s, c, before) && c.holder == Some(t) && t < |c.threads|
    requires c.threads[t].Inside? && c.threads[t].phase.Finished?
    ensures Reaches(c, events, d) && Linear(s, d, d.state) && d.holder.None? && d.threads == c.threads[t := Idle]
    ensures Ops(d.log) == Ops(c.log) && d.state == c.state
  {
    var left := Next(c, LeaveBy(t)).value;
    LeaveKeeps(s, c, before, t);
    ReachesOne(c, LeaveBy(t), left);
    var end, last := Returned(s, left, t);
    ReachesThen(c, [LeaveBy(t)], left, end, last);
    events, d := [LeaveBy(t)] + end, last;
  }

  /** The operations can be run one after another from s on, with these tables at the end. */
  ghost predicate RunTo(s: State, ops: seq<Request>, last: State)
    requires Shape(s)
  {
    DoAll(s, ops).Ok? && DoAll(s, ops).value.0 == last
  }

  lemma RunToRest(s: State, ops: seq<Request>, last: State)
    requires Shape(s) && ops != [] && RunTo(s, ops, last)
    ensures Do(s, ops[0]).Ok? && RunTo(Do(s, ops[0]).value.0, ops[1..], last)
  {
  }

  /** These threads wait, each with its operation. */
  ghost predicate AllWait(threads: seq<Thread>, order: seq<nat>, ops: seq<Request>) {
    && |order| == |ops|
    && (forall i :: 0 <= i < |order| ==>
         order[i] < |threads| && threads[order[i]].Waiting? && threads[order[i]].op == ops[i])
    && (forall i, j :: 0 <= i < j < |order| ==> order[i] != order[j])
  }

  lemma OthersWait(threads: seq<Thread>, order: seq<nat>, ops: seq<Request>)
    requires order != [] && AllWait(threads, order, ops)
    ensures AllWait(threads[order[0] := Idle], order[1..], ops[1..])
    ensures forall t :: t in order <==> t == order[0] || t in order[1..]
  {
    var rest := order[1..];
    assert forall i :: 0 <= i < |rest| ==> rest[i] == order[i + 1] && ops[1..][i] == ops[i + 1];
    assert order == [order[0]] + rest;
  }

  /** Threads that wait for the free mutex can be served in any order in which no operation aborts. */
  lemma {:induction false} AnyOrder(s: State, c: System, order: seq<nat>, ops: seq<Request>, last: State)
    returns (events: seq<Event>, d: System)
    requires Shape(s) && Linear(s, c, c.state) && c.holder.None? && AllWait(c.threads, order, ops)
    requires RunTo(c.state, ops, last)
    ensures Reaches(c, events, d) && d.holder.None? && d.state == last
    ensures Ops(d.log) == Ops(c.log) + ops && |d.threads| == |c.threads|
    ensures forall t :: 0 <= t < |c.threads| ==> d.threads[t] == if t in order then Idle else c.threads[t]
    decreases |order|
  {
    if order == [] {
      events, d := [], c;
    } else {
      RunToRest(c.state, ops, last);
      OthersWait(c.threads, order, ops);
      var first, next := Served(s, c, order[0]);
      var more;
      more, d := AnyOrder(s, next, order[1..], ops[1..], last);
      ReachesThen(c, first, next, more, d);
      events := first + more;
      HeadOfSecond(Ops(c.log), ops);
    }
  }

  /** All threads call before any of them takes the mutex. */
  lemma {:induction false} AllCall(s: State, c: System, ops: seq<Request>, n: nat)
    returns (events: seq<Event>, d: System)
    requires Shape(s) && Linear(s, c, c.state) && c.holder.None? && n <= |ops| == |c.threads|
    requires forall t :: n <= t < |ops| ==> c.threads[t].Idle?
    ensures Reaches(c, events, d) && Linear(s, d, d.state) && d.holder.None? && d.state == c.state && d.log == c.log
    ensures |d.threads| == |ops| && forall t :: 0 <= t < n ==> d.threads[t] == c.threads[t]
    ensures forall t :: n <= t < |ops| ==> d.threads[t].Waiting? && d.threads[t].op == ops[t]
    ensures forall i :: 0 <= i < |events| ==> events[i].CallBy?
    decreases |ops| - n
  {
    if n == |ops| {
      events, d := [], c;
    } else {
      var next := Next(c, CallBy(n, ops[n])).value;
      CallKeeps(s, c, c.state, n, ops[n]);
      ReachesOne(c, CallBy(n, ops[n]), next);
      var more;
      more, d := AllCall(s, next, ops, n + 1);
      ReachesThen(c, [CallBy(n, ops[n])], next, more, d);
      events := [CallBy(n, ops[n])] + more;
    }
  }

  /** Any number of overlapping calls, one by each thread, can be carried out to the end, in any order in
      which none of them is astray: some execution makes them all before any takes the mutex, and then
      takes it in that order. */
  lemma EveryOrderHappens(s: State, ops: seq<Request>, order: seq<nat>, chosen: seq<Request>)
    returns (calls: seq<Event>, work: seq<Event>, c: System)
    requires OneNamed(s) && |order| == |ops| == |chosen| && NoneAstray(s, chosen)
    requires forall i :: 0 <= i < |order| ==> order[i] < |ops| && chosen[i] == ops[order[i]]
    requires forall i, j :: 0 <= i < j < |order| ==> order[i] != order[j]
    ensures Reaches(Initially(s, |ops|), calls + work, c) && forall i :: 0 <= i < |calls| ==> calls[i].CallBy?
    ensures Ops(c.log) == chosen && c.holder.None? && RunTo(s, chosen, c.state)
    ensures forall t :: 0 <= t < |c.threads| && t in order ==> c.threads[t].Idle?
  {
    DoAllAlways(s, chosen);
    calls, work, c := ContendedRun(s, ops, order, chosen);
  }

  lemma ContendedRun(s: State, ops: seq<Request>, order: seq<nat>, chosen: seq<Request>)
    returns (calls: seq<Event>, work: seq<Event>, c: System)
    requires Shape(s) && |order| == |ops| == |chosen| && DoAll(s, chosen).Ok?
    requires forall i :: 0 <= i < |order| ==> order[i] < |ops| && chosen[i] == ops[order[i]]
    requires forall i, j :: 0 <= i < j < |order| ==> order[i] != order[j]
    ensures Reaches(Initially(s, |ops|), calls + work, c) && forall i :: 0 <= i < |calls| ==> calls[i].CallBy?
    ensures Ops(c.log) == chosen && c.holder.None? && RunTo(s, chosen, c.state)
    ensures forall t :: 0 <= t < |c.threads| && t in order ==> c.threads[t].Idle?
  {
    var c0 := Initially(s, |ops|);
    assert Linear(s, c0, s);
    var made;
    calls, made := AllCall(s, c0, ops, 0);
    work, c := AnyOrder(s, made, order, chosen, DoAll(s, chosen).value.0);
    ReachesThen(c0, calls, made, work, c);
    assert Ops(c0.log) == [] && [] + chosen == chosen;
  }

  /** An idle thread makes a call, and is served. */
  lemma OneMore(s: State, c: System, op: Request, t: nat) returns (events: seq<Event>, d: System)
    requires Shape(s) && Linear(s, c, c.state) && c.holder.None? && t < |c.threads| && c.threads[t].Idle?
    requires Do(c.state, op).Ok?
    ensures Reaches(c, events, d) && Linear(s, d, d.state) && d.holder.None? && d.threads == c.threads
    ensures Ops(d.log) == Ops(c.log) + [op] && d.state == Do(c.state, op).value.0
  {
    var made := Next(c, CallBy(t, op)).value;
    CallKeeps(s, c, c.state, t, op);
    ReachesOne(c, CallBy(t, op), made);
    var served, last := Served(s, made, t);
    ReachesThen(c, [CallBy(t, op)], made, served, last);
    events, d := [CallBy(t, op)] + served, last;
  }

  /** Calls one after another, each by a thread of one's choice. */
  lemma {:induction false} CarriedOn(s: State, c: System, ops: seq<Request>, who: seq<nat>, last: State)
    returns (events: seq<Event>, d: System)
    requires Shape(s) && Linear(s, c, c.state) && c.holder.None? && |who| == |ops| && RunTo(c.state, ops, last)
    requires forall t :: 0 <= t < |c.threads| ==> c.threads[t].Idle?
    requires forall i :: 0 <= i < |who| ==> who[i] < |c.threads|
    ensures Reaches(c, events, d) && d.state == last && d.holder.None? && d.threads == c.threads
    ensures Ops(d.log) == Ops(c.log) + ops
    decreases |ops|
  {
    if ops == [] {
      events, d := [], c;
    } else {
      RunToRest(c.state, ops, last);
      var first, next := OneMore(s, c, ops[0], who[0]);
      var more;
      more, d := CarriedOn(s, next, ops[1..], who[1..], last);
      ReachesThen(c, first, next, more, d);
      events := first + more;
      HeadOfSecond(Ops(c.log), ops);
    }
  }

  /** Any sequence of calls of which none is astray can be carried out to the end, by any threads. */
  lemma EverySequenceHappens(s: State, threads: nat, ops: seq<Request>, who: seq<nat>)
    returns (events: seq<Event>, c: System)
    requires OneNamed(s) && |who| == |ops| && NoneAstray(s, ops) && forall i :: 0 <= i < |who| ==> who[i] < threads
    ensures Reaches(Initially(s, threads), events, c) && Ops(c.log) == ops && c.holder.None?
    ensures RunTo(s, ops, c.state) && |c.threads| == threads
    ensures forall t :: 0 <= t < threads ==> c.threads[t].Idle?
  {
    DoAllAlways(s, ops);
    events, c := SequenceRun(s, threads, ops, who);
  }

  lemma SequenceRun(s: State, threads: nat, ops: seq<Request>, who: seq<nat>)
    returns (events: seq<Event>, c: System)
    requires Shape(s) && |who| == |ops| && DoAll(s, ops).Ok? && forall i :: 0 <= i < |who| ==> who[i] < threads
    ensures Reaches(Initially(s, threads), events, c) && Ops(c.log) == ops && c.holder.None?
    ensures RunTo(s, ops, c.state) && |c.threads| == threads
    ensures forall t :: 0 <= t < threads ==> c.threads[t].Idle?
  {
    var c0 := Initially(s, threads);
    assert Linear(s, c0, s);
    events, c := CarriedOn(s, c0, ops, who, DoAll(s, ops).value.0);
    assert Ops(c0.log) == [] && [] + ops == ops;
  }
}
