/** A pipe's bytes and its ends together: what a read that returns 0 says about the bytes
    (user/lib/pipe.c). */
module Drain {
  import P = Pipe
  import E = PipeEnds

  /** `p`: ring, reader and writer; `e`: all envs' descriptors, and the reader asking whether
      the pipe is closed; `writer`: the env that writes. */
  datatype State = State(p: P.State, e: E.State, writer: nat)

  /** A memory access of reader or writer, a system call or scheduling, or a step of
      _pipe_is_closed. */
  datatype Step = Bytes(byStep: P.Step) | Ends(endStep: E.Step)

  /** The env's descriptors are its own to use: it is current and in no close or dup. */
  predicate Executes(e: E.State, env: nat) {
    e.cur == env && env in e.procs && e.procs[env].todo == []
  }

  /** The env has the end mapped, as it must be during a call on it. */
  ghost predicate Has(e: E.State, env: nat, end: E.FdPage) {
    env in e.procs && exists i :: 0 <= i < |e.procs[env].table| && e.procs[env].table[i].fd == end
  }

  /** The asker's descriptor is its read end. */
  predicate ReadsEnd(e: E.State) {
    e.asker in e.procs && e.fd < |e.procs[e.asker].table| && e.procs[e.asker].table[e.fd].fd == E.ReadEnd
  }

  /** An env inside pipe_read or pipe_write does not start a close or dup. */
  predicate Busy(s: State) {
    (s.e.cur == s.e.asker && s.p.r.pc != P.RIdle) || (s.e.cur == s.writer && s.p.w.pc != P.WIdle)
  }

  ghost predicate Enabled(s: State, step: Step) {
    match step
    case Bytes(ReadCall(n)) => P.Enabled(s.p, P.ReadCall(n)) && Executes(s.e, s.e.asker) && ReadsEnd(s.e)
    case Bytes(Read(closed)) =>
      && P.Enabled(s.p, P.Read(closed)) && Executes(s.e, s.e.asker)
      && (s.p.r.pc == P.REmpty && s.p.r.i == 0 ==> s.e.pc == E.Answer(closed))
    case Bytes(WriteCall(buf)) =>
      P.Enabled(s.p, P.WriteCall(buf)) && Executes(s.e, s.writer) && Has(s.e, s.writer, E.WriteEnd)
    case Bytes(Write(closed)) =>
      P.Enabled(s.p, P.Write(closed)) && Executes(s.e, s.writer) && Has(s.e, s.writer, E.WriteEnd)
    case Ends(Ask) => E.Enabled(s.e, E.Ask) && s.p.r.pc == P.REmpty
    case Ends(Close(i)) => E.Enabled(s.e, E.Close(i)) && !Busy(s)
    case Ends(Dup(src, dst)) => E.Enabled(s.e, E.Dup(src, dst)) && !Busy(s)
    case Ends(step) => E.Enabled(s.e, step)
  }

  /** Every look at the answer needs a new question. */
  ghost function Do(s: State, step: Step): State
    requires Enabled(s, step)
  {
    match step
    case Bytes(b) =>
      var p := P.Do(s.p, b);
      s.(p := p, e := if b.Read? then s.e.(pc := E.Head) else s.e)
    case Ends(step) => s.(e := E.Do(s.e, step))
  }

  ghost predicate Inv(s: State) {
    && P.Inv(s.p) && E.Inv(s.e)
    && (s.p.r.pc != P.RIdle ==> ReadsEnd(s.e) && s.e.procs[s.e.asker].todo == [])
    && (s.p.r.pc != P.REmpty ==> s.e.pc == E.Head)
    && (s.e.pc == E.Answer(true) ==> E.Refs(s.e.procs, E.WriteEnd) == {})
  }

  lemma HasIsReferenced(e: E.State, env: nat, end: E.FdPage)
    requires Has(e, env, end)
    ensures E.Refs(e.procs, end) != {}
  {
    var i :| 0 <= i < |e.procs[env].table| && e.procs[env].table[i].fd == end;
    assert E.At(env, i) in E.Refs(e.procs, end);
  }

  lemma BytesKeep(s: State, b: P.Step)
    requires Inv(s) && Enabled(s, Bytes(b))
    ensures Inv(Do(s, Bytes(b)))
  {
    P.StepKeeps(s.p, b);
  }

  lemma EndsKeep(s: State, step: E.Step)
    requires Inv(s) && Enabled(s, Ends(step))
    ensures Inv(Do(s, Ends(step)))
  {
    E.StepKeeps(s.e, step);
    if s.e.pc == E.Answer(true) { E.GoneStaysGone(s.e, step, E.WriteEnd); }
    if step == E.Ask && s.e.pc.Test? && E.Do(s.e, E.Ask).pc.Answer? { E.NoFalseClose(s.e, E.WriteEnd); }
  }

  lemma StepKeeps(s: State, step: Step)
    requires Inv(s) && Enabled(s, step)
    ensures Inv(Do(s, step))
  {
    match step
    case Bytes(b) => BytesKeep(s, b);
    case Ends(e) => EndsKeep(s, e);
  }

  ghost predicate Legal(s: State, steps: seq<Step>)
    decreases |steps|
  {
    steps != [] ==> Enabled(s, steps[0]) && Legal(Do(s, steps[0]), steps[1..])
  }

  ghost function Run(s: State, steps: seq<Step>): State
    requires Legal(s, steps)
    decreases |steps|
  {
    if steps == [] then s else Run(Do(s, steps[0]), steps[1..])
  }

  lemma {:induction false} RunsKeep(s: State, steps: seq<Step>)
    requires Inv(s) && Legal(s, steps)
    ensures Inv(Run(s, steps))
    decreases |steps|
  {
    if steps != [] {
      StepKeeps(s, steps[0]);
      RunsKeep(Do(s, steps[0]), steps[1..]);
    }
  }

  /** With no write end left, nothing is written any more. */
  lemma {:induction false} NothingMore(s: State, steps: seq<Step>)
    requires Inv(s) && Legal(s, steps) && E.Refs(s.e.procs, E.WriteEnd) == {}
    ensures Run(s, steps).p.h.sent == s.p.h.sent
    decreases |steps|
  {
    if steps != [] {
      var t := Do(s, steps[0]);
      StepKeeps(s, steps[0]);
      match steps[0] {
        case Bytes(b) => if b.Write? || b.WriteCall? { HasIsReferenced(s.e, s.writer, E.WriteEnd); }
        case Ends(e) => E.GoneStaysGone(s.e, e, E.WriteEnd);
      }
      NothingMore(t, steps[1..]);
    }
  }

  /** What pipe leaves behind. */
  ghost predicate New(s: State) {
    s.p == P.NewPipe() && E.Quiet(s.e)
  }

  lemma NewIsOk(s: State)
    requires New(s)
    ensures Inv(s)
  {
    forall e | e in s.e.procs ensures E.Safe(s.e.procs[e]) { assert |s.e.procs[e].table| == E.MAXFD; }
  }

  /** The step in which a read of at least one byte returns 0. */
  ghost predicate ReturnsZero(s: State, closed: bool) {
    && Enabled(s, Bytes(P.Read(closed))) && s.p.r.n > 0
    && var t := Do(s, Bytes(P.Read(closed))); t.p.r.pc == P.RIdle && t.p.r.ret == 0
  }

  /** End of file: when a read returns 0, in whatever run of a new pipe, every byte written
      before its last look at the ring has been read; nothing is written any more, ever; so the
      pipe is drained for good if and only if no write was completed between that look and the
      answer that the pipe is closed. */
  lemma EndOfFile(s: State, steps: seq<Step>, closed: bool, more: seq<Step>)
    requires New(s) && Legal(s, steps) && ReturnsZero(Run(s, steps), closed)
    requires Legal(Do(Run(s, steps), Bytes(P.Read(closed))), more)
    ensures var u := Run(s, steps); var t := Do(u, Bytes(P.Read(closed)));
      && closed && u.p.h.seen <= |u.p.h.sent| && t.p.h.got == u.p.h.sent[..u.p.h.seen]
      && Run(t, more).p.h.sent == t.p.h.sent == u.p.h.sent
      && (t.p.h.got == Run(t, more).p.h.sent <==> u.p.h.seen == |u.p.h.sent|)
  {
    NewIsOk(s);
    RunsKeep(s, steps);
    var u := Run(s, steps);
    var t := Do(u, Bytes(P.Read(closed)));
    StepKeeps(u, Bytes(P.Read(closed)));
    assert u.p.r.pc == P.REmpty;
    NothingMore(t, more);
  }

  // ---- A read that returns 0 too early ------------------------------------------------------------

  lemma {:induction false} OneMore(s: State, steps: seq<Step>, step: Step) returns (more: seq<Step>)
    requires Legal(s, steps) && Enabled(Run(s, steps), step)
    ensures Legal(s, more) && Run(s, more) == Do(Run(s, steps), step)
    decreases |steps|
  {
    if steps == [] {
      more := [step];
      assert [step][1..] == [];
      assert Run(s, more) == Run(Do(s, step), []);
    } else {
      var rest := OneMore(Do(s, steps[0]), steps[1..], step);
      more := [steps[0]] + rest;
      assert more[1..] == rest;
    }
  }

  function Closed(): E.Entry { E.Entry(E.NoFd, E.NoData) }

  /** One descriptor, and nothing else in use. */
  function Table(entry: E.Entry): seq<E.Entry> {
    seq(E.MAXFD, i => if i == 0 then entry else Closed())
  }

  function ReaderTable(): seq<E.Entry> { Table(E.Entry(E.ReadEnd, E.ThePipe)) }

  /** Env 1 has the read end, env 2 the descriptor given and `todo` to do. */
  function Two(entry: E.Entry, todo: seq<E.Op>): map<nat, E.Proc> {
    map[1 := E.Proc(ReaderTable(), []), 2 := E.Proc(Table(entry), todo)]
  }

  const WRITE_END := E.Entry(E.WriteEnd, E.ThePipe)

  function Start(): State {
    State(P.NewPipe(), E.State(Two(WRITE_END, []), 1, map[1 := 0, 2 := 0], 1, 0, E.Head), 2)
  }

  lemma TableIsExact(entry: E.Entry)
    requires E.PipeFd(entry.fd) <==> entry.data == E.ThePipe
    ensures |Table(entry)| == E.MAXFD && E.Exact(Table(entry))
  {
    forall i | 0 <= i < E.MAXFD ensures Table(entry)[i] == if i == 0 then entry else Closed() {}
  }

  lemma StartIsNew()
    ensures New(Start())
  {
    TableIsExact(E.Entry(E.ReadEnd, E.ThePipe));
    TableIsExact(WRITE_END);
  }

  /** The reader has found the ring empty, and is about to ask; nothing else has happened. */
  ghost predicate Looked(s: State) {
    && s.p == P.NewPipe().(r := P.Reader(P.REmpty, 1, 0, [], 0))
    && s.e == Start().e && s.writer == 2 && s.p.h.seen == 0
  }

  lemma Look() returns (steps: seq<Step>)
    ensures Legal(Start(), steps) && Looked(Run(Start(), steps))
  {
    steps := [];
    steps := OneMore(Start(), steps, Bytes(P.ReadCall(1)));
    steps := OneMore(Start(), steps, Bytes(P.Read(false)));
    steps := OneMore(Start(), steps, Bytes(P.Read(false)));
    steps := OneMore(Start(), steps, Bytes(P.Read(false)));
  }

  /** Meanwhile the writer has written one byte. */
  ghost predicate Wrote(s: State) {
    && s.p.r == P.Reader(P.REmpty, 1, 0, [], 0) && s.p.w.pc == P.WIdle && |s.p.p.buf| == P.PIPE_SIZE
    && |s.p.h.sent| == 1 && s.writer == 2 && s.p.h.seen == 0
    && s.e == Start().e.(cur := 2, runs := map[1 := 0, 2 := 1])
  }

  lemma WriterHasEnd(e: E.State)
    requires e.procs == Two(WRITE_END, [])
    ensures Has(e, 2, E.WriteEnd)
  {
    assert e.procs[2].table[0].fd == E.WriteEnd;
  }

  /** Inside pipe_write of one byte, with it in the ring or not, and counted or not. */
  ghost predicate Writing(s: State, pc: P.WritePc, stored: bool, counted: bool) {
    var zeros := P.NewPipe().p.buf;
    && s.p.p == P.Ring(0, if counted then 1 else 0, if stored then zeros[0 := 7] else zeros)
    && s.p.r == P.Reader(P.REmpty, 1, 0, [], 0) && s.p.w == P.Writer(pc, [7], if counted then 1 else 0, 0)
    && s.p.h == P.History(if counted then [7] else [], [], 0, 0, 0, 0, false) && s.writer == 2
    && s.e == Start().e.(cur := 2, runs := map[1 := 0, 2 := 1])
  }

  lemma BeginWrite(steps: seq<Step>) returns (more: seq<Step>)
    requires Legal(Start(), steps) && Looked(Run(Start(), steps))
    ensures Legal(Start(), more) && Writing(Run(Start(), more), P.WFor, false, false)
  {
    more := OneMore(Start(), steps, Ends(E.Schedule(2)));
    WriterHasEnd(Run(Start(), more).e);
    more := OneMore(Start(), more, Bytes(P.WriteCall([7])));
  }

  lemma FindRoom(steps: seq<Step>) returns (more: seq<Step>)
    requires Legal(Start(), steps) && Writing(Run(Start(), steps), P.WFor, false, false)
    ensures Legal(Start(), more) && Writing(Run(Start(), more), P.WIndex, false, false)
  {
    WriterHasEnd(Run(Start(), steps).e);
    more := OneMore(Start(), steps, Bytes(P.Write(false)));
    more := OneMore(Start(), more, Bytes(P.Write(false)));
    more := OneMore(Start(), more, Bytes(P.Write(false)));
  }

  lemma PutByte(steps: seq<Step>) returns (more: seq<Step>)
    requires Legal(Start(), steps) && Writing(Run(Start(), steps), P.WIndex, false, false)
    ensures Legal(Start(), more) && Writing(Run(Start(), more), P.WLoad, true, false)
  {
    WriterHasEnd(Run(Start(), steps).e);
    more := OneMore(Start(), steps, Bytes(P.Write(false)));
    more := OneMore(Start(), more, Bytes(P.Write(false)));
  }

  lemma CountByte(steps: seq<Step>) returns (more: seq<Step>)
    requires Legal(Start(), steps) && Writing(Run(Start(), steps), P.WLoad, true, false)
    ensures Legal(Start(), more) && Writing(Run(Start(), more), P.WFor, true, true)
  {
    WriterHasEnd(Run(Start(), steps).e);
    more := OneMore(Start(), steps, Bytes(P.Write(false)));
    more := OneMore(Start(), more, Bytes(P.Write(false)));
  }

  lemma EndWrite(steps: seq<Step>) returns (more: seq<Step>)
    requires Legal(Start(), steps) && Writing(Run(Start(), steps), P.WFor, true, true)
    ensures Legal(Start(), more) && Wrote(Run(Start(), more))
  {
    WriterHasEnd(Run(Start(), steps).e);
    more := OneMore(Start(), steps, Bytes(P.Write(false)));
  }

  lemma Write(steps: seq<Step>) returns (more: seq<Step>)
    requires Legal(Start(), steps) && Looked(Run(Start(), steps))
    ensures Legal(Start(), more) && Wrote(Run(Start(), more))
  {
    more := BeginWrite(steps);
    more := FindRoom(more);
    more := PutByte(more);
    more := CountByte(more);
    more := EndWrite(more);
  }

  /** It has closed its end, and the reader goes on. */
  ghost predicate WriterGone(s: State) {
    && s.p.r == P.Reader(P.REmpty, 1, 0, [], 0) && |s.p.p.buf| == P.PIPE_SIZE && |s.p.h.sent| == 1 && s.p.h.seen == 0
    && s.e == E.State(Two(Closed(), []), 1, map[1 := 1, 2 := 1], 1, 0, E.Head)
  }

  /** The writer is in close, with these calls to make. */
  ghost predicate Closing(s: State, entry: E.Entry, todo: seq<E.Op>) {
    && s.p.r == P.Reader(P.REmpty, 1, 0, [], 0) && s.p.w.pc == P.WIdle && |s.p.p.buf| == P.PIPE_SIZE
    && |s.p.h.sent| == 1 && s.writer == 2 && s.p.h.seen == 0
    && s.e == E.State(Two(entry, todo), 2, map[1 := 0, 2 := 1], 1, 0, E.Head)
  }

  lemma CloseCall(steps: seq<Step>, entry: E.Entry, next: E.Entry, op: E.Op, todo: seq<E.Op>) returns (more: seq<Step>)
    requires Legal(Start(), steps) && Closing(Run(Start(), steps), entry, [op] + todo) && op.i == 0
    requires (op.UnmapFd? && next == entry.(fd := E.NoFd)) || (op.UnmapData? && next == entry.(data := E.NoData))
    ensures Legal(Start(), more) && Closing(Run(Start(), more), next, todo)
  {
    var s := Run(Start(), steps);
    assert ([op] + todo)[1..] == todo;
    assert Table(entry)[0 := next] == Table(next);
    assert s.e.procs[2 := E.Proc(Table(next), todo)] == Two(next, todo);
    more := OneMore(Start(), steps, Ends(E.Syscall(false)));
  }

  lemma CloseEnd(steps: seq<Step>) returns (more: seq<Step>)
    requires Legal(Start(), steps) && Wrote(Run(Start(), steps))
    ensures Legal(Start(), more) && WriterGone(Run(Start(), more))
  {
    more := OneMore(Start(), steps, Ends(E.Close(0)));
    var ops := [E.UnmapFd(0)] + ([E.UnmapData(0)] + ([E.UnmapFd(0)] + []));
    assert [E.UnmapFd(0), E.UnmapData(0), E.UnmapFd(0)] == ops;
    assert Run(Start(), more).e.procs == Two(WRITE_END, ops);
    var half := E.Entry(E.NoFd, E.ThePipe);
    more := CloseCall(more, WRITE_END, half, E.UnmapFd(0), [E.UnmapData(0)] + ([E.UnmapFd(0)] + []));
    more := CloseCall(more, half, Closed(), E.UnmapData(0), [E.UnmapFd(0)] + []);
    more := CloseCall(more, Closed(), Closed(), E.UnmapFd(0), []);
    more := OneMore(Start(), more, Ends(E.Schedule(1)));
  }

  lemma OneReference()
    ensures E.Refs(Two(Closed(), []), E.ReadEnd) == {E.At(1, 0)} == E.PipeRefs(Two(Closed(), []))
  {
  }

  /** _pipe_is_closed answers 1. */
  lemma Ask(steps: seq<Step>) returns (more: seq<Step>)
    requires Legal(Start(), steps) && WriterGone(Run(Start(), steps))
    ensures Legal(Start(), more)
    ensures var t := Run(Start(), more); WriterGone(t.(e := t.e.(pc := E.Head))) && t.e.pc == E.Answer(true)
  {
    OneReference();
    more := OneMore(Start(), steps, Ends(E.Ask));
    more := OneMore(Start(), more, Ends(E.Ask));
    more := OneMore(Start(), more, Ends(E.Ask));
    more := OneMore(Start(), more, Ends(E.Ask));
  }

  /** The reader looks, a byte is written and the write end closed, the reader asks: its read
      returns 0, and the byte stays in the pipe for ever. */
  lemma ZeroTooEarly()
    ensures exists s, steps ::
      && New(s) && Legal(s, steps) && ReturnsZero(Run(s, steps), true)
      && Run(s, steps).p.h.seen < |Run(s, steps).p.h.sent|
  {
    StartIsNew();
    var steps := Look();
    steps := Write(steps);
    steps := CloseEnd(steps);
    steps := Ask(steps);
    assert ReturnsZero(Run(Start(), steps), true);
  }
}
