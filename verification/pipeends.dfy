/** End of pipe by reference counts: dup and close run one system call at a time, in any
    interleaving, and _pipe_is_closed samples the counts between them (user/lib/pipe.c,
    user/lib/fd.c). */
module PipeEnds {
  const MAXFD := 32

  /** What is mapped at a descriptor's Fd page, for the one pipe looked at. */
  datatype FdPage = NoFd | ReadEnd | WriteEnd | OtherFd

  /** What is mapped at its data page. */
  datatype DataPage = NoData | ThePipe | OtherData

  datatype Entry = Entry(fd: FdPage, data: DataPage)

  /** One system call of close or dup, `i` the descriptor it changes. */
  datatype Op = UnmapFd(i: nat) | UnmapData(i: nat) | MapData(src: nat, i: nat) | MapFd(src: nat, i: nat)

  /** An env: its descriptors, and what its current dup or close still has to do. */
  datatype Proc = Proc(table: seq<Entry>, todo: seq<Op>)

  predicate InTable(table: seq<Entry>, op: Op) {
    op.i < |table| && (op.MapData? || op.MapFd? ==> op.src < |table|)
  }

  // ---- The programs ---------------------------------------------------------------------------

  /** close: nothing for an unused descriptor; pipe_close, then fd_close. */
  function CloseOps(table: seq<Entry>, i: nat): (ops: seq<Op>)
    requires i < |table|
    ensures forall k :: 0 <= k < |ops| ==> ops[k].i == i && !MayFail(ops[k])
  {
    match table[i].fd
    case NoFd => []
    case OtherFd => [UnmapData(i), UnmapFd(i)]
    case _ => [UnmapFd(i), UnmapData(i), UnmapFd(i)]
  }

  /** dup: close the new descriptor, map the data page, then the Fd page. */
  function DupOps(table: seq<Entry>, src: nat, dst: nat): seq<Op>
    requires src < |table| && dst < |table|
  {
    CloseOps(table, dst) + ShareOps(src, dst)
  }

  function ShareOps(src: nat, dst: nat): (ops: seq<Op>)
    ensures |ops| == 2 && ops[0] == MapData(src, dst) && ops[1] == MapFd(src, dst)
  {
    [MapData(src, dst), MapFd(src, dst)]
  }

  /** dup's error exit. */
  function UndoOps(dst: nat): (ops: seq<Op>)
    ensures Maps(ops) == 0
  {
    assert [UnmapFd(dst), UnmapData(dst)][1..] == [UnmapData(dst)] && [UnmapData(dst)][1..] == [];
    assert Maps([]) == 0 && Maps([UnmapData(dst)]) == 0;
    [UnmapFd(dst), UnmapData(dst)]
  }

  function Maps(todo: seq<Op>): nat {
    if todo == [] then 0 else Maps(todo[1..]) + if MayFail(todo[0]) then 1 else 0
  }

  /** The system call's effect; a data page that is not there is not mapped on. */
  function Apply(table: seq<Entry>, op: Op): (r: seq<Entry>)
    requires InTable(table, op)
    ensures |r| == |table|
  {
    var t := table[op.i];
    match op
    case UnmapFd(i) => table[i := t.(fd := NoFd)]
    case UnmapData(i) => table[i := t.(data := NoData)]
    case MapData(src, i) => if table[src].data == NoData then table else table[i := t.(data := table[src].data)]
    case MapFd(src, i) => if table[src].fd == NoFd then table else table[i := t.(fd := table[src].fd)]
  }

  /** The mapping calls may fail for want of memory; MapFd fails if there is nothing to map. */
  predicate MayFail(op: Op) {
    op.MapData? || op.MapFd?
  }

  predicate MustFail(table: seq<Entry>, op: Op)
    requires InTable(table, op)
  {
    op.MapFd? && table[op.src].fd == NoFd
  }

  /** What the env goes on to do after its next call succeeded or failed. */
  function After(p: Proc, fails: bool): Proc
    requires p.todo != [] && InTable(p.table, p.todo[0])
  {
    if fails then Proc(p.table, UndoOps(p.todo[0].i)) else Proc(Apply(p.table, p.todo[0]), p.todo[1..])
  }

  predicate CanGo(p: Proc, fails: bool) {
    && p.todo != [] && InTable(p.table, p.todo[0])
    && (fails ==> MayFail(p.todo[0])) && (MustFail(p.table, p.todo[0]) ==> fails)
  }

  predicate AllIn(ops: seq<Op>, n: nat) {
    forall i :: 0 <= i < |ops| ==> ops[i].i < n && (ops[i].MapData? || ops[i].MapFd? ==> ops[i].src < n)
  }

  /** The table after calls that all succeed. */
  function Performed(table: seq<Entry>, ops: seq<Op>): (r: seq<Entry>)
    requires AllIn(ops, |table|)
    ensures |r| == |table|
    decreases |ops|
  {
    if ops == [] then table else Performed(Apply(table, ops[0]), ops[1..])
  }

  lemma {:induction false} PerformedInTurn(table: seq<Entry>, a: seq<Op>, b: seq<Op>)
    requires AllIn(a, |table|) && AllIn(b, |table|)
    ensures Performed(table, a + b) == Performed(Performed(table, a), b)
    decreases |a|
  {
    if a == [] {
      assert a + b == b;
    } else {
      assert (a + b)[1..] == a[1..] + b;
      PerformedInTurn(Apply(table, a[0]), a[1..], b);
    }
  }

  lemma TwoCalls(table: seq<Entry>, a: Op, b: Op)
    requires InTable(table, a) && InTable(table, b)
    ensures Performed(table, [a, b]) == Apply(Apply(table, a), b)
  {
    assert [a, b][1..] == [b] && [b][1..] == [];
    assert Performed(Apply(table, a), [b]) == Performed(Apply(Apply(table, a), b), []);
  }

  /** close empties its descriptor, whatever it was, and touches no other; so does dup's
      error exit. */
  lemma CloseClears(table: seq<Entry>, i: nat)
    requires i < |table|
    ensures Performed(table, CloseOps(table, i)) == if table[i].fd == NoFd then table
      else table[i := Entry(NoFd, NoData)]
    ensures Performed(table, UndoOps(i)) == table[i := Entry(NoFd, NoData)]
  {
    TwoCalls(table, UnmapFd(i), UnmapData(i));
    TwoCalls(table, UnmapData(i), UnmapFd(i));
    TwoCalls(Apply(table, UnmapFd(i)), UnmapData(i), UnmapFd(i));
    assert [UnmapFd(i), UnmapData(i), UnmapFd(i)][1..] == [UnmapData(i), UnmapFd(i)];
  }

  lemma Shared(closed: seq<Entry>, src: nat, dst: nat)
    requires src < |closed| && dst < |closed| && src != dst && closed[src].fd != NoFd
    ensures var t := Performed(closed, ShareOps(src, dst));
      && t == closed[dst := t[dst]] && t[dst].fd == closed[src].fd
      && t[dst].data == if closed[src].data != NoData then closed[src].data else closed[dst].data
  {
    TwoCalls(closed, MapData(src, dst), MapFd(src, dst));
  }

  lemma AllInBoth(a: seq<Op>, b: seq<Op>, n: nat)
    requires AllIn(a, n) && AllIn(b, n)
    ensures AllIn(a + b, n)
  {
  }

  lemma DupIsCloseThenShare(table: seq<Entry>, src: nat, dst: nat)
    requires src < |table| && dst < |table|
    ensures AllIn(DupOps(table, src, dst), |table|) && AllIn(CloseOps(table, dst), |table|)
    ensures Performed(table, DupOps(table, src, dst)) ==
      Performed(Performed(table, CloseOps(table, dst)), ShareOps(src, dst))
  {
    var closing, sharing := CloseOps(table, dst), ShareOps(src, dst);
    assert AllIn(closing, |table|);
    AllInBoth(closing, sharing, |table|);
    PerformedInTurn(table, closing, sharing);
  }

  /** dup makes the new descriptor the same end as the old one, whatever it was before, and
      touches no other. */
  lemma DupDuplicates(table: seq<Entry>, src: nat, dst: nat)
    requires src < |table| && dst < |table| && src != dst && table[src].fd != NoFd
    ensures AllIn(DupOps(table, src, dst), |table|)
    ensures var t := Performed(table, DupOps(table, src, dst));
      && t == table[dst := t[dst]] && t[dst].fd == table[src].fd
      && (table[src].data != NoData ==> t[dst].data == table[src].data)
  {
    DupIsCloseThenShare(table, src, dst);
    CloseClears(table, dst);
    Shared(if table[dst].fd == NoFd then table else table[dst := Entry(NoFd, NoData)], src, dst);
  }

  // ---- One env ----------------------------------------------------------------------------------

  predicate PipeFd(fd: FdPage) { fd == ReadEnd || fd == WriteEnd }

  /** A descriptor mapped to an end of the pipe has the pipe mapped. */
  predicate Backed(table: seq<Entry>) {
    forall i :: 0 <= i < |table| && PipeFd(table[i].fd) ==> table[i].data == ThePipe
  }

  /** And only such a descriptor has. */
  predicate Exact(table: seq<Entry>) {
    forall i :: 0 <= i < |table| ==> (PipeFd(table[i].fd) <==> table[i].data == ThePipe)
  }

  /** Every state up to the end of the current operation is backed, and the end is exact,
      whichever calls fail on the way. */
  ghost predicate Safe(p: Proc)
    decreases Maps(p.todo), |p.todo|
  {
    && |p.table| == MAXFD && Backed(p.table)
    && if p.todo == [] then Exact(p.table)
       else
         && InTable(p.table, p.todo[0])
         && (!MustFail(p.table, p.todo[0]) ==> Safe(After(p, false)))
         && (MayFail(p.todo[0]) ==> Safe(After(p, true)))
  }

  /** Exact but for descriptor i, which is not an end of the pipe. */
  predicate ExactBut(table: seq<Entry>, i: nat) {
    && |table| == MAXFD && i < MAXFD && !PipeFd(table[i].fd)
    && forall k :: 0 <= k < MAXFD && k != i ==> (PipeFd(table[k].fd) <==> table[k].data == ThePipe)
  }

  /** Exact, and descriptor i is not in use. */
  predicate Closed(table: seq<Entry>, i: nat) {
    ExactBut(table, i) && table[i].fd == NoFd && table[i].data != ThePipe
  }

  lemma UndoIsSafe(table: seq<Entry>, i: nat)
    requires ExactBut(table, i)
    ensures Safe(Proc(table, UndoOps(i)))
  {
    var t1 := Apply(table, UnmapFd(i));
    var t2 := Apply(t1, UnmapData(i));
    assert Safe(Proc(t2, []));
    assert UndoOps(i)[1..] == [UnmapData(i)] && [UnmapData(i)][1..] == [];
    assert Safe(Proc(t1, [UnmapData(i)]));
  }

  /** dup's mapping part is safe in this order: data first. */
  lemma MappingIsSafe(table: seq<Entry>, src: nat, dst: nat)
    requires Closed(table, dst) && src < MAXFD
    ensures Safe(Proc(table, ShareOps(src, dst)))
  {
    var t1 := Apply(table, MapData(src, dst));
    assert [MapData(src, dst), MapFd(src, dst)][1..] == [MapFd(src, dst)] && [MapFd(src, dst)][1..] == [];
    UndoIsSafe(table, dst);
    UndoIsSafe(t1, dst);
    if !MustFail(t1, MapFd(src, dst)) {
      assert Safe(Proc(Apply(t1, MapFd(src, dst)), []));
    }
    assert Safe(Proc(t1, [MapFd(src, dst)]));
  }

  /** Either of dup's two mappings may fail, and then its error exit is what is left to do. */
  lemma EitherMappingMayFail(table: seq<Entry>, src: nat, dst: nat)
    requires src < |table| && dst < |table|
    ensures var p := Proc(table, ShareOps(src, dst));
      CanGo(p, true) && After(p, true) == Proc(table, [UnmapFd(dst), UnmapData(dst)])
    ensures var p := Proc(table, [MapFd(src, dst)]);
      CanGo(p, true) && After(p, true) == Proc(table, [UnmapFd(dst), UnmapData(dst)])
  {
  }

  lemma ClosingOtherIsSafe(table: seq<Entry>, i: nat, rest: seq<Op>)
    requires |table| == MAXFD && Exact(table) && i < MAXFD && table[i].fd == OtherFd
    requires forall t: seq<Entry> {:trigger Closed(t, i)} :: Closed(t, i) ==> Safe(Proc(t, rest))
    ensures Safe(Proc(table, [UnmapData(i), UnmapFd(i)] + rest))
  {
    var t1 := Apply(table, UnmapData(i));
    assert ([UnmapData(i), UnmapFd(i)] + rest)[1..] == [UnmapFd(i)] + rest && ([UnmapFd(i)] + rest)[1..] == rest;
    assert Closed(Apply(t1, UnmapFd(i)), i);
    assert Safe(Proc(t1, [UnmapFd(i)] + rest));
  }

  lemma ClosingEndIsSafe(table: seq<Entry>, i: nat, rest: seq<Op>)
    requires |table| == MAXFD && Exact(table) && i < MAXFD && PipeFd(table[i].fd)
    requires forall t: seq<Entry> {:trigger Closed(t, i)} :: Closed(t, i) ==> Safe(Proc(t, rest))
    ensures Safe(Proc(table, [UnmapFd(i), UnmapData(i), UnmapFd(i)] + rest))
  {
    var t1 := Apply(table, UnmapFd(i));
    var t2 := Apply(t1, UnmapData(i));
    assert ([UnmapFd(i), UnmapData(i), UnmapFd(i)] + rest)[1..] == [UnmapData(i), UnmapFd(i)] + rest;
    assert ([UnmapData(i), UnmapFd(i)] + rest)[1..] == [UnmapFd(i)] + rest && ([UnmapFd(i)] + rest)[1..] == rest;
    assert Closed(Apply(t2, UnmapFd(i)), i);
    assert Safe(Proc(t2, [UnmapFd(i)] + rest));
    assert Safe(Proc(t1, [UnmapData(i), UnmapFd(i)] + rest));
  }

  /** close is safe, alone or before whatever is safe after it. */
  lemma ClosingIsSafe(table: seq<Entry>, i: nat, rest: seq<Op>)
    requires |table| == MAXFD && Exact(table) && i < MAXFD
    requires forall t: seq<Entry> {:trigger Closed(t, i)} :: Closed(t, i) ==> Safe(Proc(t, rest))
    ensures Safe(Proc(table, CloseOps(table, i) + rest))
  {
    match table[i].fd
    case NoFd =>
      assert [] + rest == rest;
      assert Closed(table, i);
    case OtherFd => ClosingOtherIsSafe(table, i, rest);
    case _ => ClosingEndIsSafe(table, i, rest);
  }

  lemma CloseIsSafe(table: seq<Entry>, i: nat)
    requires |table| == MAXFD && Exact(table) && i < MAXFD
    ensures Safe(Proc(table, CloseOps(table, i)))
  {
    ClosingIsSafe(table, i, []);
    assert CloseOps(table, i) + [] == CloseOps(table, i);
  }

  lemma DupIsSafe(table: seq<Entry>, src: nat, dst: nat)
    requires |table| == MAXFD && Exact(table) && src < MAXFD && dst < MAXFD
    ensures Safe(Proc(table, DupOps(table, src, dst)))
  {
    forall t: seq<Entry> | Closed(t, dst) ensures Safe(Proc(t, [MapData(src, dst), MapFd(src, dst)])) {
      MappingIsSafe(t, src, dst);
    }
    ClosingIsSafe(table, dst, [MapData(src, dst), MapFd(src, dst)]);
  }

  /** The order is needed: mapping the Fd page first is safe only for a descriptor that is
      no end of the pipe. */
  lemma FdFirstIsUnsafe(table: seq<Entry>, src: nat, dst: nat)
    requires |table| == MAXFD && Exact(table) && Closed(table, dst) && src < MAXFD && table[src].fd != NoFd
    ensures PipeFd(table[src].fd) ==> !Safe(Proc(table, [MapFd(src, dst), MapData(src, dst)]))
  {
    var t1 := Apply(table, MapFd(src, dst));
    assert PipeFd(table[src].fd) ==> PipeFd(t1[dst].fd) && t1[dst].data != ThePipe;
  }

  // ---- All envs, and the env that asks ------------------------------------------------------------

  /** Where _pipe_is_closed is: loop head, then the three loads, then its answer. */
  datatype Pc =
    | Head | FdRef(runs: nat) | PipeRef(runs: nat, fdRef: nat) | Test(runs: nat, fdRef: nat, pipeRef: nat)
    | Answer(closed: bool)

  /** `runs`: env_runs of every env, counted up whenever it is scheduled; `asker` asks about
      its descriptor `fd`. */
  datatype State = State(procs: map<nat, Proc>, cur: nat, runs: map<nat, nat>, asker: nat, fd: nat, pc: Pc)

  datatype Step =
    | Schedule(e: nat)
    | Close(i: nat)
    | Dup(src: nat, dst: nat)
    | Syscall(fails: bool)
    | Exit(e: nat)
    | Ask

  datatype At = At(e: nat, i: nat)

  /** The Fd pages that map a given end: pageref of that end. */
  ghost function Refs(procs: map<nat, Proc>, end: FdPage): set<At> {
    set e, i | e in procs && 0 <= i < |procs[e].table| && procs[e].table[i].fd == end :: At(e, i)
  }

  ghost function PipeRefs(procs: map<nat, Proc>): set<At> {
    set e, i | e in procs && 0 <= i < |procs[e].table| && procs[e].table[i].data == ThePipe :: At(e, i)
  }

  ghost predicate Enabled(s: State, step: Step) {
    match step
    case Schedule(e) => e in s.procs
    case Close(i) => s.cur in s.procs && s.procs[s.cur].todo == [] && i < |s.procs[s.cur].table| && Free(s)
    case Dup(src, dst) =>
      && s.cur in s.procs && s.procs[s.cur].todo == [] && src < |s.procs[s.cur].table| && dst < |s.procs[s.cur].table|
      && s.procs[s.cur].table[src].fd != NoFd && Free(s)
    case Syscall(fails) => s.cur in s.procs && CanGo(s.procs[s.cur], fails)
    case Exit(e) => e in s.procs && e != s.asker && Free(s)
    case Ask =>
      && s.cur == s.asker && s.asker in s.procs && s.procs[s.asker].todo == []
      && s.fd < |s.procs[s.asker].table| && s.asker in s.runs
  }

  /** The asker is not in the middle of asking. */
  predicate Free(s: State) {
    s.cur == s.asker ==> s.pc.Head? || s.pc.Answer?
  }

  ghost function Do(s: State, step: Step): State
    requires Enabled(s, step)
  {
    match step
    case Schedule(e) => s.(cur := e, runs := s.runs[e := (if e in s.runs then s.runs[e] else 0) + 1])
    case Close(i) =>
      var p := s.procs[s.cur];
      s.(procs := s.procs[s.cur := p.(todo := CloseOps(p.table, i))], pc := if s.cur == s.asker then Head else s.pc)
    case Dup(src, dst) =>
      var p := s.procs[s.cur];
      s.(procs := s.procs[s.cur := p.(todo := DupOps(p.table, src, dst))], pc := if s.cur == s.asker then Head
        else s.pc)
    case Syscall(fails) => s.(procs := s.procs[s.cur := After(s.procs[s.cur], fails)])
    case Exit(e) => s.(procs := s.procs - {e})
    case Ask =>
      var now := s.runs[s.asker];
      s.(pc :=
        match s.pc
        case Head => FdRef(now)
        case FdRef(runs) => PipeRef(runs, |Refs(s.procs, s.procs[s.asker].table[s.fd].fd)|)
        case PipeRef(runs, fdRef) => Test(runs, fdRef, |PipeRefs(s.procs)|)
        case Test(runs, fdRef, pipeRef) => if runs != now then Head else Answer(fdRef == pipeRef)
        case Answer(_) => Head)
  }

  ghost predicate AllSafe(s: State) {
    forall e {:trigger Safe(s.procs[e])} :: e in s.procs ==> Safe(s.procs[e])
  }

  /** A count loaded since the asker was last scheduled is still right. */
  ghost predicate Sampled(s: State) {
    && (s.pc.FdRef? || s.pc.PipeRef? || s.pc.Test? ==>
      s.asker in s.procs && s.procs[s.asker].todo == [] && s.fd < |s.procs[s.asker].table| && s.asker in s.runs &&
        s.pc.runs <= s.runs[s.asker])
    && ((s.pc.PipeRef? || s.pc.Test?) && s.cur == s.asker && s.runs[s.asker] == s.pc.runs ==>
      s.pc.fdRef == |Refs(s.procs, s.procs[s.asker].table[s.fd].fd)|)
    && (s.pc.Test? && s.cur == s.asker && s.runs[s.asker] == s.pc.runs ==> s.pc.pipeRef == |PipeRefs(s.procs)|)
  }

  ghost predicate Inv(s: State) {
    AllSafe(s) && Sampled(s)
  }

  lemma StepIsSafe(s: State, step: Step)
    requires AllSafe(s) && Enabled(s, step)
    ensures AllSafe(Do(s, step))
  {
    var t := Do(s, step);
    forall e | e in t.procs ensures Safe(t.procs[e]) {
      assert e in s.procs && Safe(s.procs[e]);
      match step
      case Close(i) => if e == s.cur { CloseIsSafe(s.procs[e].table, i); }
      case Dup(src, dst) => if e == s.cur { DupIsSafe(s.procs[e].table, src, dst); }
      case _ =>
    }
  }

  lemma StepKeeps(s: State, step: Step)
    requires Inv(s) && Enabled(s, step)
    ensures Inv(Do(s, step))
  {
    StepIsSafe(s, step);
  }

  predicate IsOther(a: FdPage, b: FdPage) {
    (a == ReadEnd && b == WriteEnd) || (a == WriteEnd && b == ReadEnd)
  }

  /** refs(pipe) >= refs(read Fd) + refs(write Fd), with equality when nothing is under way. */
  lemma PipeCounts(s: State)
    requires AllSafe(s)
    ensures |PipeRefs(s.procs)| >= |Refs(s.procs, ReadEnd)| + |Refs(s.procs, WriteEnd)|
    ensures (forall e :: e in s.procs ==> s.procs[e].todo == []) ==>
      |PipeRefs(s.procs)| == |Refs(s.procs, ReadEnd)| + |Refs(s.procs, WriteEnd)|
  {
    var r, w, p := Refs(s.procs, ReadEnd), Refs(s.procs, WriteEnd), PipeRefs(s.procs);
    forall x | x in r + w ensures x in p { assert Safe(s.procs[x.e]); }
    assert r !! w;
    assert |r + w| == |r| + |w|;
    Subset(r + w, p);
    if forall e :: e in s.procs ==> s.procs[e].todo == [] {
      forall x | x in p ensures x in r + w { assert Safe(s.procs[x.e]); }
      assert r + w == p;
    }
  }

  lemma Subset<T>(a: set<T>, b: set<T>)
    requires a <= b
    ensures |a| <= |b|
  {
    assert b == a + (b - a);
  }

  /** No false close: when _pipe_is_closed answers 1 for one end, the other end is mapped
      nowhere; and when no close or dup is under way anywhere, it answers 1 exactly then. */
  lemma NoFalseClose(s: State, other: FdPage)
    requires Inv(s) && Enabled(s, Ask) && s.pc.Test? && Do(s, Ask).pc.Answer?
    requires IsOther(s.procs[s.asker].table[s.fd].fd, other)
    ensures Do(s, Ask).pc.closed ==> Refs(s.procs, other) == {}
    ensures (forall e :: e in s.procs ==> s.procs[e].todo == []) ==>
      (Do(s, Ask).pc.closed <==> Refs(s.procs, other) == {})
  {
    PipeCounts(s);
  }

  /** An asker that is not preempted is answered after four accesses, and rightly when no close or
      dup is under way. */
  lemma QuestionIsAnswered(s: State, other: FdPage)
    requires Inv(s) && Enabled(s, Ask) && s.pc.Head? && IsOther(s.procs[s.asker].table[s.fd].fd, other)
    ensures var steps := [Ask, Ask, Ask, Ask];
      Legal(s, steps) && var t := Run(s, steps);
      && t.pc.Answer? && t == s.(pc := t.pc)
      && ((forall e :: e in s.procs ==> s.procs[e].todo == []) ==> (t.pc.closed <==> Refs(s.procs, other) == {}))
  {
    var t1 := Do(s, Ask);
    var t2 := Do(t1, Ask);
    var t3 := Do(t2, Ask);
    var t4 := Do(t3, Ask);
    assert Run(t4, []) == t4 && Run(t3, [Ask]) == t4 by { assert [Ask][1..] == []; }
    assert Run(t2, [Ask, Ask]) == t4 by { assert [Ask, Ask][1..] == [Ask]; }
    assert Run(t1, [Ask, Ask, Ask]) == t4 by { assert [Ask, Ask, Ask][1..] == [Ask, Ask]; }
    assert [Ask, Ask, Ask, Ask][1..] == [Ask, Ask, Ask];
    PipeCounts(s);
  }

  /** In the middle of a question the asker either goes on or is preempted; it starts again exactly
      if it was scheduled anew since it began. */
  lemma AskedAgainIfPreempted(s: State, step: Step)
    requires Inv(s) && Enabled(s, step) && (s.pc.FdRef? || s.pc.PipeRef? || s.pc.Test?) && s.cur == s.asker
    ensures step == Ask || step.Schedule?
    ensures var t := Do(s, step);
      s.pc.Test? && step == Ask ==> if s.runs[s.asker] == s.pc.runs then t.pc.Answer? else t.pc.Head?
    ensures step == Schedule(s.asker) ==> Do(s, step).runs[s.asker] > s.pc.runs
  {
  }

  /** Exit gives up exactly what the env has mapped. */
  lemma ExitReleases(s: State, e: nat, end: FdPage)
    requires Enabled(s, Exit(e))
    ensures var t := Do(s, Exit(e));
      && Refs(t.procs, end) == (set x | x in Refs(s.procs, end) && x.e != e)
      && PipeRefs(t.procs) == (set x | x in PipeRefs(s.procs) && x.e != e)
  {
  }

  /** An end that is gone stays gone. */
  lemma GoneStaysGone(s: State, step: Step, end: FdPage)
    requires Inv(s) && Enabled(s, step) && PipeFd(end) && Refs(s.procs, end) == {}
    ensures Refs(Do(s, step).procs, end) == {}
  {
    var t := Do(s, step);
    forall e, i | e in t.procs && 0 <= i < |t.procs[e].table| ensures t.procs[e].table[i].fd != end {
      assert e in s.procs && forall k :: 0 <= k < |s.procs[e].table| && s.procs[e].table[k].fd == end ==>
        At(e, k) in Refs(s.procs, end);
    }
  }

  ghost predicate Legal(s: State, steps: seq<Step>)
    decreases |steps|
  {
    steps != [] ==> Enabled(s, steps[0]) && Legal(Do(s, steps[0]), steps[1..])
  }

  ghost function Run(s: State, steps: seq<Step>): State
    requires Legal(s, steps)
    decreases |steps|
  {
    if steps == [] then s else Run(Do(s, steps[0]), steps[1..])
  }

  function Calls(n: nat): (steps: seq<Step>)
    ensures |steps| == n && forall i :: 0 <= i < n ==> steps[i] == Syscall(false)
  {
    if n == 0 then [] else [Syscall(false)] + Calls(n - 1)
  }

  /** No call of the program maps an Fd page from a descriptor that has none. */
  predicate NoneMustFail(table: seq<Entry>, ops: seq<Op>)
    requires AllIn(ops, |table|)
    decreases |ops|
  {
    ops == [] || (!MustFail(table, ops[0]) && NoneMustFail(Apply(table, ops[0]), ops[1..]))
  }

  /** An env that is not preempted and whose calls succeed does what its program says. */
  lemma {:induction false} CallsRun(s: State, n: nat)
    requires s.cur in s.procs && |s.procs[s.cur].todo| == n
    requires AllIn(s.procs[s.cur].todo, |s.procs[s.cur].table|)
    requires NoneMustFail(s.procs[s.cur].table, s.procs[s.cur].todo)
    ensures Legal(s, Calls(n))
    ensures var p := s.procs[s.cur];
      Run(s, Calls(n)) == s.(procs := s.procs[s.cur := Proc(Performed(p.table, p.todo), [])])
    decreases n
  {
    var p := s.procs[s.cur];
    if n > 0 {
      assert CanGo(p, false);
      assert Calls(n)[0] == Syscall(false) && Calls(n)[1..] == Calls(n - 1);
      CallsRun(Do(s, Syscall(false)), n - 1);
    } else {
      assert p == Proc(Performed(p.table, []), []);
      assert s.procs[s.cur := p] == s.procs;
    }
  }

  /** A close that is not preempted empties its descriptor and changes nothing else. */
  lemma CloseRuns(s: State, i: nat) returns (steps: seq<Step>)
    requires Enabled(s, Close(i))
    ensures Legal(Do(s, Close(i)), steps)
    ensures var p, t := s.procs[s.cur], Run(Do(s, Close(i)), steps);
      t.procs == s.procs[s.cur :=
        Proc(if p.table[i].fd == NoFd then p.table else p.table[i := Entry(NoFd, NoData)], [])]
  {
    var p := s.procs[s.cur];
    CloseClears(p.table, i);
    ClosingMayGoOn(p.table, i, []);
    assert CloseOps(p.table, i) + [] == CloseOps(p.table, i);
    steps := Calls(|CloseOps(p.table, i)|);
    CallsRun(Do(s, Close(i)), |steps|);
  }

  lemma ClosingMayGoOn(table: seq<Entry>, i: nat, rest: seq<Op>)
    requires i < |table| && AllIn(rest, |table|)
    requires AllIn(CloseOps(table, i) + rest, |table|)
    requires NoneMustFail(Performed(table, CloseOps(table, i)), rest)
    ensures NoneMustFail(table, CloseOps(table, i) + rest)
  {
    MayGoOn(table, CloseOps(table, i), rest);
  }

  lemma {:induction false} MayGoOn(table: seq<Entry>, ops: seq<Op>, rest: seq<Op>)
    requires AllIn(ops, |table|) && AllIn(rest, |table|) && AllIn(ops + rest, |table|)
    requires forall k :: 0 <= k < |ops| ==> !MayFail(ops[k])
    requires NoneMustFail(Performed(table, ops), rest)
    ensures NoneMustFail(table, ops + rest)
    decreases |ops|
  {
    if ops == [] {
      assert ops + rest == rest;
    } else {
      assert (ops + rest)[1..] == ops[1..] + rest;
      MayGoOn(Apply(table, ops[0]), ops[1..], rest);
    }
  }

  /** A dup that is not preempted, and whose mappings find memory, makes the new descriptor the
      same end with the same data as the old one and changes nothing else. */
  lemma DupRuns(s: State, src: nat, dst: nat) returns (steps: seq<Step>)
    requires Enabled(s, Dup(src, dst)) && src != dst
    ensures Legal(Do(s, Dup(src, dst)), steps)
    ensures var p, t := s.procs[s.cur], Run(Do(s, Dup(src, dst)), steps);
      && s.cur in t.procs && t.procs == s.procs[s.cur := t.procs[s.cur]]
      && var q := t.procs[s.cur];
      && q.todo == [] && |q.table| == |p.table| && q.table == p.table[dst := q.table[dst]]
      && q.table[dst].fd == p.table[src].fd
      && (p.table[src].data != NoData ==> q.table[dst].data == p.table[src].data)
  {
    var p := s.procs[s.cur];
    var closed := Performed(p.table, CloseOps(p.table, dst));
    DupDuplicates(p.table, src, dst);
    CloseClears(p.table, dst);
    SharingMayGoOn(closed, src, dst);
    ClosingMayGoOn(p.table, dst, ShareOps(src, dst));
    steps := Calls(|DupOps(p.table, src, dst)|);
    CallsRun(Do(s, Dup(src, dst)), |steps|);
  }

  lemma SharingMayGoOn(table: seq<Entry>, src: nat, dst: nat)
    requires src < |table| && dst < |table| && src != dst && table[src].fd != NoFd
    ensures AllIn(ShareOps(src, dst), |table|) && NoneMustFail(table, ShareOps(src, dst))
  {
    var t := Apply(table, MapData(src, dst));
    assert ShareOps(src, dst)[1..] == [MapFd(src, dst)] && [MapFd(src, dst)][1..] == [];
    assert NoneMustFail(Apply(t, MapFd(src, dst)), []);
    assert NoneMustFail(t, [MapFd(src, dst)]);
  }

  /** What pipe leaves behind: nobody is in close or dup, and every descriptor is exact. */
  ghost predicate Quiet(s: State) {
    && s.pc == Head
    && forall e :: e in s.procs ==> |s.procs[e].table| == MAXFD && s.procs[e].todo == [] && Exact(s.procs[e].table)
  }

  lemma {:induction false} RunKeeps(s: State, steps: seq<Step>)
    requires Inv(s) && Legal(s, steps)
    ensures Inv(Run(s, steps))
    decreases |steps|
  {
    if steps != [] {
      StepKeeps(s, steps[0]);
      RunKeeps(Do(s, steps[0]), steps[1..]);
    }
  }

  /** The asker is about to be told that the pipe is closed at the other end. */
  ghost predicate SaysClosed(t: State, other: FdPage) {
    && Enabled(t, Ask) && t.pc.Test? && Do(t, Ask).pc == Answer(true)
    && IsOther(t.procs[t.asker].table[t.fd].fd, other)
  }

  /** Once a pipe exists, whatever sequence of system calls and schedulings follows, a
      descriptor slot mapped to an end has the pipe mapped beside it, and whoever is told
      that the pipe is closed is told the truth for ever. */
  lemma EndOfPipeIsTrue(s: State, steps: seq<Step>, more: seq<Step>, other: FdPage)
    requires Quiet(s) && Legal(s, steps)
    ensures Inv(Run(s, steps)) && forall e :: e in Run(s, steps).procs ==> Backed(Run(s, steps).procs[e].table)
    ensures var t := Run(s, steps);
      SaysClosed(t, other) && Legal(Do(t, Ask), more) ==> Refs(Run(Do(t, Ask), more).procs, other) == {}
  {
    forall e | e in s.procs ensures Safe(s.procs[e]) { assert |s.procs[e].table| == MAXFD; }
    RunKeeps(s, steps);
    var t := Run(s, steps);
    forall e | e in t.procs ensures Backed(t.procs[e].table) { assert Safe(t.procs[e]); }
    if SaysClosed(t, other) && Legal(Do(t, Ask), more) {
      NoFalseClose(t, other);
      StepKeeps(t, Ask);
      GoneForEver(Do(t, Ask), more, other);
    }
  }

  lemma {:induction false} GoneForEver(s: State, steps: seq<Step>, end: FdPage)
    requires Inv(s) && Legal(s, steps) && PipeFd(end) && Refs(s.procs, end) == {}
    ensures Refs(Run(s, steps).procs, end) == {}
    decreases |steps|
  {
    if steps != [] {
      StepKeeps(s, steps[0]);
      GoneStaysGone(s, steps[0], end);
      GoneForEver(Do(s, steps[0]), steps[1..], end);
    }
  }
}
