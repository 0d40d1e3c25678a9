/** Env status, the schedule list and message passing (kern/syscall_all.c, kern/env.c,
    user/lib/ipc.c). */
module Ipc {
  import opened Common
  import opened Sched

  datatype Status = Runnable | NotRunnable | Zombie

  /** Where an env is in ipc_recv: outside, blocked in the system call, back from it, and
      after its load of env_ipc_from. */
  datatype Phase = Outside | Blocked | Back | HalfRead(from: nat)

  datatype Msg = Msg(from: nat, value: nat)

  /** The fields of struct Env, and the messages accepted for this env and returned by its
      calls of ipc_recv. */
  datatype Env = Env(status: Status, recving: bool, value: nat, from: nat, phase: Phase, parent: nat,
                     accepted: seq<Msg>, returned: seq<Msg>)

  /** `corrupt`: TAILQ_REMOVE was applied to an env that was not in the list. */
  datatype State = State(q: Queue, envs: map<nat, Env>, corrupt: bool)

  datatype Step =
    | Create(e: nat, pri: nat)                   // env_create, before anything runs
    | Exofork(c: nat)                            // sys_exofork
    | SetStatus(e: nat, status: Status)          // sys_set_env_status
    | Recv                                       // sys_ipc_recv
    | Send(e: nat, value: nat)                   // sys_ipc_try_send without a page
    | LoadFrom                                   // ipc_recv reads env_ipc_from
    | LoadValue                                  // ipc_recv reads env_ipc_value and returns
    | Exit                                       // sys_env_destroy on itself
    | Preempt(giveUp: bool)                      // timer interrupt, sys_yield

  function Fresh(status: Status, parent: nat): Env {
    Env(status, false, 0, 0, Outside, parent, [], [])
  }

  predicate Listed(s: State) {
    forall i :: 0 <= i < |s.q.list| ==> s.q.list[i] in s.q.pri
  }

  /** curenv is running user code outside ipc_recv. */
  predicate AtLarge(s: State) {
    Listed(s) && Running(s.q) && s.q.cur.value in s.envs && s.envs[s.q.cur.value].phase == Outside
  }

  predicate OthersRun(s: State) {
    Running(s.q) && Without(s.q.list, s.q.cur.value) != []
  }

  predicate Enabled(s: State, step: Step) {
    match step
    case Create(e, pri) => s.q.cur == None && e !in s.envs && e !in s.q.list && pri >= 1
    case Exofork(c) => AtLarge(s) && c !in s.envs && c !in s.q.list && c != s.q.cur.value
    case SetStatus(e, status) =>
      && AtLarge(s) && e in s.envs && e in s.q.pri && status != Zombie
      && (e == s.q.cur.value || s.envs[e].parent == s.q.cur.value)
      && (e == s.q.cur.value && status == NotRunnable ==> OthersRun(s))
    case Recv => AtLarge(s) && OthersRun(s)
    case Send(e, _) => AtLarge(s) && e in s.envs && e in s.q.pri
    case LoadFrom => Listed(s) && Running(s.q) && s.q.cur.value in s.envs && s.envs[s.q.cur.value].phase == Back
    case LoadValue => Listed(s) && Running(s.q) && s.q.cur.value in s.envs && s.envs[s.q.cur.value].phase.HalfRead?
    case Exit => AtLarge(s) && OthersRun(s)
    case Preempt(_) => Listed(s) && s.q.list != []
  }

  /** curenv leaves the list and the next env is scheduled. */
  function Leave(q: Queue): Queue
    requires Running(q) && Without(q.list, q.cur.value) != [] && forall i :: 0 <= i < |q.list| ==> q.list[i] in q.pri
  {
    Acted(q, Act.Block)
  }

  function Do(s: State, step: Step): State
    requires Enabled(s, step)
  {
    match step
    case Create(e, pri) =>
      s.(q := s.q.(list := [e] + s.q.list, pri := s.q.pri[e := pri]), envs := s.envs[e := Fresh(Runnable, 0)])
    case Exofork(c) =>
      var cur := s.q.cur.value;
      s.(q := s.q.(pri := s.q.pri[c := s.q.pri[cur]]), envs := s.envs[c := Fresh(NotRunnable, cur)])
    case SetStatus(e, status) => StatusSet(s, e, status)
    case Recv =>
      var e := s.q.cur.value;
      s.(q := Leave(s.q), envs := s.envs[e := s.envs[e].(status := NotRunnable, recving := true, phase := Blocked)])
    case Send(e, value) =>
      if !s.envs[e].recving then s
      else
        var m := Msg(s.q.cur.value, value);
        s.(q := s.q.(list := s.q.list + [e]),
           envs := s.envs[e := s.envs[e].(status := Runnable, recving := false, value := value, from := m.from,
                                          phase := Back, accepted := s.envs[e].accepted + [m])])
    case LoadFrom =>
      var e := s.q.cur.value;
      s.(envs := s.envs[e := s.envs[e].(phase := HalfRead(s.envs[e].from))])
    case LoadValue =>
      var e := s.q.cur.value;
      var t := s.envs[e];
      s.(envs := s.envs[e := t.(phase := Outside, returned := t.returned + [Msg(t.phase.from, t.value)])])
    case Exit =>
      var e := s.q.cur.value;
      s.(q := Leave(s.q), envs := s.envs[e := s.envs[e].(status := Zombie)])
    case Preempt(giveUp) => s.(q := Scheduled(s.q, giveUp))
  }

  /** sys_set_env_status on e, which may be curenv. */
  function StatusSet(s: State, e: nat, status: Status): State
    requires Enabled(s, SetStatus(e, status))
  {
    var t := s.(envs := s.envs[e := s.envs[e].(status := status)]);
    if e == s.q.cur.value then
      if status == Runnable then t.(q := Scheduled(s.q, true)) else t.(q := Leave(s.q))
    else if status == Runnable && s.envs[e].status != Runnable then t.(q := s.q.(list := s.q.list + [e]))
    else if status == NotRunnable && s.envs[e].status != NotRunnable then
      t.(q := s.q.(list := Without(s.q.list, e)), corrupt := s.corrupt || e !in s.q.list)
    else t
  }

  // ---- The invariant -----------------------------------------------------------------------

  /** The message that waits to be returned. */
  function Pending(t: Env): seq<Msg> {
    if t.phase == Back || t.phase.HalfRead? then [Msg(t.from, t.value)] else []
  }

  predicate EnvOk(s: State, e: nat)
    requires e in s.envs
  {
    var t := s.envs[e];
    && (t.status == Runnable <==> e in s.q.list) && e in s.q.pri && s.q.pri[e] >= 1
    && (t.recving <==> t.phase == Blocked) && (t.recving ==> t.status == NotRunnable)
    && (t.phase.HalfRead? ==> t.phase.from == t.from)
    && t.accepted == t.returned + Pending(t)
  }

  /** env_sched_list holds each runnable env once and no other; and each env's accepted
      messages are those it returned and the one pending. */
  ghost predicate Inv(s: State) {
    && Valid(s.q) && !s.corrupt
    && (forall i :: 0 <= i < |s.q.list| ==> s.q.list[i] in s.envs)
    && (s.q.cur.Some? ==> s.q.cur.value in s.q.list)
    && (forall e {:trigger EnvOk(s, e)} :: e in s.envs ==> EnvOk(s, e))
  }

  /** What sys_set_env_status does not check: the target may be blocked in a receive, or a
      zombie. */
  predicate Guard(s: State, step: Step) {
    step.SetStatus? && step.e in s.envs ==>
      && !(step.status == Runnable && s.envs[step.e].recving)
      && !(step.status == NotRunnable && s.envs[step.e].status == Zombie)
  }

  lemma LeaveMembers(q: Queue)
    requires Valid(q) && Running(q) && Without(q.list, q.cur.value) != []
    ensures var t := Leave(q);
      && Valid(t) && t.pri == q.pri && t.cur.Some? && t.cur.value in t.list
      && forall x :: x in t.list <==> x in q.list && x != q.cur.value
  {
    ActedKeeps(q, Act.Block);
    WithoutMembers(q.list, q.cur.value);
    WithoutKeepsOrder(q.list, q.cur.value);
    RotatedHasSameMembers(q.(list := Without(q.list, q.cur.value)));
  }

  lemma ScheduledMembers(q: Queue, giveUp: bool)
    requires Valid(q) && q.list != []
    ensures var t := Scheduled(q, giveUp);
      && Valid(t) && t.pri == q.pri && t.cur.Some? && t.cur.value in t.list
      && forall x :: x in t.list <==> x in q.list
  {
    ScheduledKeeps(q, giveUp);
    RotatedHasSameMembers(q);
    if Switches(q, giveUp) { assert Rotated(q)[0] in Rotated(q); }
  }

  lemma QueueAfterStatus(s: State, e: nat, status: Status)
    requires Inv(s) && Enabled(s, SetStatus(e, status))
    ensures var t := StatusSet(s, e, status);
      && t.q.pri == s.q.pri && t.q.cur.Some? && t.q.cur.value in t.q.list && Valid(t.q)
      && (forall x :: x != e ==> (x in t.q.list <==> x in s.q.list))
      && (e in t.q.list <==> status == Runnable)
  {
    var cur := s.q.cur.value;
    assert EnvOk(s, e) && EnvOk(s, cur);
    if e == cur {
      if status == Runnable { ScheduledMembers(s.q, true); } else { LeaveMembers(s.q); }
    } else if status == Runnable {
      if s.envs[e].status != Runnable { ActedKeeps(s.q, Wake(e)); }
    } else if s.envs[e].status != NotRunnable {
      DroppedIsValid(s.q, e);
      WithoutMembers(s.q.list, e);
      WithoutKeepsOrder(s.q.list, e);
    }
  }

  lemma QueueKeeps(s: State, step: Step)
    requires Inv(s) && Enabled(s, step) && !step.SetStatus?
    ensures var t := Do(s, step); Valid(t.q) && (t.q.cur.Some? ==> t.q.cur.value in t.q.list)
  {
    match step
    case Recv => LeaveMembers(s.q);
    case Exit => LeaveMembers(s.q);
    case Preempt(giveUp) => ScheduledMembers(s.q, giveUp);
    case Send(e, _) => assert EnvOk(s, e);
    case _ =>
  }

  lemma ListedExist(s: State, step: Step)
    requires Inv(s) && Enabled(s, step) && !step.SetStatus?
    ensures forall i :: 0 <= i < |Do(s, step).q.list| ==> Do(s, step).q.list[i] in Do(s, step).envs
  {
    match step
    case Recv => LeaveMembers(s.q); Members(Leave(s.q).list);
    case Exit => LeaveMembers(s.q); Members(Leave(s.q).list);
    case Preempt(giveUp) => ScheduledMembers(s.q, giveUp); Members(Scheduled(s.q, giveUp).list);
    case _ =>
  }

  lemma EnvKeeps(s: State, step: Step, e: nat)
    requires Inv(s) && Enabled(s, step) && !step.SetStatus? && e in Do(s, step).envs
    ensures EnvOk(Do(s, step), e)
  {
    if e in s.envs { assert EnvOk(s, e); }
    match step
    case Exofork(_) => assert EnvOk(s, s.q.cur.value);
    case Recv => LeaveMembers(s.q); assert EnvOk(s, s.q.cur.value);
    case Exit => LeaveMembers(s.q); assert EnvOk(s, s.q.cur.value);
    case Preempt(giveUp) => ScheduledMembers(s.q, giveUp);
    case _ =>
  }

  /** sys_set_env_status keeps the invariant exactly when its target is neither made
      runnable while it receives nor stopped while it is a zombie. */
  lemma SetStatusKeepsIff(s: State, e: nat, status: Status)
    requires Inv(s) && Enabled(s, SetStatus(e, status))
    ensures Inv(Do(s, SetStatus(e, status))) <==> Guard(s, SetStatus(e, status))
  {
    var t := Do(s, SetStatus(e, status));
    QueueAfterStatus(s, e, status);
    assert EnvOk(s, e);
    Members(t.q.list);
    if Guard(s, SetStatus(e, status)) {
      forall x | x in t.envs ensures EnvOk(t, x) { assert EnvOk(s, x); }
    } else {
      assert t.corrupt || !EnvOk(t, e);
    }
  }

  lemma StepKeeps(s: State, step: Step)
    requires Inv(s) && Enabled(s, step) && Guard(s, step)
    ensures Inv(Do(s, step))
  {
    if step.SetStatus? {
      SetStatusKeepsIff(s, step.e, step.status);
    } else {
      QueueKeeps(s, step);
      ListedExist(s, step);
      forall e | e in Do(s, step).envs ensures EnvOk(Do(s, step), e) { EnvKeeps(s, step, e); }
    }
  }

  // ---- Runs ------------------------------------------------------------------------------------

  ghost predicate Legal(s: State, steps: seq<Step>)
    decreases |steps|
  {
    steps != [] ==> Enabled(s, steps[0]) && Guard(s, steps[0]) && Legal(Do(s, steps[0]), steps[1..])
  }

  ghost function Run(s: State, steps: seq<Step>): State
    requires Legal(s, steps)
    decreases |steps|
  {
    if steps == [] then s else Run(Do(s, steps[0]), steps[1..])
  }

  function Boot(): State {
    State(Queue([], None, 0, map[]), map[], false)
  }

  lemma {:induction false} RunKeeps(s: State, steps: seq<Step>)
    requires Inv(s) && Legal(s, steps)
    ensures Inv(Run(s, steps))
    decreases |steps|
  {
    if steps != [] {
      StepKeeps(s, steps[0]);
      RunKeeps(Do(s, steps[0]), steps[1..]);
    }
  }

  /** In every run from boot, env_sched_list holds each runnable env exactly once and no
      other, and every message accepted for an env is returned by exactly one ipc_recv, in
      order and unchanged, or is the one its current call is about to return. */
  lemma ListAndMessages(steps: seq<Step>, e: nat)
    requires Legal(Boot(), steps) && e in Run(Boot(), steps).envs
    ensures var s := Run(Boot(), steps);
      && (s.envs[e].status == Runnable <==> e in s.q.list) &&
        (forall i, j :: 0 <= i < j < |s.q.list| ==> s.q.list[i] != s.q.list[j])
      && s.envs[e].accepted == s.envs[e].returned + Pending(s.envs[e])
  {
    RunKeeps(Boot(), steps);
    assert EnvOk(Run(Boot(), steps), e);
  }

  // ---- Every system call acts on the scheduler as Sched has it ------------------------------------

  /** What a step is to the scheduler. */
  function ActOf(s: State, step: Step): Option<Act>
    requires Enabled(s, step)
  {
    match step
    case Create(_, _) => None
    case Exofork(c) => Some(Add(c, s.q.pri[s.q.cur.value]))
    case SetStatus(e, status) =>
      if e == s.q.cur.value then Some(if status == Runnable then Act.Yield else Act.Block)
      else if status == Runnable && s.envs[e].status != Runnable then Some(Wake(e))
      else if status == NotRunnable && s.envs[e].status != NotRunnable then Some(Stop(e))
      else None
    case Recv => Some(Act.Block)
    case Send(e, _) => if s.envs[e].recving then Some(Wake(e)) else None
    case Exit => Some(Act.Block)
    case Preempt(giveUp) => Some(if giveUp then Act.Yield else Act.Tick)
    case _ => None
  }

  lemma StepIsAct(s: State, step: Step)
    requires Inv(s) && Enabled(s, step) && Guard(s, step) && s.q.cur.Some?
    ensures var act, t := ActOf(s, step), Do(s, step);
      if act.None? then t.q == s.q else Can(s.q, act.value) && t.q == Acted(s.q, act.value)
  {
    match step
    case SetStatus(e, _) => assert EnvOk(s, e);
    case Send(e, _) => assert EnvOk(s, e);
    case _ =>
  }

  /** The step calls schedule. */
  predicate Reschedules(s: State, step: Step)
    requires Enabled(s, step)
  {
    step.Recv? || step.Exit? || step.Preempt? || (step.SetStatus? && step.e == s.q.cur.value)
  }

  ghost function Reschedulings(s: State, steps: seq<Step>): nat
    requires Legal(s, steps)
    decreases |steps|
  {
    if steps == [] then 0
    else Reschedulings(Do(s, steps[0]), steps[1..]) + if Reschedules(s, steps[0]) then 1 else 0
  }

  /** e becomes curenv at some point of the run, unless it is stopped before. */
  ghost predicate RunsOrStops(s: State, steps: seq<Step>, e: nat)
    requires Legal(s, steps)
    decreases |steps|
  {
    s.q.cur == Some(e) ||
    (steps != [] && (steps[0] == SetStatus(e, NotRunnable) || RunsOrStops(Do(s, steps[0]), steps[1..], e)))
  }

  /** Whatever the envs send, receive, fork and end: a runnable env runs within Wait calls of
      schedule, unless its parent stops it. */
  lemma {:induction false} NobodyStarves(s: State, steps: seq<Step>, e: nat)
    requires Inv(s) && Legal(s, steps) && s.q.cur.Some? && e in s.envs && s.envs[e].status == Runnable
    requires Reschedulings(s, steps) >= Wait(s.q, e)
    ensures RunsOrStops(s, steps, e)
    decreases |steps|
  {
    assert EnvOk(s, e);
    if s.q.cur != Some(e) && steps != [] && steps[0] != SetStatus(e, NotRunnable) {
      var t := Do(s, steps[0]);
      StepKeeps(s, steps[0]);
      StepIsAct(s, steps[0]);
      if ActOf(s, steps[0]).Some? { ActShortensWait(s.q, ActOf(s, steps[0]).value, e); }
      assert EnvOk(t, e);
      if t.q.cur != Some(e) {
        NobodyStarves(t, steps[1..], e);
      }
    }
  }

  /** Every env has its parent's priority. */
  ghost predicate FamilyOk(s: State) {
    forall e :: e in s.envs && s.envs[e].parent != 0 ==>
      && s.envs[e].parent in s.envs && e in s.q.pri && s.envs[e].parent in s.q.pri
      && s.q.pri[e] == s.q.pri[s.envs[e].parent]
  }

  /** In every run from boot, a forked env has the priority of its parent, and so that of the
      first of its ancestors. */
  lemma {:induction false} FamiliesShareOnePriority(s: State, steps: seq<Step>)
    requires Inv(s) && FamilyOk(s) && Legal(s, steps)
    ensures FamilyOk(Run(s, steps))
    decreases |steps|
  {
    if steps != [] {
      StepKeeps(s, steps[0]);
      FamilyKeeps(s, steps[0]);
      FamiliesShareOnePriority(Do(s, steps[0]), steps[1..]);
    }
  }

  lemma FamilyKeeps(s: State, step: Step)
    requires Inv(s) && FamilyOk(s) && Enabled(s, step) && Guard(s, step)
    ensures FamilyOk(Do(s, step))
  {
    if step.Exofork? {
      assert EnvOk(s, s.q.cur.value);
    } else if !step.Create? {
      FamilyFields(s, step);
    }
  }

  lemma FamilyFields(s: State, step: Step)
    requires Inv(s) && Enabled(s, step) && !step.Create? && !step.Exofork?
    ensures var t := Do(s, step);
      && t.q.pri == s.q.pri && t.envs.Keys == s.envs.Keys
      && forall e :: e in s.envs ==> t.envs[e].parent == s.envs[e].parent
  {
  }

  /** The message that the step sends to e, if e is receiving. */
  function SentBy(s: State, step: Step, e: nat): seq<Msg>
    requires Enabled(s, step)
  {
    match step
    case Send(x, value) => if x == e && s.envs[e].recving then [Msg(s.q.cur.value, value)] else []
    case _ => []
  }

  /** The messages that e was sent while it was receiving. */
  ghost function SentTo(s: State, steps: seq<Step>, e: nat): seq<Msg>
    requires Legal(s, steps)
    decreases |steps|
  {
    if steps == [] then [] else SentBy(s, steps[0], e) + SentTo(Do(s, steps[0]), steps[1..], e)
  }

  lemma StepAccepts(s: State, step: Step, e: nat)
    requires Inv(s) && Enabled(s, step)
    ensures var t := Do(s, step);
      if e in s.envs then e in t.envs && t.envs[e].accepted == s.envs[e].accepted + SentBy(s, step, e)
      else SentBy(s, step, e) == [] && (e in t.envs ==> t.envs[e].accepted == [])
  {
  }

  /** What an env has returned from ipc_recv, with the message it is about to return, is in every
      run what was sent to it while it was receiving: sender, value and order. */
  lemma {:induction false} ReceivedIsSent(s: State, steps: seq<Step>, e: nat)
    requires Inv(s) && Legal(s, steps) && e in Run(s, steps).envs
    ensures var t := Run(s, steps).envs[e];
      t.returned + Pending(t) == (if e in s.envs then s.envs[e].accepted else []) + SentTo(s, steps, e)
    decreases |steps|
  {
    if steps == [] {
      assert EnvOk(s, e);
    } else {
      StepKeeps(s, steps[0]);
      StepAccepts(s, steps[0], e);
      ReceivedIsSent(Do(s, steps[0]), steps[1..], e);
    }
  }

  /** An env back from the system call returns its message with its next two loads: then all that
      was accepted for it has been returned. */
  lemma LoadsReturn(s: State)
    requires Inv(s) && Enabled(s, LoadFrom)
    ensures var e, t := s.q.cur.value, Do(s, LoadFrom);
      && Enabled(t, LoadValue)
      && var env := Do(t, LoadValue).envs[e]; env.phase == Outside && env.returned == env.accepted == s.envs[e].accepted
  {
    StepKeeps(s, LoadFrom);
    StepKeeps(Do(s, LoadFrom), LoadValue);
    assert EnvOk(Do(Do(s, LoadFrom), LoadValue), s.q.cur.value);
  }

  /** What the missing check costs: a parent makes its receiving child runnable, a message
      comes, and the child is in the list twice. */
  lemma WakingAReceiverDuplicatesIt(s: State, e: nat, value: nat)
    requires Inv(s) && Enabled(s, SetStatus(e, Runnable)) && s.envs[e].recving
    ensures var t := Do(s, SetStatus(e, Runnable));
      && Enabled(t, Send(e, value))
      && var u := Do(t, Send(e, value)); exists i, j :: 0 <= i < j < |u.q.list| && u.q.list[i] == u.q.list[j] == e
  {
    assert EnvOk(s, e) && EnvOk(s, s.q.cur.value);
    var u := Do(Do(s, SetStatus(e, Runnable)), Send(e, value));
    var n := |s.q.list|;
    assert u.q.list == s.q.list + [e] + [e] && u.q.list[n] == u.q.list[n + 1] == e;
  }

  lemma {:induction false} OneMore(s: State, steps: seq<Step>, step: Step)
    requires Legal(s, steps) && Enabled(Run(s, steps), step) && Guard(Run(s, steps), step)
    ensures Legal(s, steps + [step]) && Run(s, steps + [step]) == Do(Run(s, steps), step)
    decreases |steps|
  {
    if steps == [] {
      assert [step][1..] == [];
      assert Run(s, [step]) == Run(Do(s, step), []);
    } else {
      assert (steps + [step])[1..] == steps[1..] + [step];
      OneMore(Do(s, steps[0]), steps[1..], step);
    }
  }

  /** Env 1 is current, its child 2 runnable behind it. */
  ghost predicate TwoRunnable(s: State) {
    && s.q.list == [1, 2] && s.q.cur == Some(1) && s.q.pri == map[1 := 1, 2 := 1] && s.q.count == 0 && !s.corrupt
    && s.envs == map[1 := Fresh(Runnable, 0), 2 := Fresh(NotRunnable, 1).(status := Runnable)]
  }

  lemma ForkFromBoot() returns (steps: seq<Step>)
    ensures Legal(Boot(), steps) && TwoRunnable(Run(Boot(), steps))
  {
    steps := [];
    OneMore(Boot(), steps, Step.Create(1, 1));
    steps := steps + [Step.Create(1, 1)];
    OneMore(Boot(), steps, Preempt(true));
    steps := steps + [Preempt(true)];
    OneMore(Boot(), steps, Exofork(2));
    steps := steps + [Exofork(2)];
    OneMore(Boot(), steps, SetStatus(2, Runnable));
    steps := steps + [SetStatus(2, Runnable)];
  }

  /** The child runs, and blocks in a receive or exits; its parent is current again. */
  lemma ChildLeaves(steps: seq<Step>, leave: Step) returns (more: seq<Step>)
    requires Legal(Boot(), steps) && TwoRunnable(Run(Boot(), steps)) && (leave == Recv || leave == Exit)
    ensures Legal(Boot(), more)
    ensures var t := Run(Boot(), more);
      && t.q.list == [1] && t.q.cur == Some(1) && t.q.pri == map[1 := 1, 2 := 1] && t.envs.Keys == {1, 2}
      && t.envs[1] == Fresh(Runnable, 0) && t.envs[2].parent == 1 && !t.corrupt
      && if leave == Recv then t.envs[2].recving else t.envs[2].status == Zombie
  {
    OneMore(Boot(), steps, Preempt(true));
    more := steps + [Preempt(true)];
    assert Without([2, 1], 2) == [1] && Without([1, 2], 1) == [2];
    OneMore(Boot(), more, leave);
    more := more + [leave];
  }

  /** From boot: a parent makes its receiving child runnable and sends it a message, and the
      child is in env_sched_list twice. */
  lemma DuplicateFromBoot()
    ensures exists steps, e, value ::
      && Legal(Boot(), steps) && Enabled(Run(Boot(), steps), SetStatus(e, Runnable))
      && var t := Do(Run(Boot(), steps), SetStatus(e, Runnable));
      && Enabled(t, Send(e, value))
      && var u := Do(t, Send(e, value)); exists i, j :: 0 <= i < j < |u.q.list| && u.q.list[i] == u.q.list[j] == e
  {
    var steps := ForkFromBoot();
    steps := ChildLeaves(steps, Recv);
    RunKeeps(Boot(), steps);
    WakingAReceiverDuplicatesIt(Run(Boot(), steps), 2, 7);
  }

  /** From boot: a parent stops its child after the child has exited, and TAILQ_REMOVE is
      applied to an env that is in no list. */
  lemma CorruptFromBoot()
    ensures exists steps, e ::
      && Legal(Boot(), steps) && Enabled(Run(Boot(), steps), SetStatus(e, NotRunnable))
      && Do(Run(Boot(), steps), SetStatus(e, NotRunnable)).corrupt
  {
    var steps := ForkFromBoot();
    steps := ChildLeaves(steps, Exit);
    assert Do(Run(Boot(), steps), SetStatus(2, NotRunnable)).corrupt;
  }

  // ---- The system calls, updating struct Env and the list in place --------------------------------

  datatype Code = Success | BadEnv | Invalid | NotReceiving

  class Kernel {
    const sched: Scheduler
    var envs: map<nat, Env>
    ghost var corrupt: bool

    constructor (sched: Scheduler)
      requires sched.Now() == Boot().q
      ensures Now() == Boot() && Inv(Now())
    {
      this.sched, envs, corrupt := sched, map[], false;
    }

    ghost function Now(): State
      reads this, sched
    {
      State(sched.Now(), envs, corrupt)
    }

    /** env_create, of an env that exists, before anything runs. */
    method EnvCreate(e: nat, pri: nat)
      requires Inv(Now()) && Enabled(Now(), Step.Create(e, pri))
      modifies this, sched
      ensures Inv(Now()) && Now() == Do(old(Now()), Step.Create(e, pri))
      ensures |sched.list| > 0 && sched.list[0] == e && sched.list[1..] == old(sched.list)
    {
      StepKeeps(Now(), Step.Create(e, pri));
      sched.pri := sched.pri[e := pri];
      envs := envs[e := Fresh(Runnable, 0)];
      sched.list := [e] + sched.list;
    }

    method SysExofork(c: nat)
      requires Inv(Now()) && Enabled(Now(), Exofork(c))
      modifies this, sched
      ensures Inv(Now()) && Now() == Do(old(Now()), Exofork(c))
    {
      StepKeeps(Now(), Exofork(c));
      var cur := sched.cur.value;
      envs := envs[c := Fresh(NotRunnable, cur)];
      sched.pri := sched.pri[c := sched.pri[cur]];
    }

    /** The target is curenv or its child; the two cases of Guard are not looked at. */
    method SysSetEnvStatus(e: nat, status: Status) returns (r: Code)
      requires Inv(Now()) && AtLarge(Now())
      requires e == sched.cur.value && status == NotRunnable ==> OthersRun(Now())
      modifies this, sched
      ensures r == Invalid <==> status == Zombie
      ensures r == BadEnv <==>
        status != Zombie && (e !in old(envs) ||
          (e != old(sched.cur).value && old(envs)[e].parent != old(sched.cur).value))
      ensures r == Success ==>
        Enabled(old(Now()), SetStatus(e, status)) && Now() == Do(old(Now()), SetStatus(e, status))
      ensures r == Success ==> (Inv(Now()) <==> Guard(old(Now()), SetStatus(e, status)))
      ensures r != Success ==> Now() == old(Now())
    {
      if status == Zombie {
        return Invalid;
      }
      if e !in envs || (e != sched.cur.value && envs[e].parent != sched.cur.value) {
        return BadEnv;
      }
      assert EnvOk(Now(), e);
      SetStatusKeepsIff(Now(), e, status);
      if status == Runnable && envs[e].status != Runnable {
        sched.list := sched.list + [e];
      } else if status == NotRunnable && envs[e].status != NotRunnable {
        corrupt := corrupt || e !in sched.list;
        sched.list := Without(sched.list, e);
      }
      envs := envs[e := envs[e].(status := status)];
      r := Success;
      if e == sched.cur.value {
        WithoutMembers(old(sched.list), e);
        Members(sched.list);
        var _ := sched.Schedule(true);
      }
    }

    method SysIpcRecv()
      requires Inv(Now()) && Enabled(Now(), Recv)
      modifies this, sched
      ensures Inv(Now()) && Now() == Do(old(Now()), Recv)
    {
      StepKeeps(Now(), Recv);
      var e := sched.cur.value;
      envs := envs[e := envs[e].(status := NotRunnable, recving := true, phase := Blocked)];
      sched.list := Without(sched.list, e);
      WithoutMembers(old(sched.list), e);
      Members(sched.list);
      var _ := sched.Schedule(true);
    }

    method SysIpcTrySend(e: nat, value: nat) returns (r: Code)
      requires Inv(Now()) && AtLarge(Now())
      modifies this, sched
      ensures Inv(Now())
      ensures r == BadEnv <==> e !in old(envs)
      ensures r == NotReceiving <==> e in old(envs) && !old(envs)[e].recving
      ensures r == Success ==> Enabled(old(Now()), Send(e, value)) && Now() == Do(old(Now()), Send(e, value))
      ensures r == Success ==>
        envs[e].accepted == old(envs)[e].accepted + [Msg(sched.cur.value, value)] && e in sched.list
      ensures r != Success ==> Now() == old(Now())
      ensures r != Invalid
    {
      if e !in envs {
        return BadEnv;
      }
      assert EnvOk(Now(), e);
      if !envs[e].recving {
        return NotReceiving;
      }
      StepKeeps(Now(), Send(e, value));
      var m := Msg(sched.cur.value, value);
      envs := envs[e := envs[e].(value := value, from := m.from, recving := false, phase := Back,
                                 accepted := envs[e].accepted + [m])];
      envs := envs[e := envs[e].(status := Runnable)];
      sched.list := sched.list + [e];
      assert Now() == Do(old(Now()), Send(e, value)) by {
        assert envs == Do(old(Now()), Send(e, value)).envs;
      }
      r := Success;
    }

    /** sys_env_destroy on curenv. */
    method SysExit()
      requires Inv(Now()) && Enabled(Now(), Exit)
      modifies this, sched
      ensures Inv(Now()) && Now() == Do(old(Now()), Exit)
    {
      StepKeeps(Now(), Exit);
      var e := sched.cur.value;
      envs := envs[e := envs[e].(status := Zombie)];
      sched.list := Without(sched.list, e);
      WithoutMembers(old(sched.list), e);
      Members(sched.list);
      var _ := sched.Schedule(true);
    }
  }
}
