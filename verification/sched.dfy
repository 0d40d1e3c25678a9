/** Weighted round-robin (kern/sched.c): bounded waiting and exact shares. */
module Sched {
  import opened Common

  /** env_sched_list, curenv and the static `count` of schedule; `pri`: env_pri. */
  datatype Queue = Queue(list: seq<nat>, cur: Option<nat>, count: int, pri: map<nat, nat>)

  /** Priorities are at least 1, no env is listed twice, and a listed curenv is the head
      and has slices left to count. */
  ghost predicate Valid(q: Queue) {
    && (forall i :: 0 <= i < |q.list| ==> q.list[i] in q.pri && q.pri[q.list[i]] >= 1)
    && (forall i, j :: 0 <= i < j < |q.list| ==> q.list[i] != q.list[j])
    && (Running(q) ==> q.list[0] == q.cur.value && 0 <= q.count < q.pri[q.cur.value])
  }

  /** curenv is there and runnable. */
  predicate Running(q: Queue) {
    q.cur.Some? && q.cur.value in q.list
  }

  function Without(list: seq<nat>, e: nat): seq<nat> {
    if list == [] then []
    else if list[0] == e then list[1..]
    else [list[0]] + Without(list[1..], e)
  }

  // ---- schedule -------------------------------------------------------------------------------

  predicate Switches(q: Queue, giveUp: bool) {
    giveUp || q.count == 0 || !Running(q)
  }

  /** The list after the current env has gone to its end. */
  function Rotated(q: Queue): seq<nat> {
    if Running(q) then Without(q.list, q.cur.value) + [q.cur.value] else q.list
  }

  /** What schedule promises when some env is runnable: on a switch the head of the rotated
      list gets its priority in slices; one slice is spent. */
  function Scheduled(q: Queue, giveUp: bool): Queue
    requires q.list != [] && forall i :: 0 <= i < |q.list| ==> q.list[i] in q.pri
  {
    if Switches(q, giveUp) then
      RotatedHasSameMembers(q);
      assert Rotated(q)[0] in Rotated(q);
      var slices: int := q.pri[Rotated(q)[0]];
      q.(list := Rotated(q), cur := Some(Rotated(q)[0]), count := slices - 1)
    else q.(count := q.count - 1)
  }

  lemma {:induction false} WithoutMembers(list: seq<nat>, e: nat)
    ensures |Without(list, e)| == |list| - if e in list then 1 else 0
    ensures forall x :: x in Without(list, e) ==> x in list
    ensures forall x :: x in list && x != e ==> x in Without(list, e)
  {
    if list != [] && list[0] != e { WithoutMembers(list[1..], e); }
  }

  lemma RotatedHasSameMembers(q: Queue)
    ensures |Rotated(q)| == |q.list| && forall x :: x in Rotated(q) <==> x in q.list
  {
    if Running(q) { WithoutMembers(q.list, q.cur.value); }
  }

  /** In a valid queue rotating moves the head to the end. */
  lemma RotatedIsRotated(q: Queue)
    requires Valid(q) && Running(q)
    ensures Rotated(q) == q.list[1..] + [q.list[0]]
  {
  }

  class Scheduler {
    var list: seq<nat>
    var cur: Option<nat>
    var count: int
    var pri: map<nat, nat>

    function Now(): Queue
      reads this
    {
      Queue(list, cur, count, pri)
    }

    /** False: the kernel panics, there is nothing to run. */
    method Schedule(giveUp: bool) returns (ok: bool)
      requires forall i :: 0 <= i < |list| ==> list[i] in pri
      modifies this
      ensures ok <==> old(list) != []
      ensures ok ==> Now() == Scheduled(old(Now()), giveUp)
      ensures old(Valid(Now())) && ok ==> Valid(Now())
      ensures ok && old(Switches(Now(), giveUp)) ==>
        list != [] && cur == Some(list[0]) && list[0] in pri && count + 1 == pri[list[0]]
      ensures ok && !old(Switches(Now(), giveUp)) ==> cur == old(cur) && list == old(list) && count == old(count) - 1
      ensures old(Valid(Now())) && old(Running(Now())) && old(Switches(Now(), giveUp)) ==>
        list == old(list)[1..] + [old(list)[0]]
    {
      ghost var q := Now();
      var e := cur;
      RotatedHasSameMembers(q);
      if giveUp || count == 0 || e == None || e.value !in list {
        if e != None && e.value in list {
          list := Without(list, e.value);
          list := list + [e.value];
        }
        if list == [] {
          return false;
        }
        assert list == Rotated(q) && list[0] in Rotated(q);
        e := Some(list[0]);
        count := pri[list[0]];
      }
      count := count - 1;
      cur := e;
      ok := true;
      if Valid(q) {
        ScheduledKeeps(q, giveUp);
        if Running(q) { RotatedIsRotated(q); }
      }
    }
  }

  lemma ScheduledKeeps(q: Queue, giveUp: bool)
    requires Valid(q) && q.list != []
    ensures Valid(Scheduled(q, giveUp))
  {
    if Running(q) { RotatedIsRotated(q); }
  }

  // ---- What happens between calls of schedule ---------------------------------------------------

  datatype Act =
    | Tick             // timer interrupt
    | Yield            // sys_yield
    | Block            // curenv leaves the list and calls schedule: recv, exit
    | Wake(e: nat)     // e joins the tail: send, set_env_status
    | Stop(e: nat)     // e leaves the list: set_env_status on another env
    | Add(e: nat, pri: nat)   // a new env, not listed yet

  predicate Calls(act: Act) { act.Tick? || act.Yield? || act.Block? }

  predicate Can(q: Queue, act: Act) {
    match act
    case Tick => q.list != []
    case Yield => q.list != []
    case Block => Running(q) && Without(q.list, q.cur.value) != []
    case Wake(e) => e !in q.list && e in q.pri && q.pri[e] >= 1 && q.cur != Some(e)
    case Stop(e) => e in q.list && q.cur != Some(e)
    case Add(e, _) => e !in q.list
  }

  function Acted(q: Queue, act: Act): Queue
    requires Can(q, act) && forall i :: 0 <= i < |q.list| ==> q.list[i] in q.pri
  {
    match act
    case Tick => Scheduled(q, false)
    case Yield => Scheduled(q, true)
    case Block =>
      WithoutMembers(q.list, q.cur.value);
      assert forall i :: 0 <= i < |Without(q.list, q.cur.value)| ==>
        Without(q.list, q.cur.value)[i] in Without(q.list, q.cur.value);
      Scheduled(q.(list := Without(q.list, q.cur.value)), true)
    case Wake(e) => q.(list := q.list + [e])
    case Stop(e) => q.(list := Without(q.list, e))
    case Add(e, pri) => q.(pri := q.pri[e := pri])
  }

  lemma {:induction false} WithoutKeepsOrder(list: seq<nat>, e: nat)
    requires forall i, j :: 0 <= i < j < |list| ==> list[i] != list[j]
    ensures var w := Without(list, e);
      e !in w && forall i, j :: 0 <= i < j < |w| ==> w[i] != w[j]
  {
    if list != [] && list[0] != e {
      var rest := Without(list[1..], e);
      WithoutMembers(list[1..], e);
      WithoutKeepsOrder(list[1..], e);
      assert forall i :: 0 <= i < |rest| ==> rest[i] in rest && rest[i] in list[1..];
      assert forall x :: x in list[1..] ==> x != list[0];
      assert Without(list, e) == [list[0]] + rest;
    }
  }

  lemma DroppedIsValid(q: Queue, e: nat)
    requires Valid(q)
    ensures Valid(q.(list := Without(q.list, e), cur := if q.cur == Some(e) then None else q.cur))
    ensures q.cur != Some(e) ==> Valid(q.(list := Without(q.list, e)))
  {
    WithoutMembers(q.list, e);
    WithoutKeepsOrder(q.list, e);
    var w := Without(q.list, e);
    assert forall i :: 0 <= i < |w| ==> w[i] in w;
    assert q.list != [] && q.list[0] != e ==> w[0] == q.list[0];
  }

  lemma ActedKeeps(q: Queue, act: Act)
    requires Valid(q) && Can(q, act)
    ensures Valid(Acted(q, act))
  {
    match act
    case Tick => ScheduledKeeps(q, false);
    case Yield => ScheduledKeeps(q, true);
    case Block =>
      DroppedIsValid(q, q.cur.value);
      WithoutKeepsOrder(q.list, q.cur.value);
      ScheduledKeeps(q.(list := Without(q.list, q.cur.value)), true);
    case Wake(_) =>
    case Stop(e) => DroppedIsValid(q, e);
    case Add(_, _) => Members(q.list);
  }

  lemma Members(list: seq<nat>)
    ensures forall i :: 0 <= i < |list| ==> list[i] in list
  {
  }

  // ---- Bounded waiting ----------------------------------------------------------------------------

  /** The priorities of the envs listed before e. */
  function Before(list: seq<nat>, pri: map<nat, nat>, e: nat): nat
    requires forall i :: 0 <= i < |list| ==> list[i] in pri
  {
    if list == [] || list[0] == e then 0 else pri[list[0]] + Before(list[1..], pri, e)
  }

  /** How many calls of schedule e may have to wait: what is left of the running env's
      slices, and the slices of everybody between it and e, and one to switch. */
  function Wait(q: Queue, e: nat): int
    requires forall i :: 0 <= i < |q.list| ==> q.list[i] in q.pri
  {
    if Running(q) && q.list[0] == q.cur.value then q.count + Before(q.list[1..], q.pri, e) + 1
    else Before(q.list, q.pri, e) + 1
  }

  lemma {:induction false} BeforeAppend(list: seq<nat>, pri: map<nat, nat>, e: nat, x: nat)
    requires (forall i :: 0 <= i < |list| ==> list[i] in pri) && x in pri && e in list
    ensures Before(list + [x], pri, e) == Before(list, pri, e)
  {
    if list[0] != e {
      BeforeAppend(list[1..], pri, e, x);
      assert (list + [x])[1..] == list[1..] + [x];
    }
  }

  lemma {:induction false} BeforeWithout(list: seq<nat>, pri: map<nat, nat>, e: nat, x: nat)
    requires (forall i :: 0 <= i < |list| ==> list[i] in pri) && x != e && e in list
    ensures forall i :: 0 <= i < |Without(list, x)| ==> Without(list, x)[i] in pri
    ensures Before(Without(list, x), pri, e) <= Before(list, pri, e)
  {
    WithoutMembers(list, x);
    assert forall i :: 0 <= i < |Without(list, x)| ==> Without(list, x)[i] in Without(list, x);
    if list[0] != e && list[0] != x { BeforeWithout(list[1..], pri, e, x); }
  }

  lemma {:induction false} BeforeAdding(list: seq<nat>, pri: map<nat, nat>, e: nat, x: nat, p: nat)
    requires (forall i :: 0 <= i < |list| ==> list[i] in pri) && x !in list
    ensures Before(list, pri[x := p], e) == Before(list, pri, e)
  {
    if list != [] && list[0] != e { BeforeAdding(list[1..], pri, e, x, p); }
  }

  /** One call of schedule runs e or shortens its wait. */
  lemma CallShortensWait(q: Queue, giveUp: bool, e: nat)
    requires Valid(q) && e in q.list && q.cur != Some(e)
    ensures var t := Scheduled(q, giveUp);
      e in t.list && Valid(t) && (t.cur == Some(e) || Wait(t, e) < Wait(q, e))
  {
    ScheduledKeeps(q, giveUp);
    RotatedHasSameMembers(q);
    if Running(q) && Switches(q, giveUp) {
      RotatedIsRotated(q);
      BeforeAppend(q.list[1..], q.pri, e, q.list[0]);
      var t := Scheduled(q, giveUp);
      assert t.list[0] == q.list[1] && (t.cur != Some(e) ==> t.list[1..] == q.list[2..] + [q.list[0]]);
      if t.cur != Some(e) {
        assert q.list[1..][1..] == q.list[2..];
        BeforeAppend(q.list[2..], q.pri, e, q.list[0]);
      }
    }
  }

  lemma ActShortensWait(q: Queue, act: Act, e: nat)
    requires Valid(q) && Can(q, act) && e in q.list && q.cur != Some(e) && act != Stop(e)
    ensures var t := Acted(q, act);
      e in t.list && Valid(t) && (t.cur == Some(e) || Wait(t, e) <= Wait(q, e) - if Calls(act) then 1 else 0)
  {
    ActedKeeps(q, act);
    match act
    case Tick => CallShortensWait(q, false, e);
    case Yield => CallShortensWait(q, true, e);
    case Block =>
      var x := q.cur.value;
      var b := q.(list := Without(q.list, x));
      DroppedIsValid(q, x);
      WithoutMembers(q.list, x);
      WithoutKeepsOrder(q.list, x);
      assert b.list == q.list[1..];
      CallShortensWait(b, true, e);
    case Wake(x) =>
      BeforeAppend(q.list, q.pri, e, x);
      if Running(q) {
        BeforeAppend(q.list[1..], q.pri, e, x);
        assert (q.list + [x])[1..] == q.list[1..] + [x];
      }
    case Stop(x) =>
      WithoutMembers(q.list, x);
      BeforeWithout(q.list, q.pri, e, x);
      if Running(q) { BeforeWithout(q.list[1..], q.pri, e, x); }
    case Add(x, p) =>
      BeforeAdding(q.list, q.pri, e, x, p);
      BeforeAdding(q.list[1..], q.pri, e, x, p);
  }

  ghost predicate Legal(q: Queue, acts: seq<Act>, e: nat)
    decreases |acts|
  {
    acts != [] ==> Valid(q) && Can(q, acts[0]) && acts[0] != Stop(e) && Legal(Acted(q, acts[0]), acts[1..], e)
  }

  function NumCalls(acts: seq<Act>): nat {
    if acts == [] then 0 else NumCalls(acts[1..]) + if Calls(acts[0]) then 1 else 0
  }

  /** e is curenv at some point of the run. */
  ghost predicate GetsToRun(q: Queue, acts: seq<Act>, e: nat)
    requires Legal(q, acts, e)
    decreases |acts|
  {
    q.cur == Some(e) || (acts != [] && GetsToRun(Acted(q, acts[0]), acts[1..], e))
  }

  /** Bounded waiting: whatever blocks, yields, wakes or is stopped, a listed env runs
      within Wait calls of schedule. */
  lemma {:induction false} BoundedWaiting(q: Queue, acts: seq<Act>, e: nat)
    requires Valid(q) && e in q.list && Legal(q, acts, e) && NumCalls(acts) >= Wait(q, e)
    ensures GetsToRun(q, acts, e)
    decreases |acts|
  {
    if q.cur != Some(e) && acts != [] {
      ActShortensWait(q, acts[0], e);
      if Acted(q, acts[0]).cur != Some(e) {
        BoundedWaiting(Acted(q, acts[0]), acts[1..], e);
      }
    }
  }

  // ---- Whole turns ------------------------------------------------------------------------------------

  /** The queue after the acts. */
  ghost function After(q: Queue, acts: seq<Act>, e: nat): Queue
    requires Legal(q, acts, e)
    decreases |acts|
  {
    if acts == [] then q else After(Acted(q, acts[0]), acts[1..], e)
  }

  /** Nobody yields or blocks: ticks, and envs that join or leave the list. */
  predicate Undisturbed(acts: seq<Act>) {
    forall i :: 0 <= i < |acts| ==> !acts[i].Yield? && !acts[i].Block?
  }

  lemma {:induction false} TurnGoesOn(q: Queue, acts: seq<Act>, e: nat)
    requires Valid(q) && Legal(q, acts, e) && Undisturbed(acts)
    requires q.cur == Some(e) && e in q.list && NumCalls(acts) <= q.count
    ensures var t := After(q, acts, e);
      Valid(t) && t.cur == Some(e) && e in t.list && t.count == q.count - NumCalls(acts)
    decreases |acts|
  {
    if acts != [] {
      ActedKeeps(q, acts[0]);
      if acts[0].Stop? { WithoutMembers(q.list, acts[0].e); }
      TurnGoesOn(Acted(q, acts[0]), acts[1..], e);
    }
  }

  /** However an env came to run (its predecessor's slices ended, or that one yielded or
      blocked), it runs until as many ticks have come as its priority says, if it does not
      yield or block itself; and then the next one of the list does. */
  lemma WholeTurn(q: Queue, act: Act, acts: seq<Act>)
    requires Valid(q) && Can(q, act) && Calls(act) && (act.Tick? ==> Switches(q, false))
    requires var t := Acted(q, act); t.cur.Some? ==> Legal(t, acts, t.cur.value) && Undisturbed(acts)
    ensures var t := Acted(q, act);
      t.list != [] && t.cur == Some(t.list[0]) && t.list[0] in t.pri &&
      var e, n := t.list[0], NumCalls(acts); var u := After(t, acts, e);
      && (n < t.pri[e] ==> u.cur == Some(e))
      && (n + 1 == t.pri[e] && |u.list| > 1 ==>
            Valid(u) && Can(u, Tick) && u.list[0] == e != u.list[1] && Acted(u, Tick).cur == Some(u.list[1]))
  {
    ActedKeeps(q, act);
    var t := Acted(q, act);
    var e := t.list[0];
    if NumCalls(acts) < t.pri[e] {
      TurnGoesOn(t, acts, e);
      var u := After(t, acts, e);
      if u.count == 0 && |u.list| > 1 { RotatedIsRotated(u); }
    }
  }

  // ---- Exact shares -----------------------------------------------------------------------------------

  function Repeat(e: nat, n: nat): (r: seq<nat>)
    ensures |r| == n && forall i :: 0 <= i < n ==> r[i] == e
  {
    seq(n, _ => e)
  }

  /** Every env of the list as often as its priority says. */
  function Rounds(list: seq<nat>, pri: map<nat, nat>): seq<nat>
    requires forall i :: 0 <= i < |list| ==> list[i] in pri
  {
    if list == [] then [] else Repeat(list[0], pri[list[0]]) + Rounds(list[1..], pri)
  }

  /** Who will run in the coming ticks: one whole round, from the middle of curenv's turn. */
  function Timeline(q: Queue): (line: seq<nat>)
    requires Running(q) && Valid(q)
    ensures line != []
  {
    Repeat(q.list[0], q.count) + Rounds(q.list[1..], q.pri) + Repeat(q.list[0], q.pri[q.list[0]] - q.count)
  }

  /** Who runs after each of n ticks. */
  function Ran(q: Queue, n: nat): (r: seq<nat>)
    requires Running(q) && Valid(q)
    ensures |r| == n
    decreases n
  {
    if n == 0 then [] else
      TickKeepsRunning(q);
      [Scheduled(q, false).cur.value] + Ran(Scheduled(q, false), n - 1)
  }

  lemma TickKeepsRunning(q: Queue)
    requires Running(q) && Valid(q)
    ensures Running(Scheduled(q, false)) && Valid(Scheduled(q, false)) && Scheduled(q, false).pri == q.pri
    ensures forall e :: e in Scheduled(q, false).list <==> e in q.list
  {
    ScheduledKeeps(q, false);
    RotatedHasSameMembers(q);
  }

  lemma {:induction false} RoundsAppend(list: seq<nat>, pri: map<nat, nat>, e: nat)
    requires (forall i :: 0 <= i < |list| ==> list[i] in pri) && e in pri
    ensures Rounds(list + [e], pri) == Rounds(list, pri) + Repeat(e, pri[e])
  {
    if list == [] {
      assert Rounds([e][1..], pri) == [];
    } else {
      assert (list + [e])[1..] == list[1..] + [e];
      RoundsAppend(list[1..], pri, e);
    }
  }

  lemma TickInTurn(q: Queue)
    requires Running(q) && Valid(q) && q.count > 0
    ensures var t := Scheduled(q, false);
      Running(t) && Valid(t) && t.cur == Some(Timeline(q)[0]) && Timeline(t) == Timeline(q)[1..] + [Timeline(q)[0]]
  {
    TickKeepsRunning(q);
  }

  /** Moving the first of a turn's slices to the end. */
  lemma SliceMoved(k: nat, n: nat, others: seq<nat>)
    requires n > 0
    ensures (Repeat(k, n) + others)[0] == k
    ensures (Repeat(k, n) + others)[1..] + [k] == Repeat(k, n - 1) + others + Repeat(k, 1)
  {
    assert (Repeat(k, n) + others)[1..] == Repeat(k, n - 1) + others;
  }

  /** The coming round when curenv has no slice left: the others in turn, then curenv. */
  lemma TimelineAtEndOfTurn(q: Queue)
    requires Running(q) && Valid(q) && q.count == 0 && |q.list| > 1
    ensures var h, k, rest := q.list[0], q.list[1], q.list[2..];
      && (forall i :: 0 <= i < |rest + [h]| ==> (rest + [h])[i] in q.pri) && h in q.pri && k in q.pri
      && Timeline(q) == Repeat(k, q.pri[k]) + Rounds(rest + [h], q.pri)
  {
    var h, k, rest := q.list[0], q.list[1], q.list[2..];
    RoundsAppend(rest, q.pri, h);
    assert q.list[1..][1..] == rest;
  }

  /** The coming round just after the first slice of a turn. */
  lemma TimelineAtStartOfTurn(t: Queue, k: nat, others: seq<nat>)
    requires Running(t) && Valid(t) && t.list == [k] + others && t.count == t.pri[k] - 1
    requires forall i :: 0 <= i < |others| ==> others[i] in t.pri
    ensures Timeline(t) == Repeat(k, t.pri[k] - 1) + Rounds(others, t.pri) + Repeat(k, 1)
  {
    assert t.list[1..] == others;
  }

  lemma TickToNext(q: Queue)
    requires Running(q) && Valid(q) && q.count == 0
    ensures var t := Scheduled(q, false);
      Running(t) && Valid(t) && t.cur == Some(Timeline(q)[0]) && Timeline(t) == Timeline(q)[1..] + [Timeline(q)[0]]
  {
    TickKeepsRunning(q);
    RotatedIsRotated(q);
    var h, t := q.list[0], Scheduled(q, false);
    if |q.list| > 1 {
      var k, others := q.list[1], q.list[2..] + [h];
      TimelineAtEndOfTurn(q);
      assert t.list == [k] + others;
      TimelineAtStartOfTurn(t, k, others);
      SliceMoved(k, q.pri[k], Rounds(others, q.pri));
    }
  }

  /** A tick runs the first env of the timeline and moves it to the end. */
  lemma TickTurnsTimeline(q: Queue)
    requires Running(q) && Valid(q)
    ensures var t := Scheduled(q, false);
      Running(t) && Valid(t) && t.cur == Some(Timeline(q)[0]) && Timeline(t) == Timeline(q)[1..] + [Timeline(q)[0]]
  {
    if q.count == 0 { TickToNext(q); } else { TickInTurn(q); }
  }

  lemma {:induction false} RanIsTimeline(q: Queue, n: nat)
    requires Running(q) && Valid(q) && n <= |Timeline(q)|
    ensures Ran(q, n) == Timeline(q)[..n]
    decreases n
  {
    if n > 0 {
      TickTurnsTimeline(q);
      RanIsTimeline(Scheduled(q, false), n - 1);
    }
  }

  function Total(list: seq<nat>, pri: map<nat, nat>): nat
    requires forall i :: 0 <= i < |list| ==> list[i] in pri
  {
    if list == [] then 0 else pri[list[0]] + Total(list[1..], pri)
  }

  lemma {:induction false} RepeatCounts(e: nat, n: nat, x: nat)
    ensures multiset(Repeat(e, n))[x] == if x == e then n else 0
    decreases n
  {
    if n > 0 {
      RepeatCounts(e, n - 1, x);
      assert Repeat(e, n) == Repeat(e, n - 1) + [e];
    }
  }

  lemma {:induction false} RoundsCounts(list: seq<nat>, pri: map<nat, nat>, x: nat)
    requires forall i :: 0 <= i < |list| ==> list[i] in pri
    requires forall i, j :: 0 <= i < j < |list| ==> list[i] != list[j]
    ensures |Rounds(list, pri)| == Total(list, pri)
    ensures multiset(Rounds(list, pri))[x] == if x in list then pri[x] else 0
  {
    if list != [] {
      RepeatCounts(list[0], pri[list[0]], x);
      RoundsCounts(list[1..], pri, x);
      assert forall y :: y in list[1..] ==> y != list[0];
    }
  }

  lemma TimelineCounts(q: Queue, x: nat)
    requires Running(q) && Valid(q)
    ensures |Timeline(q)| == Total(q.list, q.pri)
    ensures multiset(Timeline(q))[x] == if x in q.list then q.pri[x] else 0
  {
    var h, c := q.list[0], q.count;
    RoundsCounts(q.list[1..], q.pri, x);
    RepeatCounts(h, c, x);
    RepeatCounts(h, q.pri[h] - c, x);
    assert forall y :: y in q.list[1..] ==> y != h;
  }

  /** Exact share: with a fixed set of envs and only timer ticks, in every window of
      Total ticks, wherever it begins, each env runs exactly its priority. */
  lemma ExactShare(q: Queue, x: nat)
    requires Running(q) && Valid(q)
    ensures multiset(Ran(q, Total(q.list, q.pri)))[x] == if x in q.list then q.pri[x] else 0
  {
    TimelineCounts(q, x);
    RanIsTimeline(q, |Timeline(q)|);
    assert Timeline(q)[..|Timeline(q)|] == Timeline(q);
  }

  // ---- What priorities below 1 do --------------------------------------------------------------------

  /** The queue after n timer ticks. */
  function Ticked(q: Queue, n: nat): Queue
    requires q.list != [] && forall i :: 0 <= i < |q.list| ==> q.list[i] in q.pri
    decreases n
  {
    if n == 0 then q else
      RotatedHasSameMembers(q);
      assert forall i :: 0 <= i < |Rotated(q)| ==> Rotated(q)[i] in Rotated(q);
      Ticked(Scheduled(q, false), n - 1)
  }

  /** A list without repeats; a listed curenv is the head, and it has slices left to count,
      or its priority is 0 and `count` has gone below 0. */
  ghost predicate WellShaped(q: Queue) {
    && q.list != [] && (forall i :: 0 <= i < |q.list| ==> q.list[i] in q.pri)
    && (forall i, j :: 0 <= i < j < |q.list| ==> q.list[i] != q.list[j])
    && (Running(q) ==> q.list[0] == q.cur.value)
    && (Running(q) ==> if q.pri[q.cur.value] == 0 then q.count < 0 else 0 <= q.count < q.pri[q.cur.value])
  }

  lemma ShapedRotation(q: Queue)
    requires WellShaped(q) && Running(q)
    ensures Rotated(q) == q.list[1..] + [q.list[0]]
  {
  }

  lemma TickKeepsShape(q: Queue)
    requires WellShaped(q)
    ensures var t := Scheduled(q, false);
      && WellShaped(t) && t.pri == q.pri && |t.list| == |q.list| && (forall e :: e in t.list <==> e in q.list)
      && Total(t.list, t.pri) == Total(q.list, q.pri)
  {
    RotatedHasSameMembers(q);
    if Switches(q, false) && Running(q) {
      ShapedRotation(q);
      TotalAppend(q.list[1..], q.list[0], q.pri);
    }
  }

  lemma {:induction false} TotalAppend(list: seq<nat>, e: nat, pri: map<nat, nat>)
    requires (forall i :: 0 <= i < |list| ==> list[i] in pri) && e in pri
    ensures Total(list + [e], pri) == Total(list, pri) + pri[e]
  {
    if list == [] {
      assert Total([e][1..], pri) == 0;
    } else {
      assert (list + [e])[1..] == list[1..] + [e];
      TotalAppend(list[1..], e, pri);
    }
  }

  lemma {:induction false} TicksKeepShape(q: Queue, n: nat)
    requires WellShaped(q)
    ensures var t := Ticked(q, n);
      && WellShaped(t) && t.pri == q.pri && |t.list| == |q.list| && (forall e :: e in t.list <==> e in q.list)
      && Total(t.list, t.pri) == Total(q.list, q.pri)
    decreases n
  {
    if n > 0 {
      TickKeepsShape(q);
      TicksKeepShape(Scheduled(q, false), n - 1);
    }
  }

  lemma {:induction false} TicksAdd(q: Queue, n: nat, k: nat)
    requires WellShaped(q)
    ensures WellShaped(Ticked(q, n)) && Ticked(q, n + k) == Ticked(Ticked(q, n), k)
    decreases n
  {
    if n > 0 {
      TickKeepsShape(q);
      TicksAdd(Scheduled(q, false), n - 1, k);
    }
  }

  lemma {:induction false} NegativeCountStays(q: Queue, n: nat)
    requires Running(q) && q.count < 0 && forall i :: 0 <= i < |q.list| ==> q.list[i] in q.pri
    ensures Ticked(q, n).cur == q.cur && Ticked(q, n).list == q.list && Ticked(q, n).count == q.count - n
    decreases n
  {
    if n > 0 { NegativeCountStays(Scheduled(q, false), n - 1); }
  }

  /** A switch to an env of priority 0 makes `count` negative, and that env is not preempted
      by the next 2^31 - 1 ticks: so long `count`, an int, does not wrap. */
  lemma ZeroPriorityKeepsRunning(q: Queue, n: nat)
    requires WellShaped(q) && Switches(q, false) && Rotated(q)[0] in q.pri && q.pri[Rotated(q)[0]] == 0 && n <= INT_MAX
    ensures var t := Ticked(q, n + 1);
      t.cur == Some(Rotated(q)[0]) && t.count == -1 - n && -INT_MAX - 1 <= t.count < 0
  {
    TickKeepsShape(q);
    NegativeCountStays(Scheduled(q, false), n);
  }

  const INT_MAX := 0x7fff_ffff

  ghost predicate RunsAt(q: Queue, e: nat, n: nat)
    requires WellShaped(q)
  {
    Ticked(q, n).cur == Some(e)
  }

  ghost predicate AgainAndAgain(q: Queue, e: nat)
    requires WellShaped(q)
  {
    forall n: nat :: RunsAfter(q, e, n)
  }

  ghost predicate RunsAfter(q: Queue, e: nat, n: nat)
    requires WellShaped(q)
  {
    exists m :: n <= m && RunsAt(q, e, m)
  }

  ghost predicate RunsWithin(q: Queue, e: nat, n: nat, window: nat)
    requires WellShaped(q)
  {
    exists m :: n <= m <= n + window && RunsAt(q, e, m)
  }

  /** Once it runs, an env of priority 0 runs for ever. */
  lemma ZeroStays(q: Queue, e: nat, m: nat, n: nat)
    requires WellShaped(q) && e in q.list && q.pri[e] == 0 && RunsAt(q, e, m) && m <= n
    ensures RunsAt(q, e, n)
  {
    TicksKeepShape(q, m);
    TicksAdd(q, m, n - m);
    NegativeCountStays(Ticked(q, m), n - m);
  }

  lemma {:induction false} BeforeTotal(list: seq<nat>, pri: map<nat, nat>, e: nat)
    requires forall i :: 0 <= i < |list| ==> list[i] in pri
    ensures Before(list, pri, e) <= Total(list, pri)
  {
    if list != [] { BeforeTotal(list[1..], pri, e); }
  }

  lemma {:induction false} RunsInTime(q: Queue, e: nat) returns (m: nat)
    requires WellShaped(q) && Valid(q) && e in q.list
    ensures RunsAt(q, e, m) && (m == 0 || m <= Wait(q, e))
    decreases if q.cur == Some(e) then 0 else 1, Wait(q, e)
  {
    if q.cur == Some(e) {
      m := 0;
    } else {
      TickKeepsShape(q);
      CallShortensWait(q, false, e);
      assert Wait(q, e) >= 1;
      m := RunsInTime(Scheduled(q, false), e);
      if Scheduled(q, false).cur == Some(e) { m := 0; }
      m := m + 1;
    }
  }

  /** From any moment on, every env of a positive queue runs within Total + 1 ticks. */
  lemma RunsFrom(q: Queue, e: nat, n: nat)
    requires WellShaped(q) && e in q.list && forall x :: x in q.list ==> q.pri[x] >= 1
    ensures RunsWithin(q, e, n, Total(q.list, q.pri) + 1)
  {
    var t := Ticked(q, n);
    TicksKeepShape(q, n);
    assert forall i :: 0 <= i < |t.list| ==> t.list[i] in q.list;
    var m := RunsInTime(t, e);
    BeforeTotal(t.list, t.pri, e);
    if Running(t) { BeforeTotal(t.list[1..], t.pri, e); }
    TicksAdd(q, n, m);
    assert RunsAt(q, e, n + m);
  }

  /** A second env of the list. */
  lemma Another(q: Queue, e: nat) returns (x: nat)
    requires WellShaped(q) && |q.list| >= 2
    ensures x in q.list && x != e
  {
    x := if q.list[0] == e then q.list[1] else q.list[0];
  }

  /** With only timer ticks, every env of a list of two or more runs again and again if and
      only if all of them have priorities of at least 1.  (`count` unbounded; see
      FairInTimeIff.) */
  lemma FairIff(q: Queue)
    requires WellShaped(q) && |q.list| >= 2
    ensures (forall e :: e in q.list ==> AgainAndAgain(q, e)) <==> (forall e :: e in q.list ==> q.pri[e] >= 1)
  {
    if forall e :: e in q.list ==> q.pri[e] >= 1 {
      forall e, n: nat | e in q.list ensures RunsAfter(q, e, n) { RunsFrom(q, e, n); }
    } else {
      var e :| e in q.list && q.pri[e] < 1;
      if forall x :: x in q.list ==> AgainAndAgain(q, x) {
        assert AgainAndAgain(q, e) && RunsAfter(q, e, 0);
        var m :| 0 <= m && RunsAt(q, e, m);
        var x := Another(q, e);
        assert AgainAndAgain(q, x) && RunsAfter(q, x, m);
        var k :| m <= k && RunsAt(q, x, k);
        ZeroStays(q, e, m, k);
      }
    }
  }

  /** The same within a window that the int `count` survives: every env runs within Total + 1
      ticks from each of the next Total + 2 moments, if and only if all priorities are at least
      1.  Until then `count` has not left the range of an int. */
  lemma FairInTimeIff(q: Queue)
    requires WellShaped(q) && |q.list| >= 2
    ensures var w := Total(q.list, q.pri) + 1;
      (forall e, n: nat :: e in q.list && n <= w ==> RunsWithin(q, e, n, w)) <==>
        (forall e :: e in q.list ==> q.pri[e] >= 1)
    ensures q.count >= -1 && 2 * Total(q.list, q.pri) + 2 <= INT_MAX ==>
      forall n: nat :: n <= 2 * Total(q.list, q.pri) + 2 ==> -INT_MAX - 1 <= Ticked(q, n).count
  {
    if q.count >= -1 {
      forall n: nat ensures -1 - n <= Ticked(q, n).count { CountFrom(q, n, -1); }
    }
    var w := Total(q.list, q.pri) + 1;
    if forall e :: e in q.list ==> q.pri[e] >= 1 {
      forall e, n: nat | e in q.list && n <= w ensures RunsWithin(q, e, n, w) { RunsFrom(q, e, n); }
    } else {
      var e :| e in q.list && q.pri[e] < 1;
      if forall x, n: nat :: x in q.list && n <= w ==> RunsWithin(q, x, n, w) {
        assert RunsWithin(q, e, 0, w);
        var m :| 0 <= m <= w && RunsAt(q, e, m);
        var x := Another(q, e);
        assert RunsWithin(q, x, m, w);
        var k :| m <= k <= m + w && RunsAt(q, x, k);
        ZeroStays(q, e, m, k);
      }
    }
  }

  /** n ticks bring `count` at most n below where it was, or below -1. */
  lemma {:induction false} CountFrom(q: Queue, n: nat, low: int)
    requires WellShaped(q) && q.count >= low && low <= -1
    ensures low - n <= Ticked(q, n).count
    decreases n
  {
    if n > 0 {
      TickKeepsShape(q);
      CountFrom(Scheduled(q, false), n - 1, low - 1);
    }
  }
}
