/** The bytes of a pipe: one reader and one writer, each preempted between any two memory
    accesses (user/lib/pipe.c). */
module Pipe {
  import opened Common

  const PIPE_SIZE := 32
  const WORD := 0x1_0000_0000   // p_rpos and p_wpos are u_int and wrap

  /** struct Pipe. */
  datatype Ring = Ring(rpos: nat, wpos: nat, buf: seq<Byte>)

  /** Where pipe_read is; a loaded counter is carried to the access that uses it. */
  datatype ReadPc =
    | RIdle                 // not in pipe_read
    | RFor                  // i < n ?
    | RWhile                // load p_rpos for the comparison
    | RCompare(rpos: nat)   // load p_wpos and compare
    | REmpty                // _pipe_is_closed or i > 0 ?
    | RIndex                // load p_rpos for the subscript
    | RByte(rpos: nat)      // load the byte, store it into the caller's buffer
    | RLoad                 // p_rpos++: the load
    | RStore(rpos: nat)     // p_rpos++: the store

  datatype Reader = Reader(pc: ReadPc, n: nat, i: nat, rbuf: seq<Byte>, ret: nat)

  datatype WritePc =
    | WIdle
    | WFor
    | WWhile
    | WCompare(wpos: nat)
    | WFull
    | WIndex
    | WByte(wpos: nat)
    | WLoad
    | WStore(wpos: nat)

  datatype Writer = Writer(pc: WritePc, wbuf: seq<Byte>, i: nat, ret: nat)

  /** `sent`: every byte whose p_wpos increment was stored; `got`: every byte the reader
      took out of p_buf; `taken`: how often p_rpos was stored; `rstart`, `wstart`: |got|
      and |sent| when the reader's and the writer's last call began; `seen`: |sent| when the
      reader last looked at p_wpos; `told`: its last call heard that the pipe is closed. */
  datatype History = History(sent: seq<Byte>, got: seq<Byte>, taken: nat, rstart: nat, wstart: nat, seen: nat,
    told: bool)

  datatype State = State(p: Ring, r: Reader, w: Writer, h: History)

  /** `closed`: what _pipe_is_closed answers, if it is asked. */
  datatype Step = ReadCall(n: nat) | Read(closed: bool) | WriteCall(wbuf: seq<Byte>) | Write(closed: bool)

  predicate Enabled(s: State, step: Step) {
    match step
    case ReadCall(_) => s.r.pc == RIdle
    case Read(_) => s.r.pc != RIdle && |s.p.buf| == PIPE_SIZE
    case WriteCall(_) => s.w.pc == WIdle
    case Write(_) =>
      && s.w.pc != WIdle && |s.p.buf| == PIPE_SIZE
      && (s.w.pc.WByte? || s.w.pc.WStore? ==> s.w.i < |s.w.wbuf|)
  }

  function Do(s: State, step: Step): State
    requires Enabled(s, step)
  {
    match step
    case ReadCall(n) => s.(r := Reader(RFor, n, 0, [], 0), h := s.h.(rstart := |s.h.got|, told := false))
    case Read(closed) => ReadStep(s, closed)
    case WriteCall(wbuf) => s.(w := Writer(WFor, wbuf, 0, 0), h := s.h.(wstart := |s.h.sent|))
    case Write(closed) => WriteStep(s, closed)
  }

  function ReadStep(s: State, closed: bool): State
    requires Enabled(s, Read(closed))
  {
    var r := s.r;
    match r.pc
    case RFor => s.(r := if r.i < r.n then r.(pc := RWhile) else r.(pc := RIdle, ret := r.n))
    case RWhile => s.(r := r.(pc := RCompare(s.p.rpos)))
    case RCompare(rpos) =>
      s.(r := r.(pc := if rpos == s.p.wpos then REmpty else RIndex), h := s.h.(seen := |s.h.sent|))
    case REmpty =>
      s.(r := if closed || r.i > 0 then r.(pc := RIdle, ret := r.i) else r.(pc := RWhile), h := s.h.(told := closed))
    case RIndex => s.(r := r.(pc := RByte(s.p.rpos)))
    case RByte(rpos) =>
      var b := s.p.buf[rpos % PIPE_SIZE];
      s.(r := r.(pc := RLoad, rbuf := r.rbuf + [b]), h := s.h.(got := s.h.got + [b]))
    case RLoad => s.(r := r.(pc := RStore(s.p.rpos)))
    case RStore(rpos) =>
      s.(p := s.p.(rpos := (rpos + 1) % WORD), r := r.(pc := RFor, i := r.i + 1), h := s.h.(taken := s.h.taken + 1))
  }

  function WriteStep(s: State, closed: bool): State
    requires Enabled(s, Write(closed))
  {
    var w := s.w;
    match w.pc
    case WFor => s.(w := if w.i < |w.wbuf| then w.(pc := WWhile) else w.(pc := WIdle, ret := |w.wbuf|))
    case WWhile => s.(w := w.(pc := WCompare(s.p.wpos)))
    case WCompare(wpos) => s.(w := w.(pc := if (wpos - s.p.rpos) % WORD == PIPE_SIZE then WFull else WIndex))
    case WFull => s.(w := if closed then w.(pc := WIdle, ret := w.i) else w.(pc := WWhile))
    case WIndex => s.(w := w.(pc := WByte(s.p.wpos)))
    case WByte(wpos) => s.(p := s.p.(buf := s.p.buf[wpos % PIPE_SIZE := w.wbuf[w.i]]), w := w.(pc := WLoad))
    case WLoad => s.(w := w.(pc := WStore(s.p.wpos)))
    case WStore(wpos) =>
      s.(p := s.p.(wpos := (wpos + 1) % WORD), w := w.(pc := WFor, i := w.i + 1),
         h := s.h.(sent := s.h.sent + [w.wbuf[w.i]]))
  }

  // ---- The invariant ------------------------------------------------------------------------

  /** The counters are the totals modulo 2^32, and p_buf holds the bytes between them. */
  ghost predicate RingOk(s: State) {
    && |s.p.buf| == PIPE_SIZE
    && s.h.taken <= |s.h.sent| <= s.h.taken + PIPE_SIZE
    && s.p.rpos == s.h.taken % WORD && s.p.wpos == |s.h.sent| % WORD
    && (forall k :: s.h.taken <= k < |s.h.sent| ==> s.p.buf[k % PIPE_SIZE] == s.h.sent[k])
  }

  /** What is in the caller's buffer came out of the stream in this call. */
  ghost predicate ReaderOk(s: State) {
    var ahead := if s.r.pc.RLoad? || s.r.pc.RStore? then 1 else 0;
    && s.h.got <= s.h.sent && |s.h.got| == s.h.taken + ahead
    && s.h.rstart <= |s.h.got| && s.r.rbuf == s.h.got[s.h.rstart..]
    && (s.r.pc != RIdle ==> |s.r.rbuf| == s.r.i + ahead)
    && (s.r.pc == RIdle ==> s.r.ret == |s.r.rbuf| && (s.r.ret == s.r.n || ShortIsRight(s)))
    && (s.r.pc == REmpty ==> s.h.seen == s.h.taken) && (s.r.pc != RIdle ==> !s.h.told)
    && (s.r.pc.RFor? ==> s.r.i <= s.r.n)
    && (s.r.pc != RIdle && !s.r.pc.RFor? ==> s.r.i < s.r.n)
    && (s.r.pc.RIndex? || s.r.pc.RByte? ==> s.h.taken < |s.h.sent|)
    && (s.r.pc.RCompare? || s.r.pc.RByte? || s.r.pc.RStore? ==> s.r.pc.rpos == s.p.rpos)
  }

  /** A read came back short: at its last look all bytes sent had been taken, and it had some
      or was told that the pipe is closed. */
  ghost predicate ShortIsRight(s: State) {
    s.r.ret < s.r.n && s.h.seen == |s.h.got| && (s.r.ret > 0 || s.h.told)
  }

  /** The stream ends with the bytes of the writer's buffer before i. */
  ghost predicate WriterOk(s: State) {
    && s.w.i <= |s.w.wbuf| && s.h.wstart <= |s.h.sent| && s.h.sent[s.h.wstart..] == s.w.wbuf[..s.w.i]
    && (s.w.pc == WIdle ==> s.w.ret == s.w.i)
    && (s.w.pc != WIdle && !s.w.pc.WFor? ==> s.w.i < |s.w.wbuf|)
    && (s.w.pc.WIndex? || s.w.pc.WByte? || s.w.pc.WLoad? || s.w.pc.WStore? ==> |s.h.sent| < s.h.taken + PIPE_SIZE)
    && (s.w.pc.WCompare? || s.w.pc.WByte? || s.w.pc.WStore? ==> s.w.pc.wpos == s.p.wpos)
    && |s.p.buf| == PIPE_SIZE
    && (s.w.pc.WLoad? || s.w.pc.WStore? ==> s.p.buf[|s.h.sent| % PIPE_SIZE] == s.w.wbuf[s.w.i])
  }

  ghost predicate Inv(s: State) {
    RingOk(s) && ReaderOk(s) && WriterOk(s)
  }

  /** Comparing wrapped counters is comparing the totals, as long as they are near. */
  lemma Wrapped(a: nat, b: nat)
    requires a <= b <= a + PIPE_SIZE
    ensures a % WORD == b % WORD <==> a == b
    ensures (b % WORD - a % WORD) % WORD == b - a
    ensures a % WORD % PIPE_SIZE == a % PIPE_SIZE
    ensures (a % WORD + 1) % WORD == (a + 1) % WORD
  {
  }

  /** Two of fewer than 32 neighbouring bytes lie in different slots. */
  lemma SlotsDiffer(a: nat, b: nat)
    requires a < b < a + PIPE_SIZE
    ensures a % PIPE_SIZE != b % PIPE_SIZE
  {
  }

  lemma OneMore(got: seq<Byte>, b: Byte, start: nat)
    requires start <= |got|
    ensures (got + [b])[start..] == got[start..] + [b]
  {
  }

  lemma ReadByteKeeps(s: State, closed: bool)
    requires Inv(s) && Enabled(s, Read(closed)) && s.r.pc.RByte?
    ensures Inv(ReadStep(s, closed))
  {
    var t := ReadStep(s, closed);
    Wrapped(s.h.taken, |s.h.sent|);
    OneMore(s.h.got, s.h.sent[s.h.taken], s.h.rstart);
    assert s.p.buf[s.h.taken % PIPE_SIZE] == s.h.sent[s.h.taken];
    assert t.h.got == s.h.sent[..s.h.taken] + [s.h.sent[s.h.taken]] == s.h.sent[..s.h.taken + 1];
    assert t.r.rbuf == t.h.got[s.h.rstart..];
  }

  lemma ReadStoreKeeps(s: State, closed: bool)
    requires Inv(s) && Enabled(s, Read(closed)) && s.r.pc.RStore?
    ensures Inv(ReadStep(s, closed))
  {
    Wrapped(s.h.taken, |s.h.sent|);
  }

  lemma ReadKeeps(s: State, closed: bool)
    requires Inv(s) && Enabled(s, Read(closed))
    ensures Inv(ReadStep(s, closed))
  {
    if s.r.pc.RByte? {
      ReadByteKeeps(s, closed);
    } else if s.r.pc.RStore? {
      ReadStoreKeeps(s, closed);
    } else {
      Wrapped(s.h.taken, |s.h.sent|);
    }
  }

  /** The slot written is the one after the bytes in flight: none of them is lost. */
  lemma WriteByteKeeps(s: State, closed: bool)
    requires Inv(s) && Enabled(s, Write(closed)) && s.w.pc.WByte?
    ensures Inv(WriteStep(s, closed))
  {
    Wrapped(|s.h.sent|, |s.h.sent|);
    forall k | s.h.taken <= k < |s.h.sent| ensures k % PIPE_SIZE != |s.h.sent| % PIPE_SIZE {
      SlotsDiffer(k, |s.h.sent|);
    }
  }

  lemma WriteStoreKeeps(s: State, closed: bool)
    requires Inv(s) && Enabled(s, Write(closed)) && s.w.pc.WStore?
    ensures Inv(WriteStep(s, closed))
  {
    var t := WriteStep(s, closed);
    Wrapped(|s.h.sent|, |s.h.sent|);
    assert t.h.sent[s.h.wstart..] == s.h.sent[s.h.wstart..] + [s.w.wbuf[s.w.i]];
    assert s.w.wbuf[..s.w.i + 1] == s.w.wbuf[..s.w.i] + [s.w.wbuf[s.w.i]];
  }

  lemma WriteKeeps(s: State, closed: bool)
    requires Inv(s) && Enabled(s, Write(closed))
    ensures Inv(WriteStep(s, closed))
  {
    if s.w.pc.WByte? {
      WriteByteKeeps(s, closed);
    } else if s.w.pc.WStore? {
      WriteStoreKeeps(s, closed);
    } else {
      WriteElseKeeps(s, closed);
    }
  }

  lemma WriteElseKeeps(s: State, closed: bool)
    requires Inv(s) && Enabled(s, Write(closed)) && !s.w.pc.WByte? && !s.w.pc.WStore?
    ensures Inv(WriteStep(s, closed))
  {
    Wrapped(s.h.taken, |s.h.sent|);
  }

  lemma StepKeeps(s: State, step: Step)
    requires Inv(s) && Enabled(s, step)
    ensures Inv(Do(s, step))
  {
    match step
    case Read(closed) => ReadKeeps(s, closed);
    case Write(closed) => WriteKeeps(s, closed);
    case _ =>
  }

  // ---- Runs -----------------------------------------------------------------------------------

  ghost predicate Legal(s: State, steps: seq<Step>)
    decreases |steps|
  {
    steps != [] ==> Enabled(s, steps[0]) && Legal(Do(s, steps[0]), steps[1..])
  }

  ghost function Run(s: State, steps: seq<Step>): State
    requires Legal(s, steps)
    decreases |steps|
  {
    if steps == [] then s else Run(Do(s, steps[0]), steps[1..])
  }

  /** A new pipe page is all zero. */
  function NewPipe(): State {
    State(Ring(0, 0, seq(PIPE_SIZE, _ => 0)), Reader(RIdle, 0, 0, [], 0), Writer(WIdle, [], 0, 0),
      History([], [], 0, 0, 0, 0, false))
  }

  lemma {:induction false} RunKeeps(s: State, steps: seq<Step>)
    requires Inv(s) && Legal(s, steps)
    ensures Inv(Run(s, steps))
    decreases |steps|
  {
    if steps != [] {
      StepKeeps(s, steps[0]);
      RunKeeps(Do(s, steps[0]), steps[1..]);
    }
  }

  /** The bytes in the ring, oldest first, as the wrapped counters delimit them. */
  function Contents(p: Ring): seq<Byte>
    requires |p.buf| == PIPE_SIZE
  {
    seq((p.wpos - p.rpos) % WORD, k requires 0 <= k => p.buf[(p.rpos + k) % WORD % PIPE_SIZE])
  }

  /** The slot of the k-th byte in the ring, reckoned with wrapped counters. */
  lemma SlotOf(taken: nat, k: nat)
    ensures (taken % WORD + k) % WORD % PIPE_SIZE == (taken + k) % PIPE_SIZE
  {
    var turns := taken / WORD;
    WholeTurns(taken % WORD + k, turns);
  }

  /** Adding whole turns of the 32-bit counter changes no subscript. */
  lemma WholeTurns(a: nat, turns: nat)
    ensures a % 0x1_0000_0000 % 32 == a % 32
    ensures (a + turns * 0x1_0000_0000) % 32 == a % 32
  {
    Rounds(a % 0x1_0000_0000, a / 0x1_0000_0000 * 0x800_0000);
    Rounds(a, turns * 0x800_0000);
  }

  lemma Rounds(a: nat, n: nat)
    ensures (a + n * 32) % 32 == a % 32
  {
  }

  lemma ContentsAreInFlight(p: Ring, sent: seq<Byte>, taken: nat)
    requires |p.buf| == PIPE_SIZE && taken <= |sent| <= taken + PIPE_SIZE
    requires p.rpos == taken % WORD && p.wpos == |sent| % WORD
    requires forall k :: taken <= k < |sent| ==> p.buf[k % PIPE_SIZE] == sent[k]
    ensures Contents(p) == sent[taken..]
  {
    Wrapped(taken, |sent|);
    forall k: nat | k < |sent| - taken ensures sent[taken..][k] == Contents(p)[k] {
      SlotOf(taken, k);
    }
  }

  /** First in, first out, in every run of a new pipe and however the counters wrap: what
      was read is a prefix of what was written, what was written and not yet read is the
      contents of the ring, and a call that returned moved exactly the number of bytes it
      returned, from where it began. */
  lemma Fifo(steps: seq<Step>)
    requires Legal(NewPipe(), steps)
    ensures var s := Run(NewPipe(), steps);
      && s.h.got <= s.h.sent && |s.p.buf| == PIPE_SIZE && |Contents(s.p)| <= PIPE_SIZE
      && s.h.rstart <= |s.h.got| && s.h.wstart <= |s.h.sent|
      && s.h.taken <= |s.h.got| <= s.h.taken + 1 && s.h.sent == s.h.got[..s.h.taken] + Contents(s.p)
      && (s.r.pc == RIdle ==> |s.h.got| == s.h.taken && s.r.ret == |s.r.rbuf| && s.h.got[s.h.rstart..] == s.r.rbuf)
      && (s.w.pc == WIdle ==> s.w.ret <= |s.w.wbuf| && s.h.sent[s.h.wstart..] == s.w.wbuf[..s.w.ret])
  {
    RunKeeps(NewPipe(), steps);
    var s := Run(NewPipe(), steps);
    ContentsAreInFlight(s.p, s.h.sent, s.h.taken);
  }

  /** A read returns fewer bytes than asked, in whatever run of a new pipe, only if its last look
      found the ring empty and it had some bytes or was told that the pipe is closed. */
  lemma ShortRead(steps: seq<Step>)
    requires Legal(NewPipe(), steps) && Run(NewPipe(), steps).r.pc == RIdle
    ensures var s := Run(NewPipe(), steps);
      s.r.ret <= s.r.n && (s.r.ret < s.r.n ==> s.h.seen == |s.h.got| && (s.r.ret > 0 || s.h.told))
  {
    RunKeeps(NewPipe(), steps);
  }

  ghost function Reads(steps: seq<Step>): nat {
    if steps == [] then 0 else Reads(steps[1..]) + if steps[0].Read? then 1 else 0
  }

  ghost function Writes(steps: seq<Step>): nat {
    if steps == [] then 0 else Writes(steps[1..]) + if steps[0].Write? then 1 else 0
  }

  /** The reader is j accesses into a round of its loop that takes a byte. */
  predicate InRound(pc: ReadPc, j: nat) {
    match j
    case 0 => pc.RFor?
    case 1 => pc.RWhile?
    case 2 => pc.RCompare?
    case 3 => pc.RIndex?
    case 4 => pc.RByte?
    case 5 => pc.RLoad?
    case 6 => pc.RStore?
    case _ => false
  }

  /** One step of a round: the reader's own or another. */
  lemma RoundStep(s: State, step: Step, j: nat)
    requires Inv(s) && Enabled(s, step) && InRound(s.r.pc, j) && s.r.i < s.r.n && s.h.taken < |s.h.sent|
    ensures var t := Do(s, step);
      && t.r.n == s.r.n && t.h.rstart == s.h.rstart && s.h.sent <= t.h.sent
      && (if step.Read? && j == 6 then t.r.pc == RFor && t.r.i == s.r.i + 1 && t.h.taken == s.h.taken + 1
          else InRound(t.r.pc, if step.Read? then j + 1 else j) && t.r.i == s.r.i && t.h.taken == s.h.taken)
  {
    Wrapped(s.h.taken, |s.h.sent|);
  }

  /** With k bytes in the ring, and as many asked for, the reader's next 7k accesses take them, one
      in every round, whatever the writer does in between. */
  lemma {:induction false} TakesThem(s: State, steps: seq<Step>, j: nat, k: nat)
    requires Inv(s) && Legal(s, steps) && InRound(s.r.pc, j) && Reads(steps) + j == 7 * k
    requires s.r.i + k <= s.r.n && s.h.taken + k <= |s.h.sent|
    ensures var t := Run(s, steps);
      && Inv(t) && t.r.pc == RFor && t.r.i == s.r.i + k && t.r.n == s.r.n && t.h.rstart == s.h.rstart
      && t.h.taken == s.h.taken + k && s.h.sent <= t.h.sent
    decreases |steps|
  {
    if steps != [] {
      var t := Do(s, steps[0]);
      StepKeeps(s, steps[0]);
      if k > 0 {
        RoundStep(s, steps[0], j);
      }
      if steps[0].Read? && j == 6 {
        TakesThem(t, steps[1..], 0, k - 1);
      } else {
        TakesThem(t, steps[1..], if steps[0].Read? then j + 1 else j, k);
      }
    }
  }

  /** A call for n bytes, with n in the ring, returns the n oldest, after 7n + 1 accesses of its
      own and whatever the writer does in between. */
  lemma FullRead(s: State, n: nat, steps: seq<Step>, closed: bool)
    requires Inv(s) && s.r.pc == RIdle && s.h.taken + n <= |s.h.sent|
    requires Legal(Do(s, ReadCall(n)), steps) && Reads(steps) == 7 * n
    ensures var t := Run(Do(s, ReadCall(n)), steps);
      Enabled(t, Read(closed)) &&
      var r := Do(t, Read(closed)).r; r.pc == RIdle && r.ret == n && r.rbuf == s.h.sent[s.h.taken..s.h.taken + n]
  {
    StepKeeps(s, ReadCall(n));
    TakesThem(Do(s, ReadCall(n)), steps, 0, n);
  }

  /** The reader is j accesses into a round of its loop that finds the ring empty. */
  predicate InLook(pc: ReadPc, j: nat) {
    if j == 3 then pc.REmpty? else j < 3 && InRound(pc, j)
  }

  lemma {:induction false} SentGrows(s: State, steps: seq<Step>)
    requires Legal(s, steps)
    ensures s.h.sent <= Run(s, steps).h.sent
    decreases |steps|
  {
    if steps != [] { SentGrows(Do(s, steps[0]), steps[1..]); }
  }

  /** On an empty ring that stays empty, a read returns what it has, if that is something or it is
      told that the pipe is closed, and looks again otherwise. */
  lemma {:induction false} EmptyRing(s: State, steps: seq<Step>, j: nat, closed: bool)
    requires Inv(s) && Legal(s, steps) && InLook(s.r.pc, j) && Reads(steps) + j == 3 && s.r.i < s.r.n
    requires s.h.taken == |s.h.sent| && Run(s, steps).h.sent == s.h.sent
    ensures var t := Run(s, steps);
      t.r.pc == REmpty && t.r.i == s.r.i && Enabled(t, Read(closed)) &&
      var r := Do(t, Read(closed)).r;
      if closed || s.r.i > 0 then r.pc == RIdle && r.ret == s.r.i else r.pc == RWhile && r.i == 0
    decreases |steps|
  {
    if steps != [] {
      var t := Do(s, steps[0]);
      StepKeeps(s, steps[0]);
      SentGrows(t, steps[1..]);
      Wrapped(s.h.taken, |s.h.sent|);
      EmptyRing(t, steps[1..], if steps[0].Read? then j + 1 else j, closed);
    }
  }

  /** The writer is j accesses into a round of its loop that puts a byte. */
  predicate InPut(pc: WritePc, j: nat) {
    match j
    case 0 => pc.WFor?
    case 1 => pc.WWhile?
    case 2 => pc.WCompare?
    case 3 => pc.WIndex?
    case 4 => pc.WByte?
    case 5 => pc.WLoad?
    case 6 => pc.WStore?
    case _ => false
  }

  lemma PutStep(s: State, step: Step, j: nat)
    requires Inv(s) && Enabled(s, step) && InPut(s.w.pc, j) && s.w.i < |s.w.wbuf| && |s.h.sent| < s.h.taken + PIPE_SIZE
    ensures var t := Do(s, step);
      && t.w.wbuf == s.w.wbuf && t.h.wstart == s.h.wstart && s.h.taken <= t.h.taken
      && (if step.Write? && j == 6 then t.w.pc == WFor && t.w.i == s.w.i + 1 && |t.h.sent| == |s.h.sent| + 1
          else InPut(t.w.pc, if step.Write? then j + 1 else j) && t.w.i == s.w.i && |t.h.sent| == |s.h.sent|)
  {
    Wrapped(s.h.taken, |s.h.sent|);
  }

  /** With k free slots, and as many bytes to write, the writer's next 7k accesses put them in,
      whatever the reader does in between. */
  lemma {:induction false} PutsThem(s: State, steps: seq<Step>, j: nat, k: nat)
    requires Inv(s) && Legal(s, steps) && InPut(s.w.pc, j) && Writes(steps) + j == 7 * k
    requires s.w.i + k <= |s.w.wbuf| && |s.h.sent| + k <= s.h.taken + PIPE_SIZE
    ensures var t := Run(s, steps);
      && Inv(t) && t.w.pc == WFor && t.w.i == s.w.i + k && t.w.wbuf == s.w.wbuf && t.h.wstart == s.h.wstart
    decreases |steps|
  {
    if steps != [] {
      var t := Do(s, steps[0]);
      StepKeeps(s, steps[0]);
      if k > 0 {
        PutStep(s, steps[0], j);
      }
      if steps[0].Write? && j == 6 {
        PutsThem(t, steps[1..], 0, k - 1);
      } else {
        PutsThem(t, steps[1..], if steps[0].Write? then j + 1 else j, k);
      }
    }
  }

  /** A call to write bytes for which there is room writes them all, after 7n + 1 accesses of its
      own and whatever the reader does in between. */
  lemma FullWrite(s: State, wbuf: seq<Byte>, steps: seq<Step>, closed: bool)
    requires Inv(s) && s.w.pc == WIdle && |s.h.sent| + |wbuf| <= s.h.taken + PIPE_SIZE
    requires Legal(Do(s, WriteCall(wbuf)), steps) && Writes(steps) == 7 * |wbuf|
    ensures var t := Run(Do(s, WriteCall(wbuf)), steps);
      Enabled(t, Write(closed)) &&
      var u := Do(t, Write(closed)); u.w.pc == WIdle && u.w.ret == |wbuf| && u.h.sent == s.h.sent + wbuf
  {
    var t0 := Do(s, WriteCall(wbuf));
    StepKeeps(s, WriteCall(wbuf));
    PutsThem(t0, steps, 0, |wbuf|);
    SentGrows(t0, steps);
    var t := Run(t0, steps);
    assert t.h.sent == t.h.sent[..t.h.wstart] + t.h.sent[t.h.wstart..];
    assert t.w.wbuf[..t.w.i] == wbuf;
  }

  /** The writer is j accesses into a round of its loop that finds the ring full. */
  predicate InFull(pc: WritePc, j: nat) {
    if j == 3 then pc.WFull? else j < 3 && InPut(pc, j)
  }

  lemma {:induction false} TakenGrows(s: State, steps: seq<Step>)
    requires Legal(s, steps)
    ensures s.h.taken <= Run(s, steps).h.taken
    decreases |steps|
  {
    if steps != [] { TakenGrows(Do(s, steps[0]), steps[1..]); }
  }

  /** On a full ring that stays full, a write returns what it wrote so far if it is told that the
      pipe is closed, and looks again otherwise. */
  lemma {:induction false} FullRing(s: State, steps: seq<Step>, j: nat, closed: bool)
    requires Inv(s) && Legal(s, steps) && InFull(s.w.pc, j) && Writes(steps) + j == 3 && s.w.i < |s.w.wbuf|
    requires |s.h.sent| == s.h.taken + PIPE_SIZE && Run(s, steps).h.taken == s.h.taken
    ensures var t := Run(s, steps);
      t.w.pc == WFull && t.w.i == s.w.i && Enabled(t, Write(closed)) &&
      var w := Do(t, Write(closed)).w;
      if closed then w.pc == WIdle && w.ret == s.w.i else w.pc == WWhile && w.i == s.w.i
    decreases |steps|
  {
    if steps != [] {
      var t := Do(s, steps[0]);
      StepKeeps(s, steps[0]);
      TakenGrows(t, steps[1..]);
      Wrapped(s.h.taken, |s.h.sent|);
      FullRing(t, steps[1..], if steps[0].Write? then j + 1 else j, closed);
    }
  }

  /** A call that asked for bytes returns none only when the pipe was reported closed. */
  lemma ZeroReadMeansClosed(s: State, closed: bool)
    requires Inv(s) && Enabled(s, Read(closed)) && s.r.n > 0
    ensures var t := ReadStep(s, closed); t.r.pc == RIdle && t.r.ret == 0 ==> closed
  {
  }

  /** A write is cut short only when the pipe was reported closed. */
  lemma ShortWriteMeansClosed(s: State, closed: bool)
    requires Inv(s) && Enabled(s, Write(closed))
    ensures var t := WriteStep(s, closed); t.w.pc == WIdle && t.w.ret < |t.w.wbuf| ==> closed
  {
  }
}
