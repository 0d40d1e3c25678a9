/** Chains of commands on one shell line (user/sh.c): the scan-and-run loop executes AND-OR
    lists as XCU section 2.9.3 of POSIX.1-2017 prescribes. */
module Chain {
  /** What stands behind a command. */
  datatype Sep = AndIf | OrIf | Semi | Eol

  datatype Item = Item(cmd: string, sep: Sep)

  /** What running a command comes to: a status, or the end of the shell. */
  datatype Outcome = Status(n: int) | Exits

  /** The commands executed so far, in order, and `last_status`. */
  datatype State = State(executed: seq<string>, status: int, exited: bool)

  /** `run` says how a command ends, given all that were executed up to and including it. */
  function Execute(s: State, cmd: string, run: seq<string> -> Outcome): State {
    var all := s.executed + [cmd];
    match run(all)
    case Status(n) => State(all, n, false)
    case Exits => State(all, s.status, true)
  }

  // ---- AND-OR lists --------------------------------------------------------------------

  /** Left-associative, && and || with the same precedence. */
  datatype List = Command(cmd: string) | And(left: List, cmd: string) | Or(left: List, cmd: string)

  function EvalList(l: List, s: State, run: seq<string> -> Outcome): State {
    match l
    case Command(c) => Execute(s, c, run)
    case And(left, c) =>
      var t := EvalList(left, s, run);
      if !t.exited && t.status == 0 then Execute(t, c, run) else t
    case Or(left, c) =>
      var t := EvalList(left, s, run);
      if !t.exited && t.status != 0 then Execute(t, c, run) else t
  }

  function EvalAll(lists: seq<List>, s: State, run: seq<string> -> Outcome): State {
    if lists == [] || s.exited then s else EvalAll(lists[1..], EvalList(lists[0], s, run), run)
  }

  /** The lists a sequence of commands and separators stands for. */
  function Parse(items: seq<Item>): seq<List>
    decreases |items|, 0
  {
    if items == [] then [] else Grow(Command(items[0].cmd), items[0].sep, items[1..])
  }

  function Grow(l: List, sep: Sep, rest: seq<Item>): seq<List>
    decreases |rest|, 1
  {
    if rest == [] then [l]
    else
      match sep
      case AndIf => Grow(And(l, rest[0].cmd), rest[0].sep, rest[1..])
      case OrIf => Grow(Or(l, rest[0].cmd), rest[0].sep, rest[1..])
      case _ => [l] + Parse(rest)
  }

  // ---- The loop's way -------------------------------------------------------------------

  /** Whether the command behind the separator should run. */
  predicate Next(sep: Sep, status: int) {
    match sep
    case AndIf => status == 0
    case OrIf => status != 0
    case _ => true
  }

  function Loop(items: seq<Item>, shouldRun: bool, s: State, run: seq<string> -> Outcome): State
    decreases |items|
  {
    if items == [] || s.exited then s
    else
      var t := if shouldRun then Execute(s, items[0].cmd, run) else s;
      Loop(items[1..], Next(items[0].sep, t.status), t, run)
  }

  lemma LoopStep(item: Item, rest: seq<Item>, shouldRun: bool, s: State, run: seq<string> -> Outcome)
    requires !s.exited
    ensures var t := if shouldRun then Execute(s, item.cmd, run) else s;
      Loop([item] + rest, shouldRun, s, run) == if t.exited then t else Loop(rest, Next(item.sep, t.status), t, run)
  {
    assert ([item] + rest)[1..] == rest;
  }

  lemma {:induction false} LoopFromList(l: List, sep: Sep, rest: seq<Item>, s: State, run: seq<string> -> Outcome)
    requires !s.exited
    ensures var t := EvalList(l, s, run);
      Loop(rest, Next(sep, t.status), t, run) == EvalAll(Grow(l, sep, rest), s, run)
    decreases |rest|
  {
    var t := EvalList(l, s, run);
    if rest != [] {
      match sep
      case AndIf => LoopFromList(And(l, rest[0].cmd), rest[0].sep, rest[1..], s, run);
      case OrIf => LoopFromList(Or(l, rest[0].cmd), rest[0].sep, rest[1..], s, run);
      case _ =>
        assert ([l] + Parse(rest))[1..] == Parse(rest);
        if !t.exited { LoopFromList(Command(rest[0].cmd), rest[0].sep, rest[1..], t, run); }
    } else {
      assert EvalAll([l], s, run) == EvalAll([l][1..], t, run);
    }
  }

  /** The flag and the last status are enough: whatever the statuses, exactly the commands
      of the AND-OR lists run, in order, and the last status is theirs. */
  lemma LoopRunsAndOrLists(items: seq<Item>, s: State, run: seq<string> -> Outcome)
    requires !s.exited
    ensures Loop(items, true, s, run) == EvalAll(Parse(items), s, run)
  {
    if items != [] { LoopFromList(Command(items[0].cmd), items[0].sep, items[1..], s, run); }
  }

  // ---- What has been executed ---------------------------------------------------------------

  /** The last status is that of the last command executed, and no command before it ended the
      shell. */
  ghost predicate Traced(s: State, run: seq<string> -> Outcome) {
    && (s.executed != [] ==> run(s.executed) == if s.exited then Exits else Status(s.status))
    && forall k :: 0 < k < |s.executed| ==> run(s.executed[..k]).Status?
  }

  lemma ExecuteTraced(s: State, cmd: string, run: seq<string> -> Outcome)
    requires Traced(s, run) && !s.exited
    ensures var t := Execute(s, cmd, run); Traced(t, run) && t.executed == s.executed + [cmd]
  {
    var all := s.executed + [cmd];
    forall k | 0 < k < |all| ensures run(all[..k]).Status? {
      assert all[..k] == if k == |s.executed| then s.executed else s.executed[..k];
    }
  }

  /** The commands among the items, one for each flag that is set, in order. */
  function Chosen(items: seq<Item>, flags: seq<bool>): seq<string>
    requires |flags| <= |items|
  {
    if flags == [] then [] else (if flags[0] then [items[0].cmd] else []) + Chosen(items[1..], flags[1..])
  }

  lemma {:induction false} LoopTraced(items: seq<Item>, shouldRun: bool, s: State, run: seq<string> -> Outcome)
    returns (flags: seq<bool>)
    requires Traced(s, run)
    ensures var t := Loop(items, shouldRun, s, run);
      Traced(t, run) && |flags| <= |items| && t.executed == s.executed + Chosen(items, flags)
    ensures items != [] && !s.exited ==> flags != [] && flags[0] == shouldRun
    decreases |items|
  {
    flags := [];
    if items != [] && !s.exited {
      var t := if shouldRun then Execute(s, items[0].cmd, run) else s;
      if shouldRun { ExecuteTraced(s, items[0].cmd, run); }
      var rest := LoopTraced(items[1..], Next(items[0].sep, t.status), t, run);
      flags := [shouldRun] + rest;
      assert flags[1..] == rest;
    }
  }

  /** What a line executes are commands of the line in order, beginning with the first; each is run
      after those before it, none after one that ended the shell, and the last status is the last
      one's. */
  lemma ListsAreTraced(items: seq<Item>, run: seq<string> -> Outcome) returns (flags: seq<bool>)
    requires items != []
    ensures var t := EvalAll(Parse(items), State([], 0, false), run);
      Traced(t, run) && 0 < |flags| <= |items| && flags[0] && t.executed == Chosen(items, flags)
  {
    LoopRunsAndOrLists(items, State([], 0, false), run);
    flags := LoopTraced(items, true, State([], 0, false), run);
  }

  // ---- Scanning the line ------------------------------------------------------------------

  const WHITESPACE := " \t\r\n"

  predicate White(c: char) { c == ' ' || c == '\t' || c == '\r' || c == '\n' }

  function SkipWhite(line: string, k: nat): (r: nat)
    requires k <= |line|
    ensures k <= r <= |line|
    decreases |line| - k
  {
    if k < |line| && White(line[k]) then SkipWhite(line, k + 1) else k
  }

  predicate Begins(line: string, i: nat, s: string) {
    i + |s| <= |line| && line[i..i + |s|] == s
  }

  /** The separator at position i, if there is one. */
  function SepAt(line: string, i: nat): Sep {
    if Begins(line, i, "&&") then AndIf
    else if Begins(line, i, "||") then OrIf
    else if Begins(line, i, ";") then Semi
    else Eol
  }

  /** The first position from k on where a separator stands, or the end. */
  function SepFrom(line: string, k: nat): (r: nat)
    requires k <= |line|
    ensures k <= r <= |line| && (r < |line| <==> SepAt(line, r) != Eol)
    decreases |line| - k
  {
    if k == |line| || SepAt(line, k) != Eol then k else SepFrom(line, k + 1)
  }

  function Width(sep: Sep): nat { if sep.Semi? then 1 else if sep.Eol? then 0 else 2 }

  /** The next command with its separator, and where the line goes on. */
  datatype Cut = Nothing | Cut(item: Item, next: nat)

  function FirstCut(line: string, k: nat): (c: Cut)
    requires k <= |line|
    ensures c.Cut? ==> c.next <= |line| && (c.item.sep != Eol ==> c.next > k)
  {
    var j := SkipWhite(line, k);
    if j == |line| then Nothing
    else
      var e := SepFrom(line, j);
      if e == |line| then Cut(Item(line[j..], Eol), e)
      else
        SepFits(line, e);
        Cut(Item(line[j..e], SepAt(line, e)), e + Width(SepAt(line, e)))
  }

  lemma SepFits(line: string, e: nat)
    requires e < |line|
    ensures e + Width(SepAt(line, e)) <= |line|
  {
  }

  /** The commands and separators of the line from position k on. */
  function Items(line: string, k: nat): seq<Item>
    requires k <= |line|
    decreases |line| - k
  {
    match FirstCut(line, k)
    case Nothing => []
    case Cut(item, next) => [item] + if item.sep == Eol then [] else Items(line, next)
  }

  lemma ItemsAre(line: string, k: nat, item: Item, next: nat, rest: seq<Item>)
    requires k <= |line| && FirstCut(line, k) == Cut(item, next)
    requires rest == if item.sep == Eol then [] else Items(line, next)
    ensures Items(line, k) == [item] + rest
  {
  }

  function SepText(sep: Sep): string {
    match sep
    case AndIf => "&&"
    case OrIf => "||"
    case Semi => ";"
    case Eol => ""
  }

  /** The line that commands and separators are written as, each command behind its white space. */
  function Line(items: seq<Item>, pads: seq<string>): string
    requires |pads| == |items|
  {
    if items == [] then "" else pads[0] + (items[0].cmd + (SepText(items[0].sep) + Line(items[1..], pads[1..])))
  }

  /** White space only. */
  predicate IsPad(pad: string) {
    forall i :: 0 <= i < |pad| ==> pad[i] in WHITESPACE
  }

  /** A command that begins visibly and holds no character of a separator. */
  predicate IsSimple(cmd: string) {
    cmd != "" && cmd[0] !in WHITESPACE && forall i :: 0 <= i < |cmd| ==> cmd[i] != '&' && cmd[i] != '|' && cmd[i] != ';'
  }

  /** Simple commands with a separator between each two of them. */
  predicate IsChain(items: seq<Item>) {
    forall i :: 0 <= i < |items| ==> IsSimple(items[i].cmd) && (items[i].sep == Eol <==> i == |items| - 1)
  }

  lemma Piece(line: string, k: nat, a: string, b: string)
    requires k <= |line| && line[k..] == a + b
    ensures k + |a| <= |line| && line[k..k + |a|] == a && line[k + |a|..] == b
    ensures forall i :: k <= i < k + |a| ==> line[i] == a[i - k]
  {
    assert line[k..][..|a|] == a && line[k..][|a|..] == b;
    assert forall i :: k <= i < k + |a| ==> line[i] == line[k..][i - k];
  }

  lemma {:induction false} PadSkipped(line: string, k: nat, pad: string, tail: string)
    requires k <= |line| && line[k..] == pad + tail && IsPad(pad) && (tail != "" ==> tail[0] !in WHITESPACE)
    ensures SkipWhite(line, k) == k + |pad| <= |line| && line[k + |pad|..] == tail
    decreases |pad|
  {
    Piece(line, k, pad, tail);
    if pad != "" {
      assert line[k] == pad[0];
      Piece(line, k, pad[..1], pad[1..] + tail) by { assert pad == pad[..1] + pad[1..]; }
      PadSkipped(line, k + 1, pad[1..], tail);
    } else if tail != "" {
      assert line[k] == tail[0];
    }
  }

  /** A simple command at position k, with `tail` behind it. */
  lemma CommandThere(line: string, k: nat, cmd: string, tail: string)
    requires k <= |line| && line[k..] == cmd + tail && IsSimple(cmd)
    ensures var e := k + |cmd|;
      && k < e <= |line| && line[k..e] == cmd && line[e..] == tail
      && forall i :: k <= i < e ==> SepAt(line, i) == Eol
  {
    Piece(line, k, cmd, tail);
    forall i | k <= i < k + |cmd| ensures SepAt(line, i) == Eol {
      assert line[i] == cmd[i - k];
      OneSeparator(line, i);
    }
  }

  lemma SeparatorThere(line: string, e: nat, sep: Sep, rest: string)
    requires sep != Eol && e <= |line| && line[e..] == SepText(sep) + rest
    ensures SepAt(line, e) == sep && e + Width(sep) <= |line| && line[e + Width(sep)..] == rest
  {
    Piece(line, e, SepText(sep), rest);
    assert line[e] == SepText(sep)[0];
    OneSeparator(line, e);
  }

  lemma SeparatorBehind(line: string, j: nat, cmd: string, sep: Sep, rest: string)
    requires j <= |line| && line[j..] == cmd + (SepText(sep) + rest) && IsSimple(cmd) && sep != Eol
    ensures var e := j + |cmd|;
      && j < e == SepFrom(line, j) < |line| && line[j..e] == cmd && SepAt(line, e) == sep
      && e + Width(sep) <= |line| && line[e + Width(sep)..] == rest
  {
    CommandThere(line, j, cmd, SepText(sep) + rest);
    SeparatorThere(line, j + |cmd|, sep, rest);
    SepFromIs(line, j, j + |cmd|);
  }

  lemma CutAt(line: string, k: nat, j: nat, e: nat)
    requires k <= |line| && SkipWhite(line, k) == j < |line| && SepFrom(line, j) == e < |line|
    ensures FirstCut(line, k) == Cut(Item(line[j..e], SepAt(line, e)), e + Width(SepAt(line, e)))
  {
  }

  lemma Begun(cmd: string, tail: string)
    requires IsSimple(cmd)
    ensures (cmd + tail)[0] !in WHITESPACE
  {
  }

  /** The first command and separator of the line. */
  lemma CutsFirst(line: string, k: nat, pad: string, cmd: string, sep: Sep, rest: string)
    requires k <= |line| && line[k..] == pad + (cmd + (SepText(sep) + rest))
    requires IsPad(pad) && IsSimple(cmd) && sep != Eol
    ensures var next := k + |pad| + |cmd| + Width(sep);
      next <= |line| && line[next..] == rest && FirstCut(line, k) == Cut(Item(cmd, sep), next)
  {
    var j := k + |pad|;
    Begun(cmd, SepText(sep) + rest);
    PadSkipped(line, k, pad, cmd + (SepText(sep) + rest));
    SeparatorBehind(line, j, cmd, sep, rest);
    CutAt(line, k, j, j + |cmd|);
  }

  lemma CutsLast(line: string, k: nat, pad: string, cmd: string)
    requires k <= |line| && line[k..] == pad + cmd && IsPad(pad) && IsSimple(cmd)
    ensures FirstCut(line, k) == Cut(Item(cmd, Eol), |line|)
  {
    PadSkipped(line, k, pad, cmd);
    var j := k + |pad|;
    assert line[j..] == cmd + "";
    CommandThere(line, j, cmd, "");
    SepFromIs(line, j, |line|);
  }

  lemma ChainTail(items: seq<Item>, pads: seq<string>)
    requires IsChain(items) && items != [] && |pads| == |items|
    ensures IsSimple(items[0].cmd) && IsChain(items[1..]) && items == [items[0]] + items[1..]
    ensures items[0].sep == Eol <==> items[1..] == []
    ensures items[0].sep == Eol ==> Line(items, pads) == pads[0] + items[0].cmd
  {
    if items[0].sep == Eol { assert Line(items[1..], pads[1..]) == "" && items[0].cmd + ("" + "") == items[0].cmd; }
  }

  /** Writing a chain of commands as a line, with any white space before each of them, and
      splitting the line gives them back. */
  lemma {:induction false} SplittingIsInverse(items: seq<Item>, pads: seq<string>, line: string, k: nat)
    requires IsChain(items) && |pads| == |items| && k <= |line| && line[k..] == Line(items, pads)
    requires forall i :: 0 <= i < |pads| ==> IsPad(pads[i])
    ensures Items(line, k) == items
    decreases |items|
  {
    if items == [] {
      assert k == |line|;
    } else {
      var first, rest := items[0], items[1..];
      ChainTail(items, pads);
      if first.sep == Eol {
        CutsLast(line, k, pads[0], first.cmd);
        ItemsAre(line, k, first, |line|, rest);
      } else {
        CutsFirst(line, k, pads[0], first.cmd, first.sep, Line(rest, pads[1..]));
        var next := k + |pads[0]| + |first.cmd| + Width(first.sep);
        SplittingIsInverse(rest, pads[1..], line, next);
        ItemsAre(line, k, first, next, rest);
      }
    }
  }

  /** my_strstr from position k on: the first occurrence, or -1. */
  method StrStr(line: string, k: nat, needle: string) returns (r: int)
    requires k <= |line| && needle != ""
    ensures r == -1 ==> forall i :: k <= i < |line| ==> !Begins(line, i, needle)
    ensures r != -1 ==> k <= r < |line| && Begins(line, r, needle) && forall i :: k <= i < r ==>
      !Begins(line, i, needle)
  {
    var h0 := k;
    while h0 < |line|
      invariant k <= h0 <= |line| && forall i :: k <= i < h0 ==> !Begins(line, i, needle)
    {
      var h, n := h0, 0;
      while h < |line| && n < |needle| && line[h] == needle[n]
        invariant h == h0 + n <= |line| && n <= |needle| && line[h0..h] == needle[..n]
      {
        assert line[h0..h + 1] == line[h0..h] + [line[h]] && needle[..n + 1] == needle[..n] + [needle[n]];
        h, n := h + 1, n + 1;
      }
      if n == |needle| {
        assert needle[..n] == needle;
        return h0;
      }
      assert h0 + |needle| <= |line| ==> line[h0..h0 + |needle|][n] == line[h0 + n];
      h0 := h0 + 1;
    }
    r := -1;
  }

  /** strchr from position k on. */
  method StrChr(line: string, k: nat, c: char) returns (r: int)
    requires k <= |line|
    ensures r == -1 ==> forall i :: k <= i < |line| ==> !Begins(line, i, [c])
    ensures r != -1 ==> k <= r < |line| && Begins(line, r, [c]) && forall i :: k <= i < r ==> !Begins(line, i, [c])
  {
    var i := k;
    while i < |line|
      invariant k <= i <= |line| && forall j :: k <= j < i ==> !Begins(line, j, [c])
    {
      if line[i] == c {
        assert line[i..i + 1] == [c];
        return i;
      }
      i := i + 1;
    }
    r := -1;
  }

  lemma {:induction false} SepFromIs(line: string, k: nat, e: nat)
    requires k <= e <= |line| && (forall i :: k <= i < e ==> SepAt(line, i) == Eol) &&
      (e < |line| ==> SepAt(line, e) != Eol)
    ensures SepFrom(line, k) == e
    decreases e - k
  {
    if k < e { SepFromIs(line, k + 1, e); }
  }

  /** The earliest of `&&`, `||` and `;` from position k on; -1 if there is none. */
  method NextSeparator(line: string, k: nat) returns (separator: int, width: nat)
    requires k <= |line|
    ensures separator == -1 ==> SepFrom(line, k) == |line|
    ensures separator != -1 ==> SepFrom(line, k) == separator < |line| && width == Width(SepAt(line, separator))
  {
    var nextAnd := StrStr(line, k, "&&");
    var nextOr := StrStr(line, k, "||");
    var nextSemi := StrChr(line, k, ';');
    separator, width := -1, 0;
    if nextAnd != -1 && (separator == -1 || nextAnd < separator) {
      separator := nextAnd;
    }
    if nextOr != -1 && (separator == -1 || nextOr < separator) {
      separator := nextOr;
    }
    if nextSemi != -1 && (separator == -1 || nextSemi < separator) {
      separator := nextSemi;
    }
    if separator != -1 {
      width := if separator == nextSemi then 1 else 2;
      OneSeparator(line, separator);
    }
    SepFromIs(line, k, if separator == -1 then |line| else separator);
  }

  /** No two separators begin at the same position. */
  lemma OneSeparator(line: string, i: nat)
    requires i < |line|
    ensures Begins(line, i, "&&") ==> line[i] == '&'
    ensures Begins(line, i, "||") ==> line[i] == '|'
    ensures Begins(line, i, ";") ==> line[i] == ';'
  {
    if i + 2 <= |line| { assert line[i] == line[i..i + 2][0]; }
    assert line[i] == line[i..i + 1][0];
  }

  /** White space skipped, and the next separator looked for; `found` is false if nothing
      but white space was left. */
  method Scan(line: string, k: nat) returns (found: bool, cmd: string, separator: int, width: nat)
    requires k <= |line|
    ensures found <==> FirstCut(line, k) != Nothing
    ensures found && separator == -1 ==> FirstCut(line, k) == Cut(Item(cmd, Eol), |line|)
    ensures found && separator != -1 ==> (
      && k <= separator < |line| && width == Width(SepAt(line, separator)) > 0
      && FirstCut(line, k) == Cut(Item(cmd, SepAt(line, separator)), separator + width))
  {
    var at := k;
    while at < |line| && White(line[at])
      invariant k <= at <= |line| && SkipWhite(line, at) == SkipWhite(line, k)
    {
      at := at + 1;
    }
    if at == |line| {
      return false, "", -1, 0;
    }
    separator, width := NextSeparator(line, at);
    cmd := if separator != -1 then line[at..separator] else line[at..];
    found := true;
  }

  /** Whether the command behind the separator should run. */
  method Decide(line: string, separator: nat, width: nat, status: int) returns (shouldRun: bool)
    requires separator < |line| && width == Width(SepAt(line, separator)) > 0
    ensures shouldRun == Next(SepAt(line, separator), status)
  {
    OneSeparator(line, separator);
    if width == 2 && line[separator] == '&' {
      shouldRun := status == 0;
    } else if width == 2 && line[separator] == '|' {
      shouldRun := status != 0;
    } else {
      shouldRun := true;
    }
  }

  /** What the loop makes of the line from position k on. */
  function Rest(line: string, k: nat, shouldRun: bool, s: State, run: seq<string> -> Outcome): State
    requires k <= |line|
  {
    Loop(Items(line, k), shouldRun, s, run)
  }

  lemma RestStep(line: string, k: nat, item: Item, next: nat, shouldRun: bool, s: State, run: seq<string> -> Outcome)
    requires k <= |line| && FirstCut(line, k) == Cut(item, next) && !s.exited
    ensures var t := if shouldRun then Execute(s, item.cmd, run) else s;
      Rest(line, k, shouldRun, s, run) ==
        if t.exited || item.sep == Eol then t else Rest(line, next, Next(item.sep, t.status), t, run)
  {
    var rest := if item.sep == Eol then [] else Items(line, next);
    ItemsAre(line, k, item, next, rest);
    LoopStep(item, rest, shouldRun, s, run);
  }

  lemma RestIsDone(line: string, k: nat, shouldRun: bool, s: State, run: seq<string> -> Outcome)
    requires k <= |line| && FirstCut(line, k) == Nothing
    ensures Rest(line, k, shouldRun, s, run) == s
  {
  }

  /** One round of the loop; what is left to do is the same before and after it. */
  method Round(line: string, at: nat, shouldRun: bool, s: State, run: seq<string> -> Outcome)
    returns (done: bool, next: nat, runNext: bool, t: State)
    requires at < |line| && !s.exited
    ensures done ==> Rest(line, at, shouldRun, s, run) == t
    ensures !done ==> at < next <= |line| && !t.exited
    ensures !done ==> Rest(line, at, shouldRun, s, run) == Rest(line, next, runNext, t, run)
  {
    done, next, runNext, t := true, at, shouldRun, s;
    var found, cmd, separator, width := Scan(line, at);
    if !found {
      RestIsDone(line, at, shouldRun, s, run);
      return;
    }
    if shouldRun {
      t := Execute(s, cmd, run);
    }
    if separator == -1 {
      RestStep(line, at, Item(cmd, Eol), |line|, shouldRun, s, run);
      return;
    }
    RestStep(line, at, Item(cmd, SepAt(line, separator)), separator + width, shouldRun, s, run);
    if t.exited {
      return;
    }
    runNext := Decide(line, separator, width, t.status);
    done, next := false, separator + width;
  }

  /** The loop over one line. */
  method RunLoop(line: string, run: seq<string> -> Outcome) returns (s: State)
    ensures s == Rest(line, 0, true, State([], 0, false), run)
  {
    s := State([], 0, false);
    ghost var result := Rest(line, 0, true, s, run);
    var at, shouldRun := 0, true;
    while at < |line|
      invariant at <= |line| && !s.exited && Rest(line, at, shouldRun, s, run) == result
      decreases |line| - at
    {
      var done;
      done, at, shouldRun, s := Round(line, at, shouldRun, s, run);
      if done {
        return;
      }
    }
    RestIsDone(line, at, shouldRun, s, run);
  }

  /** The shell on one line: it executes what the AND-OR lists of the line say. */
  method RunLine(line: string, run: seq<string> -> Outcome) returns (s: State)
    ensures s == EvalAll(Parse(Items(line, 0)), State([], 0, false), run)
  {
    s := RunLoop(line, run);
    LoopRunsAndOrLists(Items(line, 0), State([], 0, false), run);
  }
}
