/** The line editor and its history (user/lib/shellio.c), on memmove (lib/string.c). */
module Editor {
  const MAX_CMD_LEN := 1024
  const MAX_HISTORY := 20

  // ---- What the keys mean -----------------------------------------------------------------

  /** The line, before and behind the cursor. */
  datatype Line = Line(left: string, right: string)

  function Text(line: Line): string { line.left + line.right }

  datatype Key =
    | Char(c: char) | Backspace | KillRight | KillLeft | KillWord
    | Left | Right | Home | EndOfLine | Up | Down

  predicate Blank(c: char) { c == ' ' || c == '\t' }

  function DropBlanks(s: string): (r: string)
    ensures r <= s
  {
    if s != "" && Blank(s[|s| - 1]) then DropBlanks(s[..|s| - 1]) else s
  }

  function DropWord(s: string): (r: string)
    ensures r <= s
  {
    if s != "" && !Blank(s[|s| - 1]) then DropWord(s[..|s| - 1]) else s
  }

  predicate Printable(c: char) { ' ' <= c < 127 as char }

  /** The editing keys; Up and Down are the history's. */
  function Edit(line: Line, key: Key): Line {
    match key
    case Char(c) => if |Text(line)| < MAX_CMD_LEN - 1 && Printable(c) then line.(left := line.left + [c]) else line
    case Backspace => if line.left != "" then line.(left := line.left[..|line.left| - 1]) else line
    case Home => Line("", Text(line))
    case EndOfLine => Line(Text(line), "")
    case KillRight => line.(right := "")
    case KillLeft => line.(left := "")
    case KillWord => line.(left := DropWord(DropBlanks(line.left)))
    case Left =>
      if line.left == "" then line
      else Line(line.left[..|line.left| - 1], [line.left[|line.left| - 1]] + line.right)
    case Right => if line.right == "" then line else Line(line.left + [line.right[0]], line.right[1..])
    case _ => line
  }

  /** Moving the cursor keeps the text. */
  lemma MovesKeepText(line: Line, key: Key)
    requires key == Left || key == Right || key == Home || key == EndOfLine
    ensures Text(Edit(line, key)) == Text(line)
  {
    match key
    case Left => if line.left != "" { assert line.left == line.left[..|line.left| - 1] + [line.left[|line.left| - 1]]; }
    case Right => if line.right != "" { assert line.right == [line.right[0]] + line.right[1..]; }
    case _ =>
  }

  /** Left and Right undo each other. */
  lemma MovesAreInverse(line: Line)
    ensures line.left != "" ==> Edit(Edit(line, Left), Right) == line
    ensures line.right != "" ==> Edit(Edit(line, Right), Left) == line
  {
    if line.left != "" { assert line.left == line.left[..|line.left| - 1] + [line.left[|line.left| - 1]]; }
    if line.right != "" { assert line.right == [line.right[0]] + line.right[1..]; }
  }

  /** Backspace undoes a character, if it was taken. */
  lemma BackspaceUndoesChar(line: Line, c: char)
    ensures Edit(line, Char(c)) != line ==> Edit(Edit(line, Char(c)), Backspace) == line
  {
    assert (line.left + [c])[..|line.left|] == line.left;
  }

  lemma {:induction false} DropBlanksShape(s: string)
    ensures var r := DropBlanks(s); (forall i :: |r| <= i < |s| ==> Blank(s[i])) && (r != "" ==> !Blank(r[|r| - 1]))
    decreases |s|
  {
    if s != "" && Blank(s[|s| - 1]) { DropBlanksShape(s[..|s| - 1]); }
  }

  lemma {:induction false} DropWordShape(s: string)
    ensures var r := DropWord(s); (forall i :: |r| <= i < |s| ==> !Blank(s[i])) && (r != "" ==> Blank(r[|r| - 1]))
    decreases |s|
  {
    if s != "" && !Blank(s[|s| - 1]) { DropWordShape(s[..|s| - 1]); }
  }

  /** Ctrl-W takes the blanks before the cursor and the whole word before them: what goes is
      one run without blanks and then blanks, and what stays ends in a blank. */
  lemma KillWordTakesOneWord(line: Line)
    ensures var left, t, w := line.left, Edit(line, KillWord), |DropBlanks(line.left)|;
      && t.right == line.right && t.left <= left && |t.left| <= w <= |left|
      && (forall i :: |t.left| <= i < w ==> left[i] !in " \t") && (forall i :: w <= i < |left| ==> left[i] in " \t")
      && (t.left != "" ==> t.left[|t.left| - 1] in " \t") && (|t.left| == w ==> t.left == "")
  {
    DropBlanksShape(line.left);
    DropWordShape(DropBlanks(line.left));
  }

  /** The whole editor: `hist` oldest first; `nav`: -1 on the unfinished line, else how far
      back in the history; `saved`: the unfinished line meanwhile. */
  datatype State = State(line: Line, hist: seq<string>, nav: int, saved: string)

  function Shown(s: State, nav: int): string
    requires -1 <= nav < |s.hist|
  {
    if nav == -1 then s.saved else s.hist[|s.hist| - 1 - nav]
  }

  function Press(s: State, key: Key): State
    requires -1 <= s.nav < |s.hist|
  {
    match key
    case Up =>
      if s.nav < |s.hist| - 1 then
        var t := s.(nav := s.nav + 1, saved := if s.nav == -1 then Text(s.line) else s.saved);
        t.(line := Line(Shown(t, t.nav), ""))
      else s
    case Down =>
      if s.nav > -1 then s.(nav := s.nav - 1, line := Line(Shown(s, s.nav - 1), "")) else s
    case _ => s.(line := Edit(s.line, key))
  }

  function PressAll(s: State, keys: seq<Key>): State
    requires -1 <= s.nav < |s.hist|
    decreases |keys|
  {
    if keys == [] then s else PressAll(Press(s, keys[0]), keys[1..])
  }

  function Times(key: Key, n: nat): seq<Key> {
    if n == 0 then [] else [key] + Times(key, n - 1)
  }

  /** n times Down from at most n - 1 steps back ends on the saved line. */
  lemma {:induction false} DownsComeBack(s: State, n: nat)
    requires -1 <= s.nav < |s.hist| && s.nav < n
    ensures var t := PressAll(s, Times(Down, n));
      t.nav == -1 && t.hist == s.hist && Text(t.line) == if s.nav == -1 then Text(s.line) else s.saved
    decreases n
  {
    if n > 0 {
      assert Times(Down, n)[1..] == Times(Down, n - 1);
      DownsComeBack(Press(s, Down), n - 1);
    }
  }

  /** n times Up goes back n steps or to the oldest entry; the unfinished line is saved when
      it is left. */
  lemma {:induction false} UpsGoBack(s: State, n: nat)
    requires -1 <= s.nav < |s.hist|
    ensures var t := PressAll(s, Times(Up, n));
      && t.hist == s.hist && t.nav == (if s.nav + n < |s.hist| then s.nav + n else |s.hist| - 1)
      && (t.nav == s.nav ==> t == s)
      && (t.nav != s.nav ==> t.line == Line(t.hist[|t.hist| - 1 - t.nav], ""))
      && (t.nav != s.nav ==> t.saved == if s.nav == -1 then Text(s.line) else s.saved)
    decreases n
  {
    if n > 0 {
      assert Times(Up, n)[1..] == Times(Up, n - 1);
      UpsGoBack(Press(s, Up), n - 1);
    }
  }

  lemma {:induction false} PressAllAppend(s: State, a: seq<Key>, b: seq<Key>)
    requires -1 <= s.nav < |s.hist|
    ensures var t := PressAll(s, a); -1 <= t.nav < |t.hist| && PressAll(s, a + b) == PressAll(t, b)
    decreases |a|
  {
    if a == [] {
      assert a + b == b;
    } else {
      assert (a + b)[1..] == a[1..] + b;
      PressAllAppend(Press(s, a[0]), a[1..], b);
    }
  }

  /** Up any number of times and Down at least as often gives back the unfinished line. */
  lemma UpThenDownRestores(s: State, k: nat, m: nat)
    requires s.nav == -1 && k <= m
    ensures var t := PressAll(s, Times(Up, k) + Times(Down, m));
      t.nav == -1 && t.hist == s.hist && Text(t.line) == Text(s.line)
  {
    PressAllAppend(s, Times(Up, k), Times(Down, m));
    UpsGoBack(s, k);
    DownsComeBack(PressAll(s, Times(Up, k)), m);
  }

  /** k times Up from the unfinished line shows the k-th newest command. */
  lemma UpShows(s: State, k: nat)
    requires s.nav == -1 && 1 <= k <= |s.hist|
    ensures PressAll(s, Times(Up, k)).line == Line(s.hist[|s.hist| - k], "")
  {
    UpsGoBack(s, k);
  }

  // ---- What the keys do to the text ---------------------------------------------------------------

  function Typing(w: string): seq<Key> {
    seq(|w|, i requires 0 <= i < |w| => Char(w[i]))
  }

  /** Neither a control character nor beyond ASCII. */
  predicate IsText(w: string) {
    forall i :: 0 <= i < |w| ==> ' ' <= w[i] <= '~'
  }

  /** Text typed appears before the cursor, as far as there is room; nothing else moves. */
  lemma {:induction false} TypedAppears(s: State, w: string)
    requires -1 <= s.nav < |s.hist| && IsText(w)
    requires |Text(s.line)| < MAX_CMD_LEN
    ensures var room := MAX_CMD_LEN - 1 - |Text(s.line)|;
      PressAll(s, Typing(w)) == s.(line := Line(s.line.left + if |w| <= room then w else w[..room], s.line.right))
    decreases |w|
  {
    if w != "" {
      assert Typing(w)[1..] == Typing(w[1..]);
      TypedAppears(Press(s, Char(w[0])), w[1..]);
      TakenIn(s.line.left, w, MAX_CMD_LEN - 1 - |Text(s.line)|);
    } else {
      assert s.line.left + "" == s.line.left;
    }
  }

  /** The first of some characters, and then the others, as far as there is room. */
  lemma TakenIn(left: string, w: string, room: nat)
    requires w != ""
    ensures |w| <= room ==> left + [w[0]] + w[1..] == left + w
    ensures 0 < room < |w| ==> left + [w[0]] + w[1..][..room - 1] == left + w[..room]
    ensures room == |w| > 0 ==> w[1..] == w[1..][..room - 1]
    ensures room == 0 ==> w[1..][..0] == "" == w[..0] && left + "" == left
  {
  }

  /** A line of printable characters is read as typed. */
  lemma TypedIsRead(s: State, w: string, size: nat)
    requires |w| < MAX_CMD_LEN && |w| < size && IsText(w)
    ensures Clipped(Text(PressAll(Started(s), Typing(w)).line), size) == w
  {
    TypedAppears(Started(s), w);
    assert "" + w + "" == w;
  }

  /** No other character is taken. */
  lemma OthersAreNotTaken(s: State, c: char)
    requires -1 <= s.nav < |s.hist| && !IsText([c])
    ensures Press(s, Char(c)) == s
  {
    assert [c][0] == c;
  }

  /** What Ctrl-K leaves and what Ctrl-U leaves make up the line; at its beginning Ctrl-U does
      nothing and Ctrl-K takes all, at its end it is the other way round. */
  lemma KillsAreHalves(line: Line)
    ensures Text(Edit(line, KillRight)) + Text(Edit(line, KillLeft)) == Text(line)
    ensures var home, end := Edit(line, Home), Edit(line, EndOfLine);
      && Edit(home, KillLeft) == home && Text(Edit(home, KillRight)) == ""
      && Edit(end, KillRight) == end && Text(Edit(end, KillLeft)) == ""
  {
  }

  /** Home is Left, and End is Right, as often as it goes. */
  lemma {:induction false} HomeIsLefts(s: State)
    requires -1 <= s.nav < |s.hist|
    ensures PressAll(s, Times(Left, |s.line.left|)) == Press(s, Home)
    decreases |s.line.left|
  {
    var n := |s.line.left|;
    if n > 0 {
      MovesKeepText(s.line, Left);
      assert Times(Left, n)[1..] == Times(Left, n - 1);
      HomeIsLefts(Press(s, Left));
    }
  }

  lemma {:induction false} EndIsRights(s: State)
    requires -1 <= s.nav < |s.hist|
    ensures PressAll(s, Times(Right, |s.line.right|)) == Press(s, EndOfLine)
    decreases |s.line.right|
  {
    var n := |s.line.right|;
    if n > 0 {
      MovesKeepText(s.line, Right);
      assert Times(Right, n)[1..] == Times(Right, n - 1);
      EndIsRights(Press(s, Right));
    }
  }

  // ---- The history ring -------------------------------------------------------------------------

  function LastOf<T>(n: nat, s: seq<T>): seq<T> {
    if |s| <= n then s else s[|s| - n..]
  }

  /** history_add. */
  function Added(hist: seq<string>, cmd: string): seq<string> {
    if cmd == "" || (hist != [] && cmd == hist[|hist| - 1]) then hist else LastOf(MAX_HISTORY, hist + [cmd])
  }

  function AddedAll(cmds: seq<string>): seq<string> {
    if cmds == [] then [] else Added(AddedAll(cmds[..|cmds| - 1]), cmds[|cmds| - 1])
  }

  /** The commands without the empty ones and without adjacent repeats. */
  function Collapsed(cmds: seq<string>): seq<string> {
    if cmds == [] then []
    else
      var c, s := cmds[|cmds| - 1], Collapsed(cmds[..|cmds| - 1]);
      if c == "" || (s != [] && c == s[|s| - 1]) then s else s + [c]
  }

  /** The history is the last 20 commands added, adjacent repeats dropped. */
  lemma {:induction false} HistoryIsTheLast(cmds: seq<string>)
    ensures AddedAll(cmds) == LastOf(MAX_HISTORY, Collapsed(cmds))
    decreases |cmds|
  {
    if cmds != [] { HistoryIsTheLast(cmds[..|cmds| - 1]); }
  }

  // ---- Many lines ---------------------------------------------------------------------------------

  function Uncommented(s: string): string {
    if s == "" || s[0] == '#' then "" else [s[0]] + Uncommented(s[1..])
  }

  predicate White(c: char) { c == ' ' || c == '\t' || c == '\r' || c == '\n' }

  function Trimmed(s: string): (r: string)
    ensures r <= s
  {
    if s != "" && White(s[|s| - 1]) then Trimmed(s[..|s| - 1]) else s
  }

  /** What the shell records of a line: without its comment and the white space at its end. */
  function Cleaned(line: string): string { Trimmed(Uncommented(line)) }

  /** The caller's buffer takes size - 1 characters of the line. */
  function Clipped(s: string, size: nat): (r: string)
    requires size > 0
    ensures r <= s && |r| < size && (r == s || |r| == size - 1)
  {
    if |s| <= size - 1 then s else s[..size - 1]
  }

  function Started(s: State): State { s.(line := Line("", ""), nav := -1) }

  /** What one line adds to the history, and the editor after it. */
  function Entered(s: State, keys: seq<Key>, size: nat): string
    requires size > 0
  {
    Cleaned(Clipped(Text(PressAll(Started(s), keys).line), size))
  }

  function AfterLine(s: State, keys: seq<Key>, size: nat): State
    requires size > 0
  {
    var t := PressAll(Started(s), keys);
    t.(hist := Added(t.hist, Entered(s, keys, size)))
  }

  function EnteredAll(s: State, lines: seq<seq<Key>>, size: nat): seq<string>
    requires size > 0
    decreases |lines|
  {
    if lines == [] then []
    else
      var init, last := lines[..|lines| - 1], lines[|lines| - 1];
      EnteredAll(s, init, size) + [Entered(AfterLines(s, init, size), last, size)]
  }

  function AfterLines(s: State, lines: seq<seq<Key>>, size: nat): State
    requires size > 0
    decreases |lines|
  {
    if lines == [] then s else AfterLine(AfterLines(s, lines[..|lines| - 1], size), lines[|lines| - 1], size)
  }

  lemma {:induction false} KeysKeepHistory(s: State, keys: seq<Key>)
    requires -1 <= s.nav < |s.hist|
    ensures PressAll(s, keys).hist == s.hist
    decreases |keys|
  {
    if keys != [] { KeysKeepHistory(Press(s, keys[0]), keys[1..]); }
  }

  /** However the lines were edited and whatever entries were shown when they were ended: the
      history is the last 20 of the lines entered, without empty ones and adjacent repeats. */
  lemma {:induction false} SessionHistory(s: State, lines: seq<seq<Key>>, size: nat)
    requires size > 0 && s.hist == []
    ensures AfterLines(s, lines, size).hist == AddedAll(EnteredAll(s, lines, size))
    ensures AfterLines(s, lines, size).hist == LastOf(MAX_HISTORY, Collapsed(EnteredAll(s, lines, size)))
    decreases |lines|
  {
    if lines != [] {
      var init := lines[..|lines| - 1];
      var t := AfterLines(s, init, size);
      SessionHistory(s, init, size);
      KeysKeepHistory(Started(t), lines[|lines| - 1]);
      var all := EnteredAll(s, lines, size);
      assert all[..|all| - 1] == EnteredAll(s, init, size);
    }
    HistoryIsTheLast(EnteredAll(s, lines, size));
  }

  // ---- The buffers --------------------------------------------------------------------------------

  /** memmove within one buffer: the bytes arrive as they were, however the ranges overlap. */
  method MemMove(buf: array<char>, dst: nat, src: nat, n: nat)
    requires dst + n <= buf.Length && src + n <= buf.Length
    modifies buf
    ensures buf[dst..dst + n] == old(buf[src..src + n])
    ensures forall i :: 0 <= i < buf.Length && !(dst <= i < dst + n) ==> buf[i] == old(buf[i])
  {
    ghost var was := buf[..];
    if src < dst && src + n > dst {
      var k := n;
      while k > 0
        invariant 0 <= k <= n
        invariant forall i :: 0 <= i < buf.Length && !(dst + k <= i < dst + n) ==> buf[i] == old(buf[i])
        invariant forall i :: dst + k <= i < dst + n ==> buf[i] == was[i - dst + src]
      {
        k := k - 1;
        buf[dst + k] := buf[src + k];
      }
    } else {
      var k := 0;
      while k < n
        invariant 0 <= k <= n
        invariant forall i :: 0 <= i < buf.Length && !(dst <= i < dst + k) ==> buf[i] == old(buf[i])
        invariant forall i :: dst <= i < dst + k ==> buf[i] == was[i - dst + src]
      {
        buf[dst + k] := buf[src + k];
        k := k + 1;
      }
    }
  }

  class LineEditor {
    const buf: array<char>      // local_buf
    var len: nat
    var cursor: nat
    var slots: seq<string>      // history_buf; the last slot keeps the unfinished line
    var count: nat
    var head: nat
    var tail: nat
    var nav: int

    ghost predicate Valid()
      reads this, buf
    {
      && buf.Length == MAX_CMD_LEN && cursor <= len < MAX_CMD_LEN && buf[len] == '\0' && '\0' !in buf[..len]
      && RingOk(slots, head, tail, count) && -1 <= nav < count
    }

    ghost function Now(): State
      requires Valid()
      reads this, buf
    {
      State(Line(buf[..cursor], buf[cursor..len]), Ring(slots, head, count), nav, slots[MAX_HISTORY])
    }

    /** An empty line and no history. */
    constructor ()
      ensures Valid() && Now() == State(Line("", ""), [], -1, "")
    {
      buf := new char[MAX_CMD_LEN];
      len, cursor, count, head, tail, nav := 0, 0, 0, 0, 0, -1;
      slots := seq(MAX_HISTORY + 1, _ => "");
      new;
      buf[0] := '\0';
    }

    /** history_add, whatever entry is being shown. */
    method HistoryAdd(cmd: string)
      requires Valid() && |cmd| < MAX_CMD_LEN && '\0' !in cmd
      modifies this`slots, this`count, this`head, this`tail
      ensures Valid() && Now() == old(Now()).(hist := Added(old(Now().hist), cmd))
    {
      if cmd == "" {
        return;
      }
      var repeated := Repeats(cmd);
      if !repeated {
        Append(cmd);
      }
    }

    /** Whether cmd is the newest command. */
    method Repeats(cmd: string) returns (r: bool)
      requires Valid()
      ensures r <==> Now().hist != [] && cmd == Now().hist[|Now().hist| - 1]
    {
      if count == 0 {
        return false;
      }
      RingNewest(slots, head, tail, count);
      r := cmd == slots[(tail - 1 + MAX_HISTORY) % MAX_HISTORY];
    }

    /** The ring takes one more command. */
    method Append(cmd: string)
      requires Valid() && |cmd| < MAX_CMD_LEN && '\0' !in cmd
      modifies this`slots, this`count, this`head, this`tail
      ensures Valid() && Now() == old(Now()).(hist := LastOf(MAX_HISTORY, old(Now().hist) + [cmd]))
    {
      RingStaysOk(slots, head, tail, count, cmd);
      RingAdd(slots, head, tail, count, cmd);
      slots := slots[tail := cmd];
      tail := (tail + 1) % MAX_HISTORY;
      Advance();
    }

    /** One command more, or the oldest is overwritten. */
    method Advance()
      modifies this`count, this`head
      ensures count == NextCount(old(count)) && head == NextHead(old(head), old(count))
    {
      if count < MAX_HISTORY {
        count := count + 1;
      } else {
        head := (head + 1) % MAX_HISTORY;
      }
    }

    /** Remove what lies between two positions, the terminator moving along. */
    method Cut(from: nat, to: nat)
      requires Valid() && from <= to <= len
      modifies buf, this`len
      ensures buf.Length == MAX_CMD_LEN && len == old(len) - (to - from) &&
        buf[..len] == old(buf[..from] + buf[to..len])
      ensures buf[len] == '\0'
    {
      MemMove(buf, from, to, len - to + 1);
      ghost var moved := buf[from..from + (len - to + 1)];
      assert moved == old(buf[to..to + (len - to + 1)]);
      assert buf[..from] == old(buf[..from]);
      assert moved[len - to] == '\0' && moved[..len - to] == old(buf[to..len]);
      len := len - (to - from);
      assert buf[..len] == buf[..from] + moved[..len - from];
    }

    /** A regular character: room is made at the cursor. */
    method Insert(c: char)
      requires Valid()
      modifies buf, this`len, this`cursor
      ensures Valid() && Now() == Press(old(Now()), Char(c))
    {
      if len < MAX_CMD_LEN - 1 && Printable(c) {
        ghost var left, right := buf[..cursor], buf[cursor..len];
        assert buf[..len] == left + right;
        MakeRoom(c);
        InsertedAt(left, right, buf[..len + 1], c);
        len := len + 1;
        cursor := cursor + 1;
        assert buf[..cursor] == buf[..len][..cursor] && buf[cursor..len] == buf[..len][cursor..];
      }
    }

    /** What follows the cursor moves up by one, the terminator too, and c goes between. */
    method MakeRoom(c: char)
      requires buf.Length == MAX_CMD_LEN && cursor <= len < MAX_CMD_LEN - 1 && buf[len] == '\0'
      modifies buf
      ensures buf[..len + 1] == old(buf[..cursor]) + [c] + old(buf[cursor..len]) && buf[len + 1] == '\0'
    {
      MemMove(buf, cursor + 1, cursor, len - cursor + 1);
      ghost var moved := buf[cursor + 1..cursor + 1 + (len - cursor + 1)];
      assert moved[..len - cursor] == old(buf[cursor..len]) && moved[len - cursor] == '\0';
      buf[cursor] := c;
      assert buf[cursor + 1..len + 1] == moved[..len - cursor] && buf[len + 1] == moved[len - cursor];
      assert buf[..cursor] == old(buf[..cursor]);
      assert buf[..len + 1] == buf[..cursor] + [buf[cursor]] + buf[cursor + 1..len + 1];
    }

    method DeleteBack()
      requires Valid()
      modifies buf, this`len, this`cursor
      ensures Valid() && Now() == Press(old(Now()), Backspace)
    {
      if cursor > 0 {
        Cut(cursor - 1, cursor);
        cursor := cursor - 1;
        SplitsAt(old(buf[..cursor]), old(buf[cursor..len]), buf[..len], cursor);
      }
    }

    method DeleteLeft()
      requires Valid()
      modifies buf, this`len, this`cursor
      ensures Valid() && Now() == Press(old(Now()), KillLeft)
    {
      if cursor > 0 {
        Cut(0, cursor);
        cursor := 0;
        SplitsAt(old(buf[..cursor]), old(buf[cursor..len]), buf[..len], cursor);
      }
    }

    /** Where the blanks before the cursor begin. */
    method BlanksStart() returns (startPos: nat)
      requires Valid()
      ensures startPos <= cursor && buf[..startPos] == DropBlanks(buf[..cursor])
    {
      startPos := cursor;
      while startPos > 0 && Blank(buf[startPos - 1])
        invariant startPos <= cursor && DropBlanks(buf[..startPos]) == DropBlanks(buf[..cursor])
      {
        assert buf[..startPos][..startPos - 1] == buf[..startPos - 1];
        startPos := startPos - 1;
      }
    }

    /** Where the word before the cursor begins. */
    method WordStart() returns (startPos: nat)
      requires Valid()
      ensures startPos <= cursor && buf[..startPos] == DropWord(DropBlanks(buf[..cursor]))
    {
      startPos := BlanksStart();
      ghost var blanks := startPos;
      while startPos > 0 && !Blank(buf[startPos - 1])
        invariant startPos <= blanks && DropWord(buf[..startPos]) == DropWord(buf[..blanks])
      {
        assert buf[..startPos][..startPos - 1] == buf[..startPos - 1];
        startPos := startPos - 1;
      }
    }

    method DeleteWord()
      requires Valid()
      modifies buf, this`len, this`cursor
      ensures Valid() && Now() == Press(old(Now()), KillWord)
    {
      if cursor > 0 {
        var startPos := WordStart();
        ghost var left := buf[..cursor];
        assert buf[..startPos] == left[..startPos];
        if cursor > startPos {
          Cut(startPos, cursor);
          cursor := startPos;
          SplitsAt(left, old(buf[cursor..len]), buf[..len], cursor);
        }
      }
    }

    method Move(key: Key)
      requires Valid() && (key == Left || key == Right || key == Home || key == EndOfLine)
      modifies this`cursor
      ensures Valid() && Now() == Press(old(Now()), key)
    {
      ghost var left, right := buf[..cursor], buf[cursor..len];
      assert buf[..len] == left + right;
      match key
      case Left => if cursor > 0 { cursor := cursor - 1; }
      case Right => if cursor < len { cursor := cursor + 1; }
      case Home => cursor := 0;
      case EndOfLine => cursor := len;
    }

    /** Ctrl-K. */
    method DeleteRight()
      requires Valid()
      modifies buf, this`len
      ensures Valid() && Now() == Press(old(Now()), KillRight)
    {
      ghost var left := buf[..cursor];
      buf[cursor] := '\0';
      len := cursor;
      assert buf[..cursor] == left;
    }

    /** The line becomes s, with the cursor at its end. */
    method Show(s: string)
      requires buf.Length == MAX_CMD_LEN && |s| < MAX_CMD_LEN
      modifies buf, this`len, this`cursor
      ensures len == cursor == |s| && buf[..len] == s && buf[len] == '\0'
    {
      var i := 0;
      while i < |s|
        invariant 0 <= i <= |s| && buf[..i] == s[..i]
      {
        buf[i] := s[i];
        i := i + 1;
      }
      buf[|s|] := '\0';
      len, cursor := |s|, |s|;
    }

    /** The unfinished line goes to the slot kept for it. */
    method SaveLine()
      requires Valid()
      modifies this`slots
      ensures Valid() && Now() == old(Now()).(saved := Text(old(Now()).line))
    {
      RingKept(slots, head, count, buf[..len]);
      assert buf[..len] == buf[..cursor] + buf[cursor..len];
      slots := slots[MAX_HISTORY := buf[..len]];
    }

    /** The n-th command before the newest is shown. */
    method ShowEntry(n: nat)
      requires buf.Length == MAX_CMD_LEN && RingOk(slots, head, tail, count) && n < count
      modifies buf, this`len, this`cursor
      ensures len == cursor == |Ring(slots, head, count)[count - 1 - n]| < MAX_CMD_LEN && buf[len] == '\0'
      ensures buf[..len] == Ring(slots, head, count)[count - 1 - n] && '\0' !in buf[..len]
    {
      RingNth(slots, head, count, n);
      Show(slots[(tail - 1 - n + MAX_HISTORY) % MAX_HISTORY]);
    }

    method HistoryUp()
      requires Valid()
      modifies buf, this`len, this`cursor, this`slots, this`nav
      ensures Valid() && Now() == Press(old(Now()), Up)
    {
      ghost var s := Now();
      if nav < count - 1 {
        if nav == -1 {
          SaveLine();
        }
        ghost var kept := Now();
        assert kept == if s.nav == -1 then s.(saved := Text(s.line)) else s;
        Older();
        UpInTwoSteps(s, kept, Now());
      }
    }

    /** One step back in the history. */
    method Older()
      requires Valid() && nav < count - 1
      modifies buf, this`len, this`cursor, this`nav
      ensures Valid() && Now() == old(Now()).(nav := nav, line := Line(Shown(old(Now()), nav), "")) &&
        nav == old(nav) + 1
    {
      nav := nav + 1;
      ShowEntry(nav);
    }

    method HistoryDown()
      requires Valid()
      modifies buf, this`len, this`cursor, this`nav
      ensures Valid() && Now() == Press(old(Now()), Down)
    {
      if nav > -1 {
        nav := nav - 1;
        if nav == -1 {
          Show(slots[MAX_HISTORY]);
        } else {
          ShowEntry(nav);
        }
      }
    }

    /** One key: the buffers do what the zipper and the history list do. */
    method PressKey(key: Key)
      requires Valid()
      modifies buf, this
      ensures Valid() && Now() == Press(old(Now()), key)
    {
      match key
      case Char(c) => Insert(c);
      case Backspace => DeleteBack();
      case KillLeft => DeleteLeft();
      case KillRight => DeleteRight();
      case KillWord => DeleteWord();
      case Up => HistoryUp();
      case Down => HistoryDown();
      case _ => Move(key);
    }

    /** readline_advanced on the keys before Enter: the line returned is what all the keys
        make of an empty one, cut to the caller's buffer. */
    method Readline(keys: seq<Key>, size: nat) returns (line: string)
      requires Valid() && size > 0
      modifies buf, this
      ensures Valid() && Now() == PressAll(Started(old(Now())), keys)
      ensures line == Clipped(Text(Now().line), size) && |line| < MAX_CMD_LEN && '\0' !in line
    {
      nav, len, cursor := -1, 0, 0;
      buf[0] := '\0';
      ghost var start := Now();
      for i := 0 to |keys|
        invariant Valid() && PressAll(Now(), keys[i..]) == PressAll(start, keys)
      {
        PressKey(keys[i]);
        assert keys[i..][1..] == keys[i + 1..];
      }
      assert buf[..len] == buf[..cursor] + buf[cursor..len];
      line := buf[..if len <= size - 1 then len else size - 1];
    }
  }

  /** What the shell does to a line it has read: the comment goes, then the white space at
      the end. */
  method Clean(buf: string) returns (cmd: string)
    ensures cmd == Cleaned(buf)
  {
    var comment := 0;
    while comment < |buf| && buf[comment] != '#'
      invariant 0 <= comment <= |buf| && Uncommented(buf) == buf[..comment] + Uncommented(buf[comment..])
    {
      assert buf[comment..][1..] == buf[comment + 1..] && buf[..comment + 1] == buf[..comment] + [buf[comment]];
      comment := comment + 1;
    }
    assert buf[..comment] + "" == buf[..comment];
    cmd := Trim(buf[..comment]);
  }

  method Trim(buf: string) returns (cmd: string)
    ensures cmd == Trimmed(buf)
  {
    var len := |buf|;
    assert buf[..len] == buf;
    while len > 0 && White(buf[len - 1])
      invariant 0 <= len <= |buf| && Trimmed(buf[..len]) == Trimmed(buf)
    {
      assert buf[..len][..len - 1] == buf[..len - 1];
      len := len - 1;
    }
    cmd := buf[..len];
  }

  lemma CleanedIsPart(s: string)
    ensures |Cleaned(s)| <= |s| && ('\0' !in s ==> '\0' !in Cleaned(s))
  {
    UncommentedIsPrefix(s);
  }

  lemma {:induction false} UncommentedIsPrefix(s: string)
    ensures var u := Uncommented(s); u <= s && '#' !in u && (|u| < |s| ==> s[|u|] == '#')
    decreases |s|
  {
    if s != "" && s[0] != '#' { UncommentedIsPrefix(s[1..]); }
  }

  lemma {:induction false} TrimmedShape(s: string)
    ensures var r := Trimmed(s); (forall i :: |r| <= i < |s| ==> White(s[i])) && (r != "" ==> !White(r[|r| - 1]))
    decreases |s|
  {
    if s != "" && White(s[|s| - 1]) { TrimmedShape(s[..|s| - 1]); }
  }

  /** The beginning of the line that has no comment and ends in no white space; what is cut off is
      white space up to the comment, if there is one. */
  lemma CleanedShape(s: string)
    ensures var r := Cleaned(s);
      && r <= s && '#' !in r && (r != "" ==> r[|r| - 1] !in " \t\r\n")
      && forall i :: |r| <= i < |s| ==> s[i] in " \t\r\n" || '#' in s[..i + 1]
  {
    UncommentedIsPrefix(s);
    var u := Uncommented(s);
    TrimmedShape(u);
    forall i | |Cleaned(s)| <= i < |s| ensures White(s[i]) || '#' in s[..i + 1] {
      if |u| <= i { assert s[..i + 1][|u|] == '#'; }
    }
  }

  /** The interactive shell's loop as far as the editor goes. */
  method Session(ed: LineEditor, lines: seq<seq<Key>>, size: nat) returns (entered: seq<string>)
    requires ed.Valid() && size > 0
    modifies ed, ed.buf
    ensures ed.Valid() && ed.Now() == AfterLines(old(ed.Now()), lines, size)
    ensures entered == EnteredAll(old(ed.Now()), lines, size)
    ensures old(ed.Now()).hist == [] ==> ed.Now().hist == LastOf(MAX_HISTORY, Collapsed(entered))
  {
    entered := [];
    ghost var start := ed.Now();
    for i := 0 to |lines|
      invariant ed.Valid() && ed.Now() == AfterLines(start, lines[..i], size) &&
        entered == EnteredAll(start, lines[..i], size)
    {
      assert lines[..i + 1][..i] == lines[..i];
      var cmd := EnterLine(ed, lines[i], size);
      entered := entered + [cmd];
    }
    assert lines[..|lines|] == lines;
    if start.hist == [] { SessionHistory(start, lines, size); }
  }

  /** A line is read, cleaned and recorded. */
  method EnterLine(ed: LineEditor, keys: seq<Key>, size: nat) returns (cmd: string)
    requires ed.Valid() && size > 0
    modifies ed, ed.buf
    ensures ed.Valid() && ed.Now() == AfterLine(old(ed.Now()), keys, size) && cmd == Entered(old(ed.Now()), keys, size)
  {
    var line := ed.Readline(keys, size);
    cmd := Clean(line);
    CleanedIsPart(line);
    if cmd != "" {
      ed.HistoryAdd(cmd);
    }
  }

  lemma UpInTwoSteps(s: State, kept: State, t: State)
    requires -1 <= s.nav < |s.hist| - 1 && kept == (if s.nav == -1 then s.(saved := Text(s.line)) else s)
    requires t == kept.(nav := s.nav + 1, line := Line(Shown(kept, s.nav + 1), ""))
    ensures t == Press(s, Up)
  {
  }

  /** The line after the insertion is the zipper's. */
  lemma InsertedAt(left: string, right: string, text: string, c: char)
    requires text == left + [c] + right
    ensures text[..|left| + 1] == left + [c] && text[|left| + 1..] == right
    ensures c != '\0' && '\0' !in left + right ==> '\0' !in text
  {
  }

  /** The line after the cut is the zipper's. */
  lemma SplitsAt(left: string, right: string, text: string, cursor: nat)
    requires cursor <= |left| && text == left[..cursor] + right
    ensures text[..cursor] == left[..cursor] && text[cursor..] == right
  {
  }

  lemma RingKept(slots: seq<string>, head: nat, count: nat, s: string)
    requires |slots| == MAX_HISTORY + 1
    ensures Ring(slots[MAX_HISTORY := s], head, count) == Ring(slots, head, count)
  {
  }

  ghost predicate RingOk(slots: seq<string>, head: nat, tail: nat, count: nat) {
    && |slots| == MAX_HISTORY + 1 && (forall i :: 0 <= i < |slots| ==> |slots[i]| < MAX_CMD_LEN && '\0' !in slots[i])
    && head < MAX_HISTORY && tail == At(head, count) && count <= MAX_HISTORY
    && (count < MAX_HISTORY ==> head == 0)
  }

  /** The slot of the k-th oldest command. */
  function At(head: nat, k: nat): (i: nat)
    ensures i < MAX_HISTORY
  {
    (head + k) % MAX_HISTORY
  }

  /** The commands in the ring, oldest first. */
  function Ring(slots: seq<string>, head: nat, count: nat): seq<string>
    requires |slots| == MAX_HISTORY + 1
  {
    seq(count, k requires 0 <= k => slots[At(head, k)])
  }

  /** How the newest but nav is found from the tail. */
  lemma RingNth(slots: seq<string>, head: nat, count: nat, nav: nat)
    requires |slots| == MAX_HISTORY + 1 && nav < count <= MAX_HISTORY
    ensures ((head + count) % MAX_HISTORY - 1 - nav + MAX_HISTORY) % MAX_HISTORY ==
      (head + count - 1 - nav) % MAX_HISTORY
    ensures Ring(slots, head, count)[count - 1 - nav] ==
      slots[((head + count) % MAX_HISTORY - 1 - nav + MAX_HISTORY) % MAX_HISTORY]
  {
    BackFromTail(head + count, nav);
  }

  lemma BackFromTail(end: nat, nav: nat)
    requires nav < MAX_HISTORY && nav < end
    ensures (end % MAX_HISTORY - 1 - nav + MAX_HISTORY) % MAX_HISTORY == (end - 1 - nav) % MAX_HISTORY
  {
    var turns, rest := end / MAX_HISTORY, end % MAX_HISTORY;
    assert end - 1 - nav == turns * MAX_HISTORY + (rest - 1 - nav);
  }

  /** The entry before the tail is the newest. */
  lemma RingNewest(slots: seq<string>, head: nat, tail: nat, count: nat)
    requires RingOk(slots, head, tail, count) && count > 0
    ensures slots[(tail - 1 + MAX_HISTORY) % MAX_HISTORY] == Ring(slots, head, count)[count - 1]
  {
    RingNth(slots, head, count, 0);
  }

  lemma AtApart(head: nat, k: nat, j: nat)
    requires k < j < k + MAX_HISTORY
    ensures At(head, k) != At(head, j)
  {
  }

  lemma AtNext(head: nat, k: nat)
    ensures At((head + 1) % MAX_HISTORY, k) == At(head, k + 1)
  {
  }

  lemma RingGrows(slots: seq<string>, head: nat, count: nat, cmd: string)
    requires |slots| == MAX_HISTORY + 1 && head < MAX_HISTORY && count < MAX_HISTORY
    ensures Ring(slots[At(head, count) := cmd], head, count + 1) == Ring(slots, head, count) + [cmd]
  {
    var r := slots[At(head, count) := cmd];
    forall k: nat | k < count ensures r[At(head, k)] == slots[At(head, k)] { AtApart(head, k, count); }
  }

  lemma RingTurns(slots: seq<string>, head: nat, cmd: string)
    requires |slots| == MAX_HISTORY + 1 && head < MAX_HISTORY
    ensures Ring(slots[head := cmd], (head + 1) % MAX_HISTORY, MAX_HISTORY) ==
      Ring(slots, head, MAX_HISTORY)[1..] + [cmd]
  {
    var r, h := slots[head := cmd], (head + 1) % MAX_HISTORY;
    assert At(head, 0) == head == At(head, MAX_HISTORY);
    forall k: nat | k < MAX_HISTORY ensures r[At(h, k)] == if k < MAX_HISTORY - 1 then slots[At(head, k + 1)] else cmd {
      AtNext(head, k);
      if k < MAX_HISTORY - 1 { AtApart(head, 0, k + 1); }
    }
  }

  function NextCount(count: nat): nat { if count < MAX_HISTORY then count + 1 else count }

  function NextHead(head: nat, count: nat): nat { if count < MAX_HISTORY then head else (head + 1) % MAX_HISTORY }

  lemma RingStaysOk(slots: seq<string>, head: nat, tail: nat, count: nat, cmd: string)
    requires RingOk(slots, head, tail, count) && |cmd| < MAX_CMD_LEN && '\0' !in cmd
    ensures var r := slots[tail := cmd];
      RingOk(r, NextHead(head, count), (tail + 1) % MAX_HISTORY, NextCount(count)) &&
        r[MAX_HISTORY] == slots[MAX_HISTORY]
  {
    if count == MAX_HISTORY { AtNext(head, count); }
  }

  /** One more command: the ring keeps the last 20. */
  lemma RingAdd(slots: seq<string>, head: nat, tail: nat, count: nat, cmd: string)
    requires RingOk(slots, head, tail, count)
    ensures Ring(slots[tail := cmd], NextHead(head, count), NextCount(count)) ==
      LastOf(MAX_HISTORY, Ring(slots, head, count) + [cmd])
  {
    if count < MAX_HISTORY { RingGrows(slots, head, count, cmd); } else { RingTurns(slots, head, cmd); }
  }
}
