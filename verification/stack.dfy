/** The initial stack of a spawned program (user/lib/spawn.c, user/lib/entry.S). */
module Stack {
  import opened Common

  const USTACKTOP := 0x7f3fe000
  const BASE := USTACKTOP - PAGE_SIZE   // where the child has the page

  type Argv = seq<seq<Byte>>

  /** The word at offset o, lowest byte first. */
  function Word(page: seq<Byte>, o: nat): nat
    requires o + 4 <= |page|
  {
    var b0: int, b1: int, b2: int, b3: int := page[o], page[o + 1], page[o + 2], page[o + 3];
    b0 + 0x100 * b1 + 0x1_0000 * b2 + 0x100_0000 * b3
  }

  /** Bytes of the first i strings, with their terminators. */
  function Bytes(argv: Argv, i: nat): nat
    requires i <= |argv|
  {
    if i == 0 then 0 else Bytes(argv, i - 1) + |argv[i - 1]| + 1
  }

  function Round4(n: nat): (r: nat)
    ensures n <= r < n + 4 && r % 4 == 0
  {
    (n + 3) / 4 * 4
  }

  predicate Fits(argv: Argv) {
    Round4(Bytes(argv, |argv|)) + 4 * (|argv| + 3) <= PAGE_SIZE
  }

  /** Offset of the i-th string. */
  function StringAt(argv: Argv, i: nat): int
    requires i <= |argv|
  {
    PAGE_SIZE - Bytes(argv, |argv|) + Bytes(argv, i)
  }

  /** Offset of args[0]. */
  function ArgsAt(argv: Argv): int {
    PAGE_SIZE - Round4(Bytes(argv, |argv|)) - 4 * (|argv| + 1)
  }

  /** The C string c lies at offset o. */
  predicate HasString(page: seq<Byte>, o: int, c: seq<Byte>) {
    0 <= o && o + |c| < |page| && page[o..o + |c|] == c && page[o + |c|] == 0
  }

  /** The child's address w leads to the C string c. */
  predicate PointsTo(page: seq<Byte>, w: nat, c: seq<Byte>) {
    w < USTACKTOP && HasString(page, w - BASE, c)
  }

  /** The offset of the vector that argv points to. */
  function VectorAt(page: seq<Byte>, sp: nat): int
    requires BASE <= sp && sp + 8 <= USTACKTOP && |page| == PAGE_SIZE
  {
    Word(page, sp - BASE + 4) - BASE
  }

  ghost predicate VectorOk(page: seq<Byte>, args: int, argv: Argv) {
    && 0 <= args && args + 4 * |argv| <= |page|
    && forall i: nat {:trigger argv[i]} :: i < |argv| ==> PointsTo(page, Word(page, args + 4 * i), argv[i])
  }

  /** What the program's entry finds from its stack pointer: argc, and a vector of pointers to
      exactly these strings. */
  ghost predicate Decodes(page: seq<Byte>, sp: nat, argv: Argv) {
    && BASE <= sp && sp % 4 == 0 && sp + 8 <= USTACKTOP && |page| == PAGE_SIZE
    && Word(page, sp - BASE) == |argv| && VectorOk(page, VectorAt(page, sp), argv)
  }

  lemma {:induction false} BytesGrow(argv: Argv, i: nat, j: nat)
    requires i < j <= |argv|
    ensures Bytes(argv, i) + |argv[i]| + 1 <= Bytes(argv, j)
    decreases j
  {
    if i + 1 < j { BytesGrow(argv, i, j - 1); }
  }

  lemma ArgsAligned(argv: Argv)
    ensures ArgsAt(argv) % 4 == 0
  {
    var n := (Bytes(argv, |argv|) + 3) / 4;
    assert ArgsAt(argv) == 4 * (1024 - n - (|argv| + 1));
  }

  /** The strings follow each other inside the page. */
  lemma Offsets(argv: Argv, i: nat)
    requires Fits(argv) && i <= |argv|
    ensures ArgsAt(argv) + 4 * (|argv| + 1) <= StringAt(argv, 0) <= StringAt(argv, i) <= PAGE_SIZE && ArgsAt(argv) >= 8
    ensures i < |argv| ==> StringAt(argv, i) + |argv[i]| + 1 == StringAt(argv, i + 1) <= PAGE_SIZE
  {
    if 0 < i { BytesGrow(argv, 0, i); }
    if i < |argv| { BytesGrow(argv, i, |argv|); }
  }

  /** The size check passes exactly if the vector has room for argc and argv below it. */
  lemma FitsIff(argv: Argv)
    ensures Fits(argv) <==> ArgsAt(argv) >= 8
  {
  }

  ghost predicate HasStrings(page: seq<Byte>, argv: Argv, n: nat)
    requires n <= |argv|
  {
    forall k :: 0 <= k < n ==> HasString(page, StringAt(argv, k), argv[k])
  }

  /** Strings stay as long as the bytes before the next one do. */
  lemma StringsKept(before: seq<Byte>, after: seq<Byte>, argv: Argv, n: nat)
    requires Fits(argv) && n <= |argv| && |before| == |after| == PAGE_SIZE && HasStrings(before, argv, n)
    requires 0 <= StringAt(argv, 0) <= StringAt(argv, n) <= PAGE_SIZE
    requires after[StringAt(argv, 0)..StringAt(argv, n)] == before[StringAt(argv, 0)..StringAt(argv, n)]
    ensures HasStrings(after, argv, n)
  {
    forall k | 0 <= k < n ensures HasString(after, StringAt(argv, k), argv[k]) {
      Offsets(argv, k);
      BytesGrow(argv, k, n);
      StringKept(before, after, StringAt(argv, k), argv[k], StringAt(argv, 0), StringAt(argv, n));
    }
  }

  lemma StringKept(before: seq<Byte>, after: seq<Byte>, o: int, c: seq<Byte>, lo: nat, hi: nat)
    requires lo <= o && o + |c| + 1 <= hi <= |before| == |after| && after[lo..hi] == before[lo..hi] &&
      HasString(before, o, c)
    ensures HasString(after, o, c)
  {
    assert forall k :: lo <= k < hi ==> after[k] == after[lo..hi][k - lo] && before[k] == before[lo..hi][k - lo];
    assert after[o..o + |c|] == before[o..o + |c|];
  }

  lemma BytesOfWord(v: nat)
    requires v < 0x1_0000_0000
    ensures v == v % 0x100 + 0x100 * (v / 0x100 % 0x100) + 0x1_0000 * (v / 0x1_0000 % 0x100) +
      0x100_0000 * (v / 0x100_0000 % 0x100)
  {
  }

  method StoreWord(page: array<Byte>, o: nat, v: nat)
    requires o + 4 <= page.Length && v < 0x1_0000_0000
    modifies page
    ensures Word(page[..], o) == v
    ensures forall k :: 0 <= k < page.Length && !(o <= k < o + 4) ==> page[k] == old(page[k])
  {
    page[o] := v % 0x100;
    page[o + 1] := v / 0x100 % 0x100;
    page[o + 2] := v / 0x1_0000 % 0x100;
    page[o + 3] := v / 0x100_0000 % 0x100;
    BytesOfWord(v);
  }

  /** One string and its terminator. */
  method CopyString(page: array<Byte>, at: nat, c: seq<Byte>) returns (end: nat)
    requires at + |c| < page.Length
    modifies page
    ensures end == at + |c| + 1 && HasString(page[..], at, c)
    ensures page[..at] == old(page[..at]) && forall k :: end <= k < page.Length ==> page[k] == old(page[k])
  {
    end := at;
    var j := 0;
    while j < |c|
      invariant 0 <= j <= |c| && end == at + j && page[at..end] == c[..j]
      invariant page[..at] == old(page[..at]) && forall k :: end <= k < page.Length ==> page[k] == old(page[k])
    {
      page[end] := c[j];
      end, j := end + 1, j + 1;
      assert c[..j] == c[..j - 1] + [c[j - 1]];
    }
    page[end] := 0;
    end := end + 1;
  }

  /** The i-th string goes behind those before it. */
  method CopyNext(page: array<Byte>, argv: Argv, i: nat, ctemp: nat) returns (end: nat)
    requires page.Length == PAGE_SIZE && Fits(argv) && i < |argv| && ctemp == StringAt(argv, i) &&
      HasStrings(page[..], argv, i)
    modifies page
    ensures end == StringAt(argv, i + 1) && HasStrings(page[..], argv, i + 1)
  {
    Offsets(argv, i);
    ghost var was := page[..];
    end := CopyString(page, ctemp, argv[i]);
    SameSlice(was, page[..], StringAt(argv, 0), ctemp);
    StringsKept(was, page[..], argv, i);
  }

  lemma SameSlice(before: seq<Byte>, after: seq<Byte>, lo: nat, hi: nat)
    requires lo <= hi <= |before| && hi <= |after| && after[..hi] == before[..hi]
    ensures after[lo..hi] == before[lo..hi]
  {
    assert after[lo..hi] == after[..hi][lo..] && before[lo..hi] == before[..hi][lo..];
  }

  /** The strings, one behind the other, up to the end of the page. */
  method CopyStrings(page: array<Byte>, argv: Argv, strings: nat)
    requires page.Length == PAGE_SIZE && Fits(argv) && strings == StringAt(argv, 0)
    modifies page
    ensures HasStrings(page[..], argv, |argv|)
  {
    var ctemp := strings;
    for i := 0 to |argv|
      invariant ctemp == StringAt(argv, i) && HasStrings(page[..], argv, i)
    {
      ctemp := CopyNext(page, argv, i, ctemp);
    }
  }

  /** args[0..argc], the pointers to the strings in the child; args[argc] gets the address of
      the last terminator. */
  method StorePointers(page: array<Byte>, argv: Argv, args: nat, strings: nat)
    requires page.Length == PAGE_SIZE && Fits(argv) && args == ArgsAt(argv) && strings == StringAt(argv, 0)
    modifies page
    ensures forall k :: 0 <= k < |argv| ==> Pointer(page[..], args, k, argv)
    ensures forall k :: strings <= k < PAGE_SIZE ==> page[k] == old(page[k])
    ensures LastIsNotNull(page[..], args, argv)
  {
    var ctemp := BASE + strings;
    for i := 0 to |argv|
      invariant ctemp == BASE + StringAt(argv, i)
      invariant forall k :: strings <= k < PAGE_SIZE ==> page[k] == old(page[k])
      invariant forall k :: 0 <= k < i ==> Pointer(page[..], args, k, argv)
    {
      Offsets(argv, i);
      ghost var was := page[..];
      StoreWord(page, args + 4 * i, ctemp);
      forall k | 0 <= k < i ensures Pointer(page[..], args, k, argv) { assert Pointer(was, args, k, argv); }
      ctemp := ctemp + |argv[i]| + 1;
    }
    Offsets(argv, |argv|);
    ghost var was := page[..];
    StoreWord(page, args + 4 * |argv|, ctemp - 1);
    forall k | 0 <= k < |argv| ensures Pointer(page[..], args, k, argv) { assert Pointer(was, args, k, argv); }
  }

  /** args[argc] holds the address of the page's last byte, not 0: main's vector is not
      terminated. */
  predicate LastIsNotNull(page: seq<Byte>, args: int, argv: Argv) {
    0 <= args && args + 4 * |argv| + 4 <= |page| && Word(page, args + 4 * |argv|) == USTACKTOP - 1
  }

  ghost predicate Pointer(page: seq<Byte>, args: nat, k: nat, argv: Argv)
    requires k < |argv|
  {
    args + 4 * k + 4 <= |page| && Word(page, args + 4 * k) == BASE + StringAt(argv, k)
  }

  lemma PointerTarget(page: seq<Byte>, argv: Argv, args: nat, w: nat, i: nat)
    requires |page| == PAGE_SIZE && Fits(argv) && HasStrings(page, argv, |argv|) && i < |argv|
    requires Pointer(page, args, i, argv) && w == Word(page, args + 4 * i)
    ensures PointsTo(page, w, argv[i])
  {
    Offsets(argv, i);
    assert HasString(page, StringAt(argv, i), argv[i]) && w - BASE == StringAt(argv, i);
  }

  lemma VectorIsOk(page: seq<Byte>, argv: Argv, args: nat)
    requires |page| == PAGE_SIZE && Fits(argv) && args + 4 * |argv| <= PAGE_SIZE && HasStrings(page, argv, |argv|)
    requires forall k :: 0 <= k < |argv| ==> Pointer(page, args, k, argv)
    ensures VectorOk(page, args, argv)
  {
    forall i: nat | i < |argv| ensures PointsTo(page, Word(page, args + 4 * i), argv[i]) {
      PointerTarget(page, argv, args, Word(page, args + 4 * i), i);
    }
  }

  lemma Decoded(page: seq<Byte>, argv: Argv, sp: nat, args: int)
    requires |page| == PAGE_SIZE && BASE <= sp && sp % 4 == 0 && sp + 8 <= USTACKTOP
    requires VectorOk(page, args, argv) && VectorAt(page, sp) == args && Word(page, sp - BASE) == |argv|
    ensures Decodes(page, sp, argv)
  {
  }

  /** Strings and pointers stay as long as nothing from the vector on changes. */
  lemma VectorKept(before: seq<Byte>, after: seq<Byte>, argv: Argv, args: nat, strings: nat)
    requires |before| == |after| == PAGE_SIZE && Fits(argv) && args == ArgsAt(argv) && strings == StringAt(argv, 0)
    requires forall k :: args <= k < PAGE_SIZE ==> after[k] == before[k]
    requires HasStrings(before, argv, |argv|) && forall k :: 0 <= k < |argv| ==> Pointer(before, args, k, argv)
    ensures HasStrings(after, argv, |argv|) && forall k :: 0 <= k < |argv| ==> Pointer(after, args, k, argv)
  {
    Offsets(argv, |argv|);
    assert after[strings..PAGE_SIZE] == before[strings..PAGE_SIZE];
    StringsKept(before, after, argv, |argv|);
    forall k | 0 <= k < |argv| ensures Pointer(after, args, k, argv) { assert Pointer(before, args, k, argv); }
  }

  /** argc and argv, pushed below the vector. */
  method PushMain(page: array<Byte>, argv: Argv, args: nat, ghost strings: nat)
    requires page.Length == PAGE_SIZE && Fits(argv) && args == ArgsAt(argv) && strings == StringAt(argv, 0) && args >= 8
    requires HasStrings(page[..], argv, |argv|) && forall k :: 0 <= k < |argv| ==> Pointer(page[..], args, k, argv)
    requires LastIsNotNull(page[..], args, argv)
    modifies page
    ensures HasStrings(page[..], argv, |argv|) && forall k :: 0 <= k < |argv| ==> Pointer(page[..], args, k, argv)
    ensures LastIsNotNull(page[..], args, argv)
    ensures Word(page[..], args - 4) == BASE + args && Word(page[..], args - 8) == |argv|
  {
    ghost var was := page[..];
    StoreWord(page, args - 4, BASE + args);
    StoreWord(page, args - 8, |argv|);
    Offsets(argv, |argv|);
    VectorKept(was, page[..], argv, args, strings);
  }

  lemma StackPointer(page: seq<Byte>, argv: Argv, args: nat)
    requires |page| == PAGE_SIZE && 8 <= args && args + 4 <= PAGE_SIZE && args % 4 == 0
    requires Word(page, args - 4) == BASE + args && Word(page, args - 8) == |argv| && VectorOk(page, args, argv)
    ensures Decodes(page, BASE + args - 8, argv) && VectorAt(page, BASE + args - 8) == args
  {
    var sp := BASE + args - 8;
    assert sp % 4 == 0 && sp + 8 <= USTACKTOP && sp - BASE == args - 8;
    assert VectorAt(page, sp) == args;
    Decoded(page, argv, sp, args);
  }

  /** Strings, pointers, argc and argv. */
  method FillStack(page: array<Byte>, argv: Argv, strings: nat, args: nat)
    requires page.Length == PAGE_SIZE && Fits(argv) && args == ArgsAt(argv) && strings == StringAt(argv, 0)
    modifies page
    ensures 8 <= args && args % 4 == 0 && args + 4 * (|argv| + 1) <= PAGE_SIZE && VectorOk(page[..], args, argv)
    ensures Word(page[..], args - 4) == BASE + args && Word(page[..], args - 8) == |argv|
    ensures LastIsNotNull(page[..], args, argv)
  {
    ArgsAligned(argv);
    Offsets(argv, |argv|);
    CopyStrings(page, argv, strings);
    ghost var copied := page[..];
    StorePointers(page, argv, args, strings);
    assert page[..][strings..PAGE_SIZE] == copied[strings..PAGE_SIZE];
    StringsKept(copied, page[..], argv, |argv|);
    PushMain(page, argv, args, strings);
    VectorIsOk(page[..], argv, args);
  }

  /** init_stack.  It fails exactly when the strings and words do not fit; otherwise the
      child's entry decodes exactly argc and the argument strings from the stack pointer. */
  method InitStack(page: array<Byte>, argv: Argv) returns (ok: bool, initSp: nat)
    requires page.Length == PAGE_SIZE
    modifies page
    ensures ok <==> Fits(argv)
    ensures ok ==> Decodes(page[..], initSp, argv) && LastIsNotNull(page[..], VectorAt(page[..], initSp), argv)
  {
    var tot := 0;
    for argc := 0 to |argv|
      invariant tot == Bytes(argv, argc)
    {
      tot := tot + |argv[argc]| + 1;
    }
    var argc := |argv|;
    if Round4(tot) + 4 * (argc + 3) > PAGE_SIZE {
      return false, 0;
    }
    initSp := WriteStack(page, argv, tot);
    ok := true;
  }

  /** What init_stack writes once it is known to fit. */
  method WriteStack(page: array<Byte>, argv: Argv, tot: nat) returns (initSp: nat)
    requires page.Length == PAGE_SIZE && Fits(argv) && tot == Bytes(argv, |argv|)
    modifies page
    ensures Decodes(page[..], initSp, argv) && LastIsNotNull(page[..], VectorAt(page[..], initSp), argv)
  {
    Offsets(argv, 0);
    var strings: nat := PAGE_SIZE - tot;
    var args: nat := PAGE_SIZE - Round4(tot) - 4 * (|argv| + 1);
    FillStack(page, argv, strings, args);
    StackPointer(page[..], argv, args);
    initSp := BASE + args - 8;
  }
}
