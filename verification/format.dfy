/** The offline formatter (tools/fsformat.c): the image it leaves is one the file server's
    ownership invariant holds of. */
module Format {
  import opened Common
  import opened Bitmap
  import opened Disk
  import opened Blocks

  const NBLOCK := 1024
  const BITMAP_WORDS := 1024   // of the one bitmap block

  /** The number of the j-th struct File of block bno; the root's is 0. */
  function Entry(bno: nat, j: nat): nat {
    bno * FILE2BLK + j
  }

  lemma EntriesInOrder(b: nat, c: nat)
    requires b < c
    ensures Entry(b, FILE2BLK) <= Entry(c, 0)
  {
  }

  const NO_BLOCKS := Inode(0, [0, 0, 0, 0, 0, 0, 0, 0, 0, 0], 0)

  /** New struct Files without blocks take part in no ownership. */
  lemma MoreFiles(d: Disk, files: map<nat, Inode>)
    requires Owned(d) && d.files.Keys <= files.Keys
    requires forall f :: f in files ==> files[f] == if f in d.files then d.files[f] else NO_BLOCKS
    ensures Owned(d.(files := files))
    ensures forall x {:trigger Val(d.(files := files), x)} :: SlotOk(d.(files := files), x) ==>
      Val(d.(files := files), x) == if x.f in d.files then Val(d, x) else 0
  {
    var t := d.(files := files);
    forall x | SlotOk(t, x) ensures SlotOwns(t, x) {
      if x.f in d.files { assert SlotOwns(d, x); }
    }
    forall b | b in t.owner ensures BlockOwned(t, b) { assert BlockOwned(d, b); }
  }

  lemma {:induction false} ZeroDigits(i: nat)
    ensures !Digit(0, i)
  {
    if i > 0 { ZeroDigits(i - 1); }
  }

  /** `disk` before anything is written, and its free blocks. */
  method BlankBlocks(n: nat) returns (content: map<nat, seq<nat>>, ghost free: set<nat>)
    ensures forall b: nat :: b in content <==> b < n
    ensures forall b :: b in content ==> content[b] == seq(NINDIRECT, _ => 0)
    ensures forall b: nat :: b in free <==> 3 <= b < n
  {
    content, free := map[], {};
    for i := 0 to n
      invariant forall b: nat :: b in content <==> b < i
      invariant forall b :: b in content ==> content[b] == seq(NINDIRECT, _ => 0)
      invariant forall b: nat :: b in free <==> 3 <= b < i
    {
      content := content[i := seq(NINDIRECT, _ => 0)];
      free := free + if i >= 3 then {i} else {};
    }
  }

  /** A directory's blocks are there, one per BLOCK_SIZE of its size, and their places are
      struct Files. */
  ghost predicate DirOk(d: Disk, g: nat)
    requires Owned(d) && g in d.files
  {
    && d.files[g].size % BLOCK_SIZE == 0 && d.files[g].size / BLOCK_SIZE <= NINDIRECT
    && forall i: nat {:trigger SlotOf(g, i)} :: i < NINDIRECT ==>
      if i < d.files[g].size / BLOCK_SIZE then Val(d, SlotOf(g, i)) != 0 && Places(d, Val(d, SlotOf(g, i)))
      else Val(d, SlotOf(g, i)) == 0
  }

  predicate Places(d: Disk, bno: nat) {
    forall j: nat {:trigger Entry(bno, j)} :: j < FILE2BLK ==> Entry(bno, j) in d.files
  }

  /** f is a place in one of the directory's blocks. */
  ghost predicate InDirectory(d: Disk, g: nat, f: nat)
    requires Owned(d) && g in d.files && DirOk(d, g)
  {
    exists i: nat {:trigger SlotOf(g, i)} :: i < d.files[g].size / BLOCK_SIZE && Val(d, SlotOf(g, i)) == f / FILE2BLK
  }

  function Elements(s: seq<nat>): (r: set<nat>)
    ensures forall x :: x in r <==> x in s
  {
    if s == [] then {} else {s[0]} + Elements(s[1..])
  }

  function Below(n: nat): (r: set<nat>)
    ensures |r| == n && forall x: nat :: x in r <==> x < n
  {
    if n == 0 then {} else Below(n - 1) + {n - 1}
  }

  lemma {:induction false} CardOfDistinct(s: seq<nat>)
    requires forall i, j :: 0 <= i < j < |s| ==> s[i] != s[j]
    ensures |Elements(s)| == |s|
    decreases |s|
  {
    if s != [] {
      CardOfDistinct(s[1..]);
      assert s[0] !in s[1..];
      assert Elements(s) == {s[0]} + Elements(s[1..]);
    }
  }

  /** So many different numbers below n there are not. */
  lemma Pigeonhole(s: seq<nat>, n: nat)
    requires (forall i, j :: 0 <= i < j < |s| ==> s[i] != s[j]) && forall i :: 0 <= i < |s| ==> s[i] < n
    ensures |s| <= n
  {
    CardOfDistinct(s);
    var a, b := Elements(s), Below(n);
    assert a <= b && b == a + (b - a);
  }

  /** A directory never has all its slots in use: the disk has too few blocks for that. */
  lemma DirHasRoom(d: Disk, g: nat)
    requires Owned(d) && g in d.files && DirOk(d, g) && d.nblocks == NBLOCK
    ensures d.files[g].size / BLOCK_SIZE < NINDIRECT
  {
    var n := d.files[g].size / BLOCK_SIZE;
    var blocks: seq<nat> := seq(n, i requires 0 <= i < n => Val(d, SlotOf(g, i)));
    forall i | 0 <= i < n ensures 3 <= blocks[i] < NBLOCK {
      SlotsDistinct(d, SlotOf(g, i), Indirect(g));
    }
    forall i, j | 0 <= i < j < n ensures blocks[i] != blocks[j] {
      SlotsDistinct(d, SlotOf(g, i), SlotOf(g, j));
    }
    var below := seq(n, i requires 0 <= i < n => blocks[i] - 3);
    Pigeonhole(below, NBLOCK - 3);
  }

  /** Whatever could be read from any file can still be read. */
  ghost predicate StillHolds(d: Disk, u: Disk)
    requires Owned(d) && Owned(u)
  {
    && d.files.Keys <= u.files.Keys
    && forall f, k: nat, words {:trigger BlockHolds(u, f, k, words)} ::
         f in d.files && k < NINDIRECT && BlockHolds(d, f, k, words) ==> BlockHolds(u, f, k, words)
  }

  /** u is d after make_link_block: block bno is the directory's nblk-th, full of unused
      struct Files; other slots and sizes are as they were. */
  ghost predicate LinkMade(d: Disk, u: Disk, g: nat, nblk: nat, bno: nat)
    requires Owned(d) && Owned(u)
  {
    && g in d.files && d.files.Keys <= u.files.Keys && bno != 0 && Places(u, bno)
    && nblk == d.files[g].size / BLOCK_SIZE < NINDIRECT && u.files[g].size == d.files[g].size + BLOCK_SIZE
    && Val(u, SlotOf(g, nblk)) == bno
    && (forall h :: h in d.files && h != g ==> u.files[h] == d.files[h])
    && (forall x {:trigger Val(u, x)} :: SlotOk(d, x) && x != SlotOf(g, nblk) && x != Indirect(g) ==>
      Val(u, x) == Val(d, x))
  }

  lemma DirAfterLink(d: Disk, u: Disk, g: nat, nblk: nat, bno: nat, h: nat)
    requires Owned(d) && Owned(u) && LinkMade(d, u, g, nblk, bno) && h in d.files && DirOk(d, h)
    ensures DirOk(u, h)
  {
    forall i: nat | i < NINDIRECT
      ensures if i < u.files[h].size / BLOCK_SIZE then Val(u, SlotOf(h, i)) != 0 && Places(u, Val(u, SlotOf(h, i)))
        else Val(u, SlotOf(h, i)) == 0
    {
      assert SlotOk(d, SlotOf(h, i));
      if h != g || i != nblk {
        assert Val(u, SlotOf(h, i)) == Val(d, SlotOf(h, i));
        if i < d.files[h].size / BLOCK_SIZE { assert Places(d, Val(d, SlotOf(h, i))); }
      }
    }
  }

  /** Walking to the k-th block of f finds a block with these words. */
  ghost predicate BlockHolds(d: Disk, f: nat, k: nat, words: seq<nat>)
    requires Owned(d) && f in d.files && k < NINDIRECT
  {
    var b := Val(d, SlotOf(f, k));
    b != 0 && b in d.content && d.content[b] == words
  }

  lemma DirsAfterLink(d: Disk, u: Disk, g: nat, nblk: nat, bno: nat, dirs: set<nat>)
    requires Owned(d) && Owned(u) && LinkMade(d, u, g, nblk, bno)
    requires dirs <= d.files.Keys && forall h {:trigger DirOk(d, h)} :: h in dirs ==> DirOk(d, h)
    ensures forall h {:trigger DirOk(u, h)} :: h in dirs ==> DirOk(u, h)
  {
    forall h | h in dirs ensures DirOk(u, h) {
      assert DirOk(d, h);
      DirAfterLink(d, u, g, nblk, bno, h);
    }
  }

  lemma HoldsAfterLink(d: Disk, t: Disk, u: Disk, g: nat, nblk: nat, bno: nat)
    requires Owned(d) && Owned(t) && Owned(u) && StillHolds(d, t) && LinkMade(d, u, g, nblk, bno)
    requires t.files.Keys <= u.files.Keys && u == t.(files := u.files)
    requires forall h :: h in t.files ==>
      u.files[h] == if h == g then t.files[h].(size := u.files[h].size) else t.files[h]
    ensures StillHolds(d, u)
  {
    forall x | SlotOk(t, x) ensures SlotOk(u, x) && Val(u, x) == Val(t, x) {
      assert u.files[x.f] == if x.f == g then t.files[g].(size := u.files[g].size) else t.files[x.f];
    }
    HoldsInMoreFiles(d, t, u);
  }

  lemma TightAfterLink(d: Disk, u: Disk, g: nat, nblk: nat, bno: nat, used: set<nat>)
    requires Owned(d) && Owned(u) && LinkMade(d, u, g, nblk, bno) && DirOk(u, g) && used <= d.files.Keys
    requires forall h {:trigger Tight(d, h)} :: h in used ==> Tight(d, h)
    ensures forall h {:trigger Tight(u, h)} :: h in used ==> Tight(u, h)
  {
    forall h | h in used ensures Tight(u, h) {
      if h == g {
        DirIsTight(u, g);
      } else {
        assert Tight(d, h);
        TightKept(d, u, h);
      }
    }
  }

  /** Linking one more block into an empty slot disturbs the words of none linked before. */
  lemma AllHoldsKept(d: Disk, u: Disk, f: nat, i: nat)
    requires Owned(d) && Owned(u) && f in d.files && i < NINDIRECT && Val(d, SlotOf(f, i)) == 0
    requires OnlySlots(d, u, {SlotOf(f, i), Indirect(f)})
    requires forall b :: b in u.content && b in d.content && b != u.files[f].indirect && b != Val(u, SlotOf(f, i)) ==>
      u.content[b] == d.content[b]
    ensures StillHolds(d, u)
  {
    forall h, k: nat, words | h in d.files && k < NINDIRECT && BlockHolds(d, h, k, words)
      ensures BlockHolds(u, h, k, words) {
      assert SlotOk(d, SlotOf(h, k)) && Val(u, SlotOf(h, k)) == Val(d, SlotOf(h, k));
      SlotsDistinct(u, SlotOf(h, k), Indirect(f));
      SlotsDistinct(u, SlotOf(h, k), SlotOf(f, i));
    }
  }

  /** Neither do a new size and new struct Files. */
  lemma HoldsInMoreFiles(d: Disk, t: Disk, u: Disk)
    requires Owned(d) && Owned(t) && Owned(u) && StillHolds(d, t)
    requires t.files.Keys <= u.files.Keys && u.content == t.content
    requires forall x {:trigger Val(u, x)} :: SlotOk(t, x) ==> SlotOk(u, x) && Val(u, x) == Val(t, x)
    ensures StillHolds(d, u)
  {
    forall h, k: nat, words | h in d.files && k < NINDIRECT && BlockHolds(d, h, k, words)
      ensures BlockHolds(u, h, k, words) {
      assert BlockHolds(t, h, k, words) && SlotOk(t, SlotOf(h, k));
    }
  }

  /** A file that changed neither slots nor size has still nothing past its size. */
  lemma TightKept(d: Disk, u: Disk, h: nat)
    requires Owned(d) && Owned(u) && h in d.files && h in u.files && u.files[h] == d.files[h] && Tight(d, h)
    requires forall x {:trigger Val(u, x)} :: SlotOk(d, x) && x.f == h ==> Val(u, x) == Val(d, x)
    ensures Tight(u, h)
  {
    forall x | SlotOk(u, x) && Beyond(x, h, u.files[h].size) ensures Val(u, x) == 0 {
      assert SlotOk(d, x) && Val(d, x) == 0;
    }
  }

  /** u is d with the first i blocks of data linked to file f, which had none. */
  ghost predicate FilledUpTo(d: Disk, u: Disk, f: nat, data: seq<seq<nat>>, i: nat)
    requires Owned(d) && Owned(u)
  {
    && OnlyFile(d, u, f) && f in u.files && u.files[f].size == d.files[f].size && i <= |data| <= NINDIRECT
    && (if i > NDIRECT then u.files[f].indirect != 0 else u.files[f].indirect == 0)
    && (forall k: nat {:trigger BlockHolds(u, f, k, data[k])} :: k < i ==> BlockHolds(u, f, k, data[k]))
    && (forall k: nat {:trigger SlotOf(f, k)} :: i <= k < NINDIRECT ==> Val(u, SlotOf(f, k)) == 0)
  }

  lemma FilledOneMore(d: Disk, t: Disk, u: Disk, f: nat, data: seq<seq<nat>>, i: nat)
    requires Owned(d) && Owned(t) && Owned(u) && FilledUpTo(d, t, f, data, i) && i < |data|
    requires OnlySlots(t, u, {SlotOf(f, i), Indirect(f)}) && BlockHolds(u, f, i, data[i])
    requires forall g :: g in t.files && g != f ==> u.files[g] == t.files[g]
    requires forall k: nat {:trigger BlockHolds(u, f, k, data[k])} :: k < i ==> BlockHolds(u, f, k, data[k])
    requires if i >= NDIRECT then u.files[f].indirect != 0 else u.files[f].indirect == t.files[f].indirect
    ensures FilledUpTo(d, u, f, data, i + 1)
  {
    forall k: nat | i < k < NINDIRECT ensures Val(u, SlotOf(f, k)) == 0 { assert SlotOk(t, SlotOf(f, k)); }
    forall x | SlotOk(d, x) && x.f != f
      ensures Val(u, x) == Val(d, x) { assert SlotOk(t, x) && Val(t, x) == Val(d, x); }
  }

  lemma FilledIsTight(d: Disk, u: Disk, f: nat, data: seq<seq<nat>>)
    requires Owned(d) && Owned(u) && FilledUpTo(d, u, f, data, |data|) && BlocksFor(u.files[f].size) == |data|
    ensures Tight(u, f)
  {
    forall x | SlotOk(u, x) && DataSlot(x, f, |data|, NINDIRECT) ensures Val(u, x) == 0 { assert x == SlotOf(f, x.i); }
  }

  lemma HoldsTwice(d: Disk, t: Disk, u: Disk)
    requires Owned(d) && Owned(t) && Owned(u) && StillHolds(d, t) && StillHolds(t, u)
    ensures StillHolds(d, u)
  {
    forall f, k: nat, words | f in d.files && k < NINDIRECT && BlockHolds(d, f, k, words)
      ensures BlockHolds(u, f, k, words) {
      assert BlockHolds(t, f, k, words);
    }
  }

  /** Only file f's slots differ. */
  ghost predicate OnlyFile(d: Disk, u: Disk, f: nat)
    requires Owned(d) && Owned(u)
  {
    && d.files.Keys == u.files.Keys && (forall h :: h in d.files && h != f ==> u.files[h] == d.files[h])
    && (forall x {:trigger Val(u, x)} :: SlotOk(d, x) && x.f != f ==> Val(u, x) == Val(d, x))
  }

  lemma DirKept(d: Disk, u: Disk, f: nat, h: nat)
    requires Owned(d) && Owned(u) && OnlyFile(d, u, f) && h in d.files && h != f && DirOk(d, h)
    ensures DirOk(u, h)
  {
    forall i: nat | i < NINDIRECT
      ensures if i < u.files[h].size / BLOCK_SIZE then Val(u, SlotOf(h, i)) != 0 && Places(u, Val(u, SlotOf(h, i)))
        else Val(u, SlotOf(h, i)) == 0
    {
      assert Val(u, SlotOf(h, i)) == Val(d, SlotOf(h, i));
      if i < d.files[h].size / BLOCK_SIZE { assert Places(d, Val(d, SlotOf(h, i))); }
    }
  }

  /** Resizing and filling f leaves directories, reading and sizes of others as they were. */
  lemma OthersKept(d: Disk, r: Disk, u: Disk, f: nat, dirs: set<nat>, used: set<nat>)
    requires Owned(d) && Owned(r) && Owned(u) && f in d.files && f in r.files && r == Resized(d, f, r.files[f].size)
    requires forall x :: SlotOk(d, x) ==> Val(r, x) == Val(d, x)
    requires OnlyFile(r, u, f) && StillHolds(r, u) && f !in dirs && f !in used && dirs <= d.files.Keys &&
      used <= d.files.Keys
    requires forall h {:trigger DirOk(d, h)} :: h in dirs ==> DirOk(d, h)
    requires forall h {:trigger Tight(d, h)} :: h in used ==> Tight(d, h)
    ensures forall h {:trigger DirOk(u, h)} :: h in dirs ==> DirOk(u, h)
    ensures forall h {:trigger Tight(u, h)} :: h in used ==> Tight(u, h)
    ensures StillHolds(d, u)
  {
    assert OnlyFile(d, u, f);
    HoldsInMoreFiles(d, d, r);
    HoldsTwice(d, r, u);
    forall h | h in dirs ensures DirOk(u, h) {
      assert DirOk(d, h);
      DirKept(d, u, f, h);
    }
    forall h | h in used ensures Tight(u, h) {
      assert Tight(d, h);
      TightKept(d, u, h);
    }
  }

  /** The steps of make_link_block, put together. */
  lemma LinkBySteps(d: Disk, t: Disk, g: nat, nblk: nat, bno: nat, files: map<nat, Inode>)
    requires Owned(d) && Owned(t) && g in d.files && nblk == d.files[g].size / BLOCK_SIZE < NINDIRECT && bno != 0
    requires OnlySlots(d, t, {SlotOf(g, nblk), Indirect(g)}) && Val(t, SlotOf(g, nblk)) == bno
    requires forall h :: h in d.files && h != g ==> t.files[h] == d.files[h]
    requires t.files.Keys <= files.Keys && forall j: nat {:trigger Entry(bno, j)} :: j < FILE2BLK ==>
      Entry(bno, j) in files
    requires forall f :: f in files ==>
      files[f] == if f == g then t.files[g].(size := t.files[g].size + BLOCK_SIZE) else if f in t.files then t.files[f]
        else NO_BLOCKS
    ensures Owned(t.(files := files)) && LinkMade(d, t.(files := files), g, nblk, bno)
  {
    var r, u := Resized(t, g, t.files[g].size + BLOCK_SIZE), t.(files := files);
    ResizedKeeps(t, g, t.files[g].size + BLOCK_SIZE);
    MoreFiles(r, files);
    assert r.(files := files) == u;
    assert SlotOk(u, SlotOf(g, nblk));
    forall x | SlotOk(d, x) && x != SlotOf(g, nblk) && x != Indirect(g) ensures Val(u, x) == Val(d, x) {
      assert SlotOk(u, x) && Val(t, x) == Val(d, x);
    }
  }

  /** And what they keep. */
  lemma LinkDone(d: Disk, t: Disk, u: Disk, g: nat, nblk: nat, bno: nat, dirs: set<nat>, used: set<nat>)
    requires Owned(d) && Owned(t) && g in d.files && nblk == d.files[g].size / BLOCK_SIZE < NINDIRECT && bno != 0
    requires OnlySlots(d, t, {SlotOf(g, nblk), Indirect(g)}) && Val(t, SlotOf(g, nblk)) == bno && StillHolds(d, t)
    requires forall h :: h in d.files && h != g ==> t.files[h] == d.files[h]
    requires t.files.Keys <= u.files.Keys && forall j: nat {:trigger Entry(bno, j)} :: j < FILE2BLK ==>
      Entry(bno, j) in u.files
    requires u == t.(files := u.files) && g in dirs && dirs <= used <= d.files.Keys
    requires forall f :: f in u.files ==>
      u.files[f] == if f == g then t.files[g].(size := t.files[g].size + BLOCK_SIZE)
        else if f in t.files then t.files[f] else NO_BLOCKS
    requires forall h {:trigger DirOk(d, h)} :: h in dirs ==> DirOk(d, h)
    requires forall h {:trigger Tight(d, h)} :: h in used ==> Tight(d, h)
    ensures Owned(u) && StillHolds(d, u) && SlotOk(u, SlotOf(g, nblk)) && Val(u, SlotOf(g, nblk)) == bno
    ensures forall h {:trigger DirOk(u, h)} :: h in dirs ==> DirOk(u, h)
    ensures forall h {:trigger Tight(u, h)} :: h in used ==> Tight(u, h)
  {
    LinkBySteps(d, t, g, nblk, bno, u.files);
    DirsAfterLink(d, u, g, nblk, bno, dirs);
    HoldsAfterLink(d, t, u, g, nblk, bno);
    TightAfterLink(d, u, g, nblk, bno, used);
  }

  lemma NothingOwned(d: Disk)
    requires d.nblocks == NBLOCK && d.owner == map[] && d.files == map[ROOT := NO_BLOCKS]
    requires forall b: nat :: b in d.content <==> b < NBLOCK
    requires forall b :: b in d.content ==> d.content[b] == seq(NINDIRECT, _ => 0)
    requires forall b: nat :: b in d.free <==> 3 <= b < NBLOCK
    ensures Owned(d) && forall b: nat :: b < NBLOCK ==> NoSlots(d.content, b)
  {
    forall x | SlotOk(d, x) ensures SlotOwns(d, x) { assert Val(d, x) == 0; }
  }

  lemma InitialBit(words: seq<nat>, b: nat)
    requires |words| == BITMAP_WORDS && b < BITMAP_WORDS * WORD_BITS
    requires forall k :: 0 <= k < NBLOCK / WORD_BITS ==> words[k] == Pow2(WORD_BITS) - 1
    requires forall k :: NBLOCK / WORD_BITS <= k < BITMAP_WORDS ==> words[k] == 0
    ensures Bit(words, b) <==> b < NBLOCK
  {
    AllDigits(b % WORD_BITS, WORD_BITS);
    ZeroDigits(b % WORD_BITS);
  }

  /** init_disk's bitmap: a 1 for every block of the disk and for nothing else. */
  method InitBitmap(words: array<nat>)
    requires words.Length == BITMAP_WORDS
    modifies words
    ensures forall b: nat :: b < BITMAP_WORDS * WORD_BITS ==> (Bit(words[..], b) <==> b < NBLOCK)
  {
    var ones := Pow2(WORD_BITS) - 1;
    for i := 0 to BITMAP_WORDS
      invariant forall k :: 0 <= k < i ==> words[k] == ones
    {
      words[i] := ones;
    }
    var diff := NBLOCK % BLOCK_SIZE_BIT / 8 / 4;
    for i := diff to BITMAP_WORDS
      invariant forall k :: 0 <= k < diff ==> words[k] == ones
      invariant forall k :: diff <= k < i ==> words[k] == 0
    {
      words[i] := 0;
    }
    forall b: nat | b < BITMAP_WORDS * WORD_BITS ensures Bit(words[..], b) <==> b < NBLOCK {
      InitialBit(words[..], b);
    }
  }

  // ---- What the host has and what the image gets ------------------------------------------------

  /** A regular file, with its contents in blocks, or a directory, in the order of readdir. */
  datatype Host = HostFile(size: nat, data: seq<seq<nat>>) | HostDir(entries: seq<Host>)

  predicate HostOk(h: Host) {
    match h
    case HostFile(size, data) =>
      size <= |data| * BLOCK_SIZE < size + BLOCK_SIZE && forall i :: 0 <= i < |data| ==> |data[i]| == NINDIRECT
    case HostDir(entries) => forall i :: 0 <= i < |entries| ==> HostOk(entries[i])
  }

  /** Blocks that are enough for it. */
  function Space(h: Host): nat
    decreases h, 1
  {
    match h
    case HostFile(_, data) => |data| + 3
    case HostDir(_) => 2 + SpaceFrom(h, 0)
  }

  function SpaceFrom(h: Host, k: nat): nat
    requires h.HostDir? && k <= |h.entries|
    decreases h, 0, |h.entries| - k
  {
    if k == |h.entries| then 0 else Space(h.entries[k]) + SpaceFrom(h, k + 1)
  }

  /** A regular file of the host and the struct File it got. */
  datatype Written = Written(f: nat, size: nat, data: seq<seq<nat>>)

  /** The regular files in the order in which they are written. */
  function Leaves(h: Host): seq<Host>
    decreases h, 1
  {
    if h.HostFile? then [h] else LeavesFrom(h, 0)
  }

  function LeavesFrom(h: Host, k: nat): seq<Host>
    requires h.HostDir? && k <= |h.entries|
    decreases h, 0, |h.entries| - k
  {
    if k == |h.entries| then [] else Leaves(h.entries[k]) + LeavesFrom(h, k + 1)
  }

  datatype Image = Image(d: Disk, used: set<nat>, dirs: set<nat>)

  /** b has all that a has: regular files as they were, directories perhaps larger. */
  ghost predicate Extends(a: Image, b: Image) {
    && Owned(a.d) && Owned(b.d) && StillHolds(a.d, b.d) && a.used <= b.used && a.dirs <= b.dirs
    && a.used <= a.d.files.Keys
    && forall f :: f in a.used && f !in a.dirs ==> f !in b.dirs && b.d.files[f] == a.d.files[f]
  }

  lemma ExtendsTwice(a: Image, b: Image, c: Image)
    requires Extends(a, b) && Extends(b, c)
    ensures Extends(a, c)
  {
    HoldsTwice(a.d, b.d, c.d);
  }

  /** The server finds the file's size, and its contents block by block; a small file has no
      indirect block. */
  ghost predicate Serves(d: Disk, w: Written) {
    && Owned(d) && w.f in d.files && d.files[w.f].size == w.size && |w.data| <= NINDIRECT
    && (|w.data| <= NDIRECT ==> d.files[w.f].indirect == 0)
    && forall k: nat {:trigger BlockHolds(d, w.f, k, w.data[k])} :: k < |w.data| ==> BlockHolds(d, w.f, k, w.data[k])
  }

  /** The regular file is there, with its size and, block by block, its contents. */
  ghost predicate Reads(m: Image, w: Written) {
    Serves(m.d, w) && w.f in m.used && w.f !in m.dirs
  }

  /** Exactly the leaves, in order, in different struct Files that were not in use. */
  ghost predicate AreWritten(m: Image, before: set<nat>, written: seq<Written>, leaves: seq<Host>) {
    && |written| == |leaves|
    && (forall i :: 0 <= i < |written| ==> written[i].f !in before && Reads(m, written[i]))
    && (forall i :: 0 <= i < |written| ==> leaves[i] == HostFile(written[i].size, written[i].data))
    && (forall i, j :: 0 <= i < j < |written| ==> written[i].f != written[j].f)
  }

  lemma ReadsStill(a: Image, b: Image, w: Written)
    requires Extends(a, b) && Reads(a, w)
    ensures Reads(b, w)
  {
    forall k: nat | k < |w.data|
      ensures BlockHolds(b.d, w.f, k, w.data[k]) { assert BlockHolds(a.d, w.f, k, w.data[k]); }
  }

  lemma WrittenSince(m: Image, before: set<nat>, later: set<nat>, written: seq<Written>, leaves: seq<Host>)
    requires AreWritten(m, later, written, leaves) && before <= later
    ensures AreWritten(m, before, written, leaves)
  {
  }

  lemma WrittenBoth(a: Image, b: Image, c: Image, s: seq<Written>, t: seq<Written>, x: seq<Host>, y: seq<Host>)
    requires Extends(a, b) && Extends(b, c)
    requires AreWritten(b, a.used, s, x) && AreWritten(c, b.used, t, y)
    ensures AreWritten(c, a.used, s + t, x + y)
  {
    var r := s + t;
    forall i | 0 <= i < |r|
      ensures r[i].f !in a.used && Reads(c, r[i]) && (x + y)[i] == HostFile(r[i].size, r[i].data) {
      if i < |s| {
        assert Reads(b, s[i]) && x[i] == HostFile(s[i].size, s[i].data);
        ReadsStill(b, c, s[i]);
      } else {
        assert t[i - |s|].f !in b.used && y[i - |s|] == HostFile(t[i - |s|].size, t[i - |s|].data);
      }
    }
    forall i, j | 0 <= i < j < |r| ensures r[i].f != r[j].f {
      if i < |s| <= j { assert Reads(b, s[i]) && t[j - |s|].f !in b.used; }
    }
  }

  /** An unused struct File is an empty directory as well. */
  lemma NewIsDirectory(d: Disk, f: nat)
    requires Owned(d) && f in d.files && d.files[f] == NO_BLOCKS
    ensures DirOk(d, f)
  {
    assert forall i: nat :: i < NINDIRECT ==> Val(d, SlotOf(f, i)) == 0;
  }

  class Formatter {
    const bitmap: array<nat>
    var content: map<nat, seq<nat>>
    var files: map<nat, Inode>
    var used: set<nat>          // struct Files with a name
    var nextbno: nat
    ghost var dirs: set<nat>    // struct Files of type FTYPE_DIR
    ghost var free: set<nat>
    ghost var owner: map<nat, Slot>

    ghost function Now(): Disk
      reads this
    {
      Disk(NBLOCK, free, files, content, {}, owner)
    }

    /** Blocks from nextbno on are free and empty, and all struct Files lie before. */
    ghost predicate Fresh()
      reads this
    {
      Numbered() && Empty(nextbno)
    }

    ghost predicate Numbered()
      reads this
    {
      && 3 <= nextbno <= NBLOCK && ROOT in files
      && (forall b: nat :: b in free <==> nextbno <= b < NBLOCK)
      && (forall f :: f in files ==> f < Entry(nextbno, 0))
    }

    ghost predicate Empty(lo: nat)
      reads this
    {
      forall b: nat :: lo <= b < NBLOCK ==> NoSlots(content, b)
    }

    ghost predicate Sound()
      reads this
    {
      Fresh() && Owned(Now())
    }

    ghost predicate Valid()
      reads this
    {
      && Sound() && used <= files.Keys && ROOT in dirs && dirs <= used
      && (forall g :: g in files && g !in used ==> files[g] == NO_BLOCKS)
      && (forall g {:trigger DirOk(Now(), g)} :: g in dirs ==> DirOk(Now(), g))
      && (forall g {:trigger Tight(Now(), g)} :: g in used ==> Tight(Now(), g))
    }

    /** init_disk but for the bitmap. */
    constructor (bitmap: array<nat>)
      ensures Valid() && files == map[ROOT := NO_BLOCKS] && nextbno == 3 && used == {ROOT} && this.bitmap == bitmap
    {
      var nbitblock := (NBLOCK + BLOCK_SIZE_BIT - 1) / BLOCK_SIZE_BIT;
      var blank, numbers := BlankBlocks(NBLOCK);
      this.bitmap, content, free := bitmap, blank, numbers;
      files, used, dirs, owner := map[ROOT := NO_BLOCKS], {ROOT}, {ROOT}, map[];
      nextbno := 2 + nbitblock;
      new;
      NothingOwned(Now());
    }

    /** next_block. */
    method NextBlock() returns (bno: nat)
      requires Numbered() && Empty(nextbno + 1) && nextbno < NBLOCK
      modifies this`nextbno, this`free
      ensures bno == old(nextbno) && nextbno == bno + 1 && free == old(free) - {bno} && Fresh()
    {
      free := free - {nextbno};
      nextbno := nextbno + 1;
      bno := nextbno - 1;
    }

    /** save_block_link's new indirect block, while block bno waits to be linked. */
    method MakeIndex(f: nat, ghost bno: nat)
      requires Fresh() && bno !in free && Owned(Now().(free := free + {bno})) && f in files
      requires files[f].indirect == 0 && nextbno < NBLOCK
      modifies this`nextbno, this`free, this`files, this`owner
      ensures Fresh() && bno !in free && Owned(Now().(free := free + {bno})) && nextbno == old(nextbno) + 1
      ensures f in files && files[f].indirect != 0 && files[f].direct == old(files)[f].direct
      ensures forall g :: g in old(files) && g != f ==> g in files && files[g] == old(files)[g]
      ensures OnlySlots(old(Now()), Now(), {Indirect(f)})
    {
      ghost var d := Now().(free := free + {bno});
      assert SlotOk(d, Indirect(f));
      Placed(d, Indirect(f), nextbno);
      var ind := NextBlock();
      files := files[f := files[f].(indirect := ind)];
      owner := owner[ind := Indirect(f)];
      assert Now().(free := free + {bno}) == Attached(d, Indirect(f), ind);
    }

    /** save_block_link, of a block from next_block into an empty slot.  False: the
        formatter's assertion fails. */
    method SaveBlockLink(f: nat, nblk: nat, bno: nat) returns (ok: bool)
      requires Fresh() && bno !in free && Owned(Now().(free := free + {bno})) && f in files
      requires nblk < NINDIRECT ==> Val(Now(), SlotOf(f, nblk)) == 0
      requires NDIRECT <= nblk < NINDIRECT && files[f].indirect == 0 ==> nextbno < NBLOCK
      modifies this`nextbno, this`free, this`files, this`owner, this`content
      ensures ok <==> nblk < NINDIRECT
      ensures ok ==> Sound() && OnlySlots(old(Now()), Now(), {SlotOf(f, nblk), Indirect(f)})
      ensures ok ==> f in files && Val(Now(), SlotOf(f, nblk)) == bno
      ensures ok ==> nextbno == old(nextbno) + if nblk >= NDIRECT && old(files)[f].indirect == 0 then 1 else 0
      ensures ok && (nblk < NDIRECT || old(files)[f].indirect != 0) ==>
        f in files && files[f].indirect == old(files)[f].indirect
      ensures ok ==> forall b :: b in content && b != files[f].indirect ==> content[b] == old(content)[b]
      ensures ok ==> forall g :: g in old(files) && g != f ==> g in files && files[g] == old(files)[g]
    {
      if nblk >= NINDIRECT {
        return false;
      }
      var x := SlotOf(f, nblk);
      if nblk >= NDIRECT && files[f].indirect == 0 {
        MakeIndex(f, bno);
      }
      LinkInto(x, bno);
      ok := true;
    }

    /** The block number goes into its slot. */
    method LinkInto(x: Slot, bno: nat)
      requires Fresh() && bno !in free && Owned(Now().(free := free + {bno})) && SlotOk(Now(), x) && !x.Indirect?
      requires Val(Now(), x) == 0 && (x.Via? ==> files[x.f].indirect != 0)
      modifies this`files, this`owner, this`content
      ensures Sound() && OnlySlots(old(Now()), Now(), {x}) && Val(Now(), x) == bno
      ensures files[x.f].indirect == old(files)[x.f].indirect
      ensures forall b :: b in content && b != files[x.f].indirect ==> content[b] == old(content)[b]
      ensures forall g :: g in old(files) && g != x.f ==> g in files && files[g] == old(files)[g]
    {
      ghost var d := Now().(free := free + {bno});
      Placed(d, x, bno);
      match x {
        case Direct(f, i) => files := files[f := files[f].(direct := files[f].direct[i := bno])];
        case Via(f, i) =>
          IndirectIsReadable(d, f);
          var words: seq<nat> := content[files[f].indirect][i := bno];
          content := content[files[f].indirect := words];
      }
      owner := owner[bno := x];
      forall b: nat | nextbno <= b < NBLOCK ensures NoSlots(content, b) {
        assert NoSlots(old(content), b) && b in d.free;
        if x.Via? { IndirectIsReadable(d, x.f); }
      }
      assert free == free + {bno} - {bno};
      assert Now() == Attached(d, x, bno);
    }

    /** The next block of the disk becomes the directory's nblk-th. */
    method LinkNext(g: nat, nblk: nat) returns (bno: nat)
      requires Valid() && g in dirs && nblk == files[g].size / BLOCK_SIZE < NINDIRECT && nextbno + 2 <= NBLOCK
      modifies this`nextbno, this`free, this`files, this`owner, this`content
      ensures Sound() && OnlySlots(old(Now()), Now(), {SlotOf(g, nblk), Indirect(g)})
      ensures g in files && Val(Now(), SlotOf(g, nblk)) == bno && old(nextbno) == bno < nextbno <= bno + 2
      ensures forall h :: h in old(files) && h != g ==> files[h] == old(files)[h]
      ensures StillHolds(old(Now()), Now())
    {
      ghost var d := Now();
      bno := NextBlock();
      assert free + {bno} == d.free;
      assert Now().(free := free + {bno}) == d;
      assert DirOk(d, g) && Val(d, SlotOf(g, nblk)) == 0;
      var _ := SaveBlockLink(g, nblk, bno);
      AllHoldsKept(d, Now(), g, nblk);
    }

    /** make_link_block: the directory gets a block of struct Files, all unused. */
    method MakeLinkBlock(g: nat, nblk: nat) returns (bno: nat)
      requires Valid() && g in dirs && nblk == files[g].size / BLOCK_SIZE < NINDIRECT && nextbno + 2 <= NBLOCK
      modifies this`nextbno, this`free, this`files, this`owner, this`content
      ensures Valid() && files[g].size == old(files)[g].size + BLOCK_SIZE
      ensures Val(Now(), SlotOf(g, nblk)) == bno
      ensures Entry(bno, 0) in files && Entry(bno, 0) !in used
      ensures nextbno <= old(nextbno) + 2 && StillHolds(old(Now()), Now())
      ensures forall h :: h in old(files) && h != g ==> files[h] == old(files)[h]
    {
      ghost var d := Now();
      bno := LinkNext(g, nblk);
      ghost var t := Now();
      files := files[g := files[g].(size := files[g].size + BLOCK_SIZE)];
      AddPlaces(bno);
      EntriesInOrder(bno, nextbno);
      assert Now() == t.(files := files) && Fresh();
      LinkDone(d, t, Now(), g, nblk, bno, dirs, used);
    }

    /** The struct Files of a block that was all zero. */
    method AddPlaces(bno: nat)
      modifies this`files
      ensures forall f :: f in files <==> f in old(files) || Entry(bno, 0) <= f < Entry(bno, FILE2BLK)
      ensures forall f :: f in files ==> files[f] == if f in old(files) then old(files)[f] else NO_BLOCKS
    {
      for i := 0 to FILE2BLK
        invariant forall f :: f in files <==> f in old(files) || Entry(bno, 0) <= f < Entry(bno, i)
        invariant forall f :: f in files ==> files[f] == if f in old(files) then old(files)[f] else NO_BLOCKS
      {
        if Entry(bno, i) !in files {
          files := files[Entry(bno, i) := NO_BLOCKS];
        }
      }
    }

    /** create_file's search through the directory's blocks. */
    method FindUnused(g: nat) returns (found: bool, f: nat)
      requires Valid() && g in dirs
      ensures DirOk(Now(), g)
      ensures found ==> f in files && f !in used && InDirectory(Now(), g, f)
      ensures !found ==> forall k: nat :: k in files && InDirectory(Now(), g, k) ==> k in used
    {
      assert DirOk(Now(), g);
      var nblk := files[g].size / BLOCK_SIZE;
      for i := 0 to nblk
        invariant forall k: nat, j: nat :: k < i && j < FILE2BLK ==> Entry(Val(Now(), SlotOf(g, k)), j) in used
      {
        var bno;
        if i < NDIRECT {
          bno := files[g].direct[i];
        } else {
          ReadsIndirect(Now(), g, i);
          bno := content[files[g].indirect][i];
        }
        assert bno == Val(Now(), SlotOf(g, i)) && Places(Now(), bno);
        for j := 0 to FILE2BLK
          invariant forall k: nat :: k < j ==> Entry(bno, k) in used
        {
          if Entry(bno, j) !in used {
            return true, Entry(bno, j);
          }
        }
      }
      forall k: nat | k in files && InDirectory(Now(), g, k) ensures k in used {
        var i: nat :| i < nblk && Val(Now(), SlotOf(g, i)) == k / FILE2BLK;
        assert k == Entry(Val(Now(), SlotOf(g, i)), k % FILE2BLK);
      }
      return false, 0;
    }

    /** create_file: a struct File of the directory that is not in use.  It never fails, as
        the source assumes: the formatter's assertion holds. */
    method CreateFile(g: nat) returns (f: nat)
      requires Valid() && g in dirs && nextbno + 2 <= NBLOCK
      modifies this`nextbno, this`free, this`files, this`owner, this`content
      ensures Valid() && DirOk(Now(), g) && nextbno <= old(nextbno) + 2 && StillHolds(old(Now()), Now())
      ensures forall h :: h in old(files) && h != g ==> files[h] == old(files)[h]
      ensures f in files && f !in used && InDirectory(Now(), g, f)
    {
      assert DirOk(Now(), g);
      var found;
      found, f := FindUnused(g);
      if found {
        return;
      }
      DirHasRoom(Now(), g);
      var nblk := files[g].size / BLOCK_SIZE;
      var bno := MakeLinkBlock(g, nblk);
      f := Entry(bno, 0);
      assert DirOk(Now(), g) && f / FILE2BLK == Val(Now(), SlotOf(g, nblk));
    }

    /** One round of write_file: a block of the host file goes to the next disk block, which
        is linked as the i-th of f. */
    method AppendBlock(f: nat, i: nat, words: seq<nat>)
      requires Sound() && f in files && i < NINDIRECT && |words| == NINDIRECT && Val(Now(), SlotOf(f, i)) == 0
      requires nextbno + (if i >= NDIRECT && files[f].indirect == 0 then 2 else 1) <= NBLOCK
      modifies this`nextbno, this`free, this`files, this`owner, this`content
      ensures Sound() && f in files && OnlySlots(old(Now()), Now(), {SlotOf(f, i), Indirect(f)})
      ensures BlockHolds(Now(), f, i, words)
      ensures forall g :: g in old(files) && g != f ==> files[g] == old(files)[g]
      ensures StillHolds(old(Now()), Now())
      ensures if i >= NDIRECT then files[f].indirect != 0 else files[f].indirect == old(files)[f].indirect
      ensures nextbno == old(nextbno) + if i >= NDIRECT && old(files)[f].indirect == 0 then 2 else 1
    {
      ghost var d := Now();
      FreeContent(d, nextbno, words, {});
      content := content[nextbno := words];
      assert Empty(nextbno + 1) by {
        forall b: nat | nextbno + 1 <= b < NBLOCK ensures NoSlots(content, b) { assert NoSlots(old(content), b); }
      }
      var bno := NextBlock();
      assert free + {bno} == d.free;
      assert Now().(free := free + {bno}) == d.(content := content, cached := {});
      assert SlotOk(d, SlotOf(f, i));
      var _ := SaveBlockLink(f, i, bno);
      SlotsDistinct(Now(), SlotOf(f, i), Indirect(f));
      assert Now().content[bno] == words;
      AllHoldsKept(d, Now(), f, i);
    }

    /** write_file's loop, for a file without blocks. */
    method FillFile(f: nat, data: seq<seq<nat>>)
      requires Sound() && f in files && files[f].direct == NO_BLOCKS.direct && files[f].indirect == 0
      requires BlocksFor(files[f].size) == |data| <= NINDIRECT && nextbno + |data| + 1 <= NBLOCK && forall i ::
        0 <= i < |data| ==> |data[i]| == NINDIRECT
      modifies this`nextbno, this`free, this`files, this`owner, this`content
      ensures Sound() && OnlyFile(old(Now()), Now(), f) && files[f].size == old(files)[f].size &&
        nextbno <= old(nextbno) + |data| + 1
      ensures forall k: nat {:trigger BlockHolds(Now(), f, k, data[k])} :: k < |data| ==>
        BlockHolds(Now(), f, k, data[k])
      ensures StillHolds(old(Now()), Now()) && Tight(Now(), f)
      ensures f in files && (|data| <= NDIRECT ==> files[f].indirect == 0)
    {
      ghost var d := Now();
      assert FilledUpTo(d, Now(), f, data, 0);
      for i := 0 to |data|
        invariant Sound() && FilledUpTo(d, Now(), f, data, i) && StillHolds(d, Now())
        invariant nextbno == old(nextbno) + i + if i > NDIRECT then 1 else 0
      {
        ghost var t := Now();
        AppendBlock(f, i, data[i]);
        forall k: nat | k < i ensures BlockHolds(Now(), f, k, data[k]) { assert BlockHolds(t, f, k, data[k]); }
        FilledOneMore(d, t, Now(), f, data, i);
        HoldsTwice(d, t, Now());
      }
      FilledIsTight(d, Now(), f, data);
    }

    /** write_file: walking the new file's slots as the server does finds, block by block,
        what the host file held, nothing is in use past its size, and every other file can be
        read as before. */
    method WriteFile(g: nat, size: nat, data: seq<seq<nat>>) returns (f: nat)
      requires Valid() && g in dirs && BlocksFor(size) == |data| && nextbno + |data| + 3 <= NBLOCK
      requires forall i :: 0 <= i < |data| ==> |data[i]| == NINDIRECT
      modifies this`nextbno, this`free, this`files, this`owner, this`content, this`used
      ensures Valid() && nextbno <= old(nextbno) + |data| + 3 && StillHolds(old(Now()), Now())
      ensures forall h :: h in old(used) && h != g ==> files[h] == old(files)[h]
      ensures f !in old(used) && used == old(used) + {f} && Serves(Now(), Written(f, size, data)) && Tight(Now(), f)
    {
      ghost var d0 := Now();
      f := CreateFile(g);
      ghost var d := Now();
      FillNew(f, size, data);
      HoldsTwice(d0, d, Now());
    }

    /** write_file, once there is a struct File. */
    method FillNew(f: nat, size: nat, data: seq<seq<nat>>)
      requires Valid() && f in files && f !in used && BlocksFor(size) == |data| && nextbno + |data| + 1 <= NBLOCK
      requires forall i :: 0 <= i < |data| ==> |data[i]| == NINDIRECT
      modifies this`nextbno, this`free, this`files, this`owner, this`content, this`used
      ensures Valid() && nextbno <= old(nextbno) + |data| + 1 && StillHolds(old(Now()), Now())
      ensures files.Keys == old(files).Keys && used == old(used) + {f} && Serves(Now(), Written(f, size, data))
      ensures forall h :: h in old(files) && h != f ==> files[h] == old(files)[h]
    {
      ghost var d := Now();
      used := used + {f};
      files := files[f := files[f].(size := size)];
      ghost var r := Now();
      ResizedKeeps(d, f, size);
      assert r == Resized(d, f, size);
      FillFile(f, data);
      OthersKept(d, r, Now(), f, dirs, used - {f});
    }

    ghost function Whole(): Image
      reads this
    {
      Image(Now(), used, dirs)
    }

    /** write_directory's new directory. */
    method MakeDirectory(g: nat) returns (f: nat)
      requires Valid() && g in dirs && nextbno + 2 <= NBLOCK
      modifies this
      ensures Valid() && Extends(old(Whole()), Whole()) && nextbno <= old(nextbno) + 2
      ensures f in dirs && f !in old(used) && used == old(used) + {f} && files[f].size == 0
    {
      f := CreateFile(g);
      NewIsDirectory(Now(), f);
      UnusedIsTight(Now(), f);
      used, dirs := used + {f}, dirs + {f};
    }

    /** write_file and write_directory on one host file or directory, and `written`: the
        struct Files of the regular files. */
    method WriteHost(g: nat, h: Host) returns (written: seq<Written>)
      requires Valid() && g in dirs && HostOk(h) && nextbno + Space(h) <= NBLOCK
      modifies this
      ensures Valid() && Extends(old(Whole()), Whole()) && nextbno <= old(nextbno) + Space(h)
      ensures AreWritten(Whole(), old(used), written, Leaves(h))
      decreases h, 1
    {
      ghost var before := Whole();
      match h
      case HostFile(size, data) =>
        var f := WriteFile(g, size, data);
        written := [Written(f, size, data)];
        assert Reads(Whole(), written[0]);
      case HostDir(entries) =>
        var f := MakeDirectory(g);
        ghost var made := Whole();
        written := WriteAll(f, h, 0);
        ExtendsTwice(before, made, Whole());
        WrittenSince(Whole(), before.used, made.used, written, Leaves(h));
    }

    /** write_directory's loop from its k-th entry on. */
    method WriteAll(g: nat, h: Host, k: nat) returns (written: seq<Written>)
      requires h.HostDir? && k <= |h.entries| && Valid() && g in dirs && HostOk(h)
      requires nextbno + SpaceFrom(h, k) <= NBLOCK
      modifies this
      ensures Valid() && Extends(old(Whole()), Whole()) && nextbno <= old(nextbno) + SpaceFrom(h, k)
      ensures AreWritten(Whole(), old(used), written, LeavesFrom(h, k))
      decreases h, 0, |h.entries| - k
    {
      ghost var before := Whole();
      if k == |h.entries| {
        return [];
      }
      written := WriteHost(g, h.entries[k]);
      ghost var middle := Whole();
      var more := WriteAll(g, h, k + 1);
      ExtendsTwice(before, middle, Whole());
      WrittenBoth(before, middle, Whole(), written, more, Leaves(h.entries[k]), LeavesFrom(h, k + 1));
      written := written + more;
    }

    /** flush_bitmap: exactly the blocks before nextbno are marked used. */
    method FlushBitmap()
      requires 3 <= nextbno <= NBLOCK && bitmap.Length == BITMAP_WORDS
      requires forall b: nat {:trigger Bit(bitmap[..], b)} :: b < BITMAP_WORDS * WORD_BITS ==>
        (Bit(bitmap[..], b) <==> b < NBLOCK)
      modifies bitmap
      ensures forall b: nat {:trigger Bit(bitmap[..], b)} :: b < BITMAP_WORDS * WORD_BITS ==>
        (Bit(bitmap[..], b) <==> nextbno <= b < NBLOCK)
    {
      for i := 0 to nextbno
        invariant forall b: nat {:trigger Bit(bitmap[..], b)} :: b < BITMAP_WORDS * WORD_BITS ==>
          (Bit(bitmap[..], b) <==> i <= b < NBLOCK)
      {
        ghost var words := bitmap[..];
        bitmap[i / WORD_BITS] := ClearDigit(bitmap[i / WORD_BITS], i % WORD_BITS);
        assert bitmap[..] == Clear(words, i);
        forall b: nat | b < BITMAP_WORDS * WORD_BITS ensures Bit(bitmap[..], b) <==> i + 1 <= b < NBLOCK {
          BitAfter(words, i, b);
          assert Bit(words, b) <==> i <= b < NBLOCK;
        }
      }
    }
  }

  /** A block number kept past the direct slots is a word of the indirect block. */
  lemma ReadsIndirect(d: Disk, g: nat, i: nat)
    requires Owned(d) && g in d.files && NDIRECT <= i < NINDIRECT && Val(d, SlotOf(g, i)) != 0
    ensures d.files[g].indirect in d.content && Val(d, SlotOf(g, i)) == d.content[d.files[g].indirect][i]
  {
  }

  /** The server started on a formatted image: its invariant holds, no file, directory or
      not, has a block past its size, and walking finds what was linked. */
  method Mount(image: Formatter) returns (server: FileServer)
    requires image.Valid() && image.bitmap.Length == BITMAP_WORDS
    requires forall b: nat {:trigger Bit(image.bitmap[..], b)} :: b < BITMAP_WORDS * WORD_BITS ==>
      (Bit(image.bitmap[..], b) <==> image.nextbno <= b < NBLOCK)
    ensures server.Valid() && server.Now() == image.Now() && fresh(server) && server.bitmap == image.bitmap
    ensures forall f :: f in server.files ==> Tight(server.Now(), f)
  {
    server := new FileServer(NBLOCK, image.bitmap);
    server.files, server.content, server.cached := image.files, image.content, {};
    server.free, server.owner := image.free, image.owner;
    assert server.Now() == image.Now();
    forall f | f in image.files ensures Tight(image.Now(), f) {
      if f !in image.used { UnusedIsTight(image.Now(), f); }
    }
  }

  lemma UnusedIsTight(d: Disk, f: nat)
    requires Owned(d) && f in d.files && d.files[f] == NO_BLOCKS
    ensures Tight(d, f)
  {
    forall x | SlotOk(d, x) && Beyond(x, f, d.files[f].size) ensures Val(d, x) == 0 {
    }
  }

  /** The whole of fsformat, and the server started on the image: every regular file of the
      host is there, in a struct File of its own, with its size and contents, and can be
      truncated to any size; no file has a block past its size; no block has two owners. */
  method FormatAndMount(bitmap: array<nat>, root: Host) returns (server: FileServer, written: seq<Written>)
    requires bitmap.Length == BITMAP_WORDS && root.HostDir? && HostOk(root) && 3 + SpaceFrom(root, 0) <= NBLOCK
    modifies bitmap
    ensures server.Valid() && server.cached == {} && fresh(server) && server.bitmap == bitmap
    ensures forall f :: f in server.files ==> Tight(server.Now(), f)
    ensures |written| == |Leaves(root)| && forall i, j :: 0 <= i < j < |written| ==> written[i].f != written[j].f
    ensures forall i :: 0 <= i < |written| ==>
      Leaves(root)[i] == HostFile(written[i].size, written[i].data) && Serves(server.Now(), written[i])
    ensures forall i :: 0 <= i < |written| ==> Truncatable(server.Now(), written[i].f)
    ensures forall b: nat :: 3 + SpaceFrom(root, 0) <= b < NBLOCK ==> b in server.free
  {
    InitBitmap(bitmap);
    var image := new Formatter(bitmap);
    written := image.WriteAll(ROOT, root, 0);
    ghost var whole := image.Whole();
    image.FlushBitmap();
    server := Mount(image);
    LeavesAreOk(root);
    forall i | 0 <= i < |written|
      ensures Serves(server.Now(), written[i]) && Truncatable(server.Now(), written[i].f)
    {
      assert Reads(whole, written[i]) && HostOk(Leaves(root)[i]);
      CanTruncate(server.Now(), written[i]);
    }
  }

  /** Given memory for its indirect block, the server can truncate f to any size. */
  ghost predicate Truncatable(d: Disk, f: nat) {
    f in d.files && forall n: nat :: n <= BlocksFor(d.files[f].size) ==> !TruncatePanics(d, f, n, true)
  }

  lemma CanTruncate(d: Disk, w: Written)
    requires Serves(d, w) && BlocksFor(w.size) == |w.data|
    ensures Truncatable(d, w.f)
  {
    if |w.data| > NDIRECT { assert BlockHolds(d, w.f, NDIRECT, w.data[NDIRECT]); }
  }

  lemma {:induction false} LeavesAreOk(h: Host)
    requires HostOk(h)
    ensures forall i :: 0 <= i < |Leaves(h)| ==> HostOk(Leaves(h)[i]) && Leaves(h)[i].HostFile?
    decreases h, 1
  {
    if h.HostDir? { LeavesFromAreOk(h, 0); }
  }

  lemma {:induction false} LeavesFromAreOk(h: Host, k: nat)
    requires h.HostDir? && k <= |h.entries| && HostOk(h)
    ensures forall i :: 0 <= i < |LeavesFrom(h, k)| ==> HostOk(LeavesFrom(h, k)[i]) && LeavesFrom(h, k)[i].HostFile?
    decreases h, 0, |h.entries| - k
  {
    if k < |h.entries| {
      LeavesAreOk(h.entries[k]);
      LeavesFromAreOk(h, k + 1);
    }
  }

  lemma DirIsTight(d: Disk, g: nat)
    requires Owned(d) && g in d.files && DirOk(d, g)
    ensures Tight(d, g)
  {
    forall x | SlotOk(d, x) && Beyond(x, g, d.files[g].size) ensures Val(d, x) == 0 {
      assert x == SlotOf(g, x.i);
    }
  }
}
