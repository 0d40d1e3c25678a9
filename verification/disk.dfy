/** Which file owns which disk block (fs/fs.c): direct slots, indirect pointers and the
    slots of indirect blocks, against the free blocks. */
module Disk {
  const NDIRECT := 10
  const NINDIRECT := 1024      // BLOCK_SIZE / 4
  const BLOCK_SIZE := 4096
  const BLOCK_SIZE_BIT := 32768

  datatype Inode = Inode(size: nat, direct: seq<nat>, indirect: nat)

  /** A place that holds a block number: f_direct[i], f_indirect, or word i of the
      indirect block. */
  datatype Slot = Direct(f: nat, i: nat) | Indirect(f: nat) | Via(f: nat, i: nat)

  /** `content`: the words of every block, cached or not; `owner`: the slot that holds a
      block's number. */
  datatype Disk = Disk(
    nblocks: nat,
    free: set<nat>,
    files: map<nat, Inode>,
    content: map<nat, seq<nat>>,
    cached: set<nat>,
    owner: map<nat, Slot>)

  /** Boot block, super block and bitmap blocks come first. */
  function SystemEnd(nblocks: nat): nat {
    2 + nblocks / BLOCK_SIZE_BIT + 1
  }

  ghost predicate Shaped(d: Disk) {
    && (forall f :: f in d.files ==> |d.files[f].direct| == NDIRECT)
    && (forall b :: b in d.content ==> |d.content[b]| == NINDIRECT)
    && (forall b: nat :: b in d.content <==> b < d.nblocks)
  }

  predicate SlotOk(d: Disk, x: Slot) {
    x.f in d.files && (x.Direct? ==> x.i < NDIRECT) && (x.Via? ==> NDIRECT <= x.i < NINDIRECT)
  }

  /** What the slot holds; 0 is no block. */
  ghost function Val(d: Disk, x: Slot): nat
    requires Shaped(d) && SlotOk(d, x)
  {
    var f := d.files[x.f];
    match x
    case Direct(_, i) => f.direct[i]
    case Indirect(_) => f.indirect
    case Via(_, i) => if f.indirect in d.content && f.indirect != 0 then d.content[f.indirect][i] else 0
  }

  /** Where the number of block filebno of file f is kept. */
  function SlotOf(f: nat, filebno: nat): Slot {
    if filebno < NDIRECT then Direct(f, filebno) else Via(f, filebno)
  }

  ghost predicate SlotOwns(d: Disk, x: Slot)
    requires Shaped(d) && SlotOk(d, x)
  {
    Val(d, x) != 0 ==> Val(d, x) in d.owner && d.owner[Val(d, x)] == x
  }

  ghost predicate BlockOwned(d: Disk, b: nat)
    requires Shaped(d) && b in d.owner
  {
    SystemEnd(d.nblocks) <= b < d.nblocks && SlotOk(d, d.owner[b]) && Val(d, d.owner[b]) == b
  }

  /** Nonzero slots are pairwise distinct and in range, and a block past the system blocks
      is free exactly when no slot holds it. */
  ghost predicate Owned(d: Disk) {
    && Shaped(d)
    && (forall x {:trigger SlotOwns(d, x)} :: SlotOk(d, x) ==> SlotOwns(d, x))
    && (forall b {:trigger BlockOwned(d, b)} :: b in d.owner ==> BlockOwned(d, b))
    && (forall b: nat :: b in d.free <==> SystemEnd(d.nblocks) <= b < d.nblocks && b !in d.owner)
  }

  lemma SlotsDistinct(d: Disk, x: Slot, y: Slot)
    requires Owned(d) && SlotOk(d, x) && SlotOk(d, y) && x != y && Val(d, x) != 0
    ensures Val(d, x) != Val(d, y) && SystemEnd(d.nblocks) <= Val(d, x) < d.nblocks && Val(d, x) !in d.free
  {
    assert SlotOwns(d, x) && SlotOwns(d, y) && BlockOwned(d, Val(d, x));
  }

  lemma NotFree(d: Disk, x: Slot)
    requires Owned(d) && SlotOk(d, x)
    ensures Val(d, x) !in d.free
  {
    assert SlotOwns(d, x);
    if Val(d, x) != 0 { assert BlockOwned(d, Val(d, x)); }
  }

  // ---- Storing into a slot ------------------------------------------------------------------

  /** `*ptr = b`. */
  ghost function Poke(d: Disk, x: Slot, b: nat): Disk
    requires Shaped(d) && SlotOk(d, x) && (x.Via? ==> d.files[x.f].indirect in d.content)
  {
    var f := d.files[x.f];
    match x
    case Direct(_, i) => d.(files := d.files[x.f := f.(direct := f.direct[i := b])])
    case Indirect(_) => d.(files := d.files[x.f := f.(indirect := b)])
    case Via(_, i) =>
      var words: seq<nat> := d.content[f.indirect][i := b];
      d.(content := d.content[f.indirect := words])
  }

  /** A block just allocated for a slot that was empty. */
  ghost function Attached(d: Disk, x: Slot, b: nat): Disk
    requires Shaped(d) && SlotOk(d, x) && (x.Via? ==> d.files[x.f].indirect in d.content)
  {
    Poke(d, x, b).(free := d.free - {b}, owner := d.owner[b := x])
  }

  /** A block freed and its slot cleared. */
  ghost function Detached(d: Disk, x: Slot): Disk
    requires Shaped(d) && SlotOk(d, x) && (x.Via? ==> d.files[x.f].indirect in d.content)
  {
    Poke(d, x, 0).(free := d.free + {Val(d, x)}, owner := d.owner - {Val(d, x)})
  }

  /** A block usable as a new indirect block: its slots are empty. */
  ghost predicate NoSlots(content: map<nat, seq<nat>>, b: nat) {
    b in content && |content[b]| == NINDIRECT && forall i :: NDIRECT <= i < NINDIRECT ==> content[b][i] == 0
  }

  lemma PokeVal(d: Disk, x: Slot, b: nat, y: Slot)
    requires Owned(d) && SlotOk(d, x) && SlotOk(d, y) &&
      (x.Via? ==> d.files[x.f].indirect in d.content && d.files[x.f].indirect != 0)
    ensures Shaped(Poke(d, x, b)) && SlotOk(Poke(d, x, b), y)
    ensures y == x ==> Val(Poke(d, x, b), y) == b
    ensures y != x && !(x.Indirect? && y.Via? && y.f == x.f) ==> Val(Poke(d, x, b), y) == Val(d, y)
  {
    if x.Via? && y.Via? && y.f != x.f && d.files[y.f].indirect != 0 {
      SlotsDistinct(d, Indirect(x.f), Indirect(y.f));
    }
  }

  /** Taking a free block into an empty slot keeps every block's one owner.  A block taken
      as indirect block must hold no block numbers itself, and that is exactly what is
      needed: see StaleIndirectBlock. */
  lemma AttachedKeeps(d: Disk, x: Slot, b: nat)
    requires Owned(d) && SlotOk(d, x) && b in d.free && Val(d, x) == 0
    requires x.Via? ==> d.files[x.f].indirect != 0
    requires x.Indirect? ==> NoSlots(d.content, b)
    ensures x.Via? ==> d.files[x.f].indirect in d.content
    ensures Owned(Attached(d, x, b)) && Val(Attached(d, x, b), x) == b
  {
    if x.Via? { assert SlotOwns(d, Indirect(x.f)) && BlockOwned(d, d.files[x.f].indirect); }
    var t := Attached(d, x, b);
    PokeVal(d, x, b, x);
    forall y | SlotOk(t, y) ensures SlotOwns(t, y) {
      assert SlotOk(d, y) && SlotOwns(d, y);
      PokeVal(d, x, b, y);
    }
    forall c | c in t.owner ensures BlockOwned(t, c) {
      if c != b {
        assert BlockOwned(d, c);
        PokeVal(d, x, b, d.owner[c]);
      }
    }
  }

  /** Giving a block back and clearing its slot does too; an indirect block only once it
      holds no block numbers any more. */
  lemma DetachedKeeps(d: Disk, x: Slot)
    requires Owned(d) && SlotOk(d, x) && Val(d, x) != 0
    requires x.Indirect? ==> forall i :: NDIRECT <= i < NINDIRECT ==> Val(d, Via(x.f, i)) == 0
    ensures x.Via? ==> d.files[x.f].indirect in d.content
    ensures Owned(Detached(d, x)) && Val(Detached(d, x), x) == 0
    ensures Detached(d, x).free == d.free + {Val(d, x)} && Val(d, x) !in d.free
  {
    var b, t := Val(d, x), Detached(d, x);
    assert SlotOwns(d, x) && BlockOwned(d, b);
    PokeVal(d, x, 0, x);
    forall y | SlotOk(t, y) ensures SlotOwns(t, y) {
      assert SlotOk(d, y) && SlotOwns(d, y);
      PokeVal(d, x, 0, y);
    }
    forall c | c in t.owner ensures BlockOwned(t, c) {
      assert BlockOwned(d, c);
      PokeVal(d, x, 0, d.owner[c]);
    }
  }

  /** Some assignment of blocks to slots makes every block the property of one slot. */
  ghost predicate Ownable(d: Disk) {
    exists owner :: Owned(d.(owner := owner))
  }

  lemma OneSlotPerBlock(d: Disk, x: Slot, y: Slot)
    requires Owned(d) && SlotOk(d, x) && SlotOk(d, y) && Val(d, x) == Val(d, y) != 0
    ensures x == y
  {
    assert SlotOwns(d, x) && SlotOwns(d, y);
  }

  /** What stood in slots of d still does in u, and every block taken has a slot other than x. */
  ghost predicate GoesOn(d: Disk, u: Disk, x: Slot) {
    && Shaped(d) && Shaped(u) && u.nblocks == d.nblocks && u.free <= d.free
    && (forall y {:trigger Val(d, y)} :: SlotOk(d, y) && Val(d, y) != 0 ==> SlotOk(u, y) && Val(u, y) == Val(d, y))
    && (forall c :: c in d.free && c !in u.free ==> exists y :: SlotOk(u, y) && y != x && Val(u, y) == c)
  }

  lemma AnotherHolder(d: Disk, u: Disk, x: Slot, owner: map<nat, Slot>) returns (y: Slot)
    requires Owned(d) && GoesOn(d, u, x) && Owned(u.(owner := owner))
    requires SlotOk(d, x) && SlotOk(u, x) && Val(d, x) == 0 && Val(u, x) != 0
    ensures SlotOk(u, y) && y != x && Val(u, y) == Val(u, x)
  {
    var t, v := u.(owner := owner), Val(u, x);
    assert Val(t, x) == v && SlotOwns(t, x) && BlockOwned(t, v);
    if v in d.free {
      y :| SlotOk(u, y) && y != x && Val(u, y) == v;
    } else {
      assert BlockOwned(d, v);
      y := d.owner[v];
    }
  }

  /** A slot that was empty holds a number, but no block was taken for it: then no assignment
      gives every block one owner any more. */
  lemma StrayNumber(d: Disk, u: Disk, x: Slot)
    requires Owned(d) && GoesOn(d, u, x)
    requires SlotOk(d, x) && SlotOk(u, x) && Val(d, x) == 0 && Val(u, x) != 0
    ensures !Ownable(u)
  {
    forall owner ensures !Owned(u.(owner := owner)) {
      var t := u.(owner := owner);
      if Owned(t) {
        var y := AnotherHolder(d, u, x, owner);
        assert Val(t, y) == Val(t, x);
        OneSlotPerBlock(t, x, y);
      }
    }
  }

  /** Why map_block would have to clear the page: an indirect block taken with anything in
      it, as happens when it is still cached from an earlier file, breaks the ownership. */
  lemma StaleIndirectBlock(d: Disk, f: nat, b: nat)
    requires Owned(d) && f in d.files && d.files[f].indirect == 0 && b in d.free
    ensures Shaped(Attached(d, Indirect(f), b))
    ensures if NoSlots(d.content, b) then Owned(Attached(d, Indirect(f), b)) else !Ownable(Attached(d, Indirect(f), b))
  {
    var t := Attached(d, Indirect(f), b);
    assert SlotOk(d, Indirect(f)) && Val(t, Indirect(f)) == b;
    if NoSlots(d.content, b) {
      AttachedKeeps(d, Indirect(f), b);
    } else {
      var i :| NDIRECT <= i < NINDIRECT && d.content[b][i] != 0;
      OldSlotsStay(d, f, b);
      StrayNumber(d, t, Via(f, i));
    }
  }

  lemma OldSlotsStay(d: Disk, f: nat, b: nat)
    requires Owned(d) && f in d.files && d.files[f].indirect == 0
    ensures Shaped(Attached(d, Indirect(f), b))
    ensures forall y {:trigger Val(d, y)} :: SlotOk(d, y) && Val(d, y) != 0 ==>
      SlotOk(Attached(d, Indirect(f), b), y) && Val(Attached(d, Indirect(f), b), y) == Val(d, y)
  {
    var t := Attached(d, Indirect(f), b);
    forall y | SlotOk(d, y) && Val(d, y) != 0 ensures SlotOk(t, y) && Val(t, y) == Val(d, y) {
      assert y.f == f ==> y.Direct?;
    }
  }

  /** And it stays broken when the same call goes on to take a block for an empty slot of it. */
  lemma StaleAndMore(d: Disk, f: nat, b: nat, j: nat, c: nat)
    requires Owned(d) && f in d.files && d.files[f].indirect == 0 && b in d.free && b in d.content &&
      !NoSlots(d.content, b)
    requires NDIRECT <= j < NINDIRECT && d.content[b][j] == 0 && c in d.free && c != b
    ensures var t := Attached(d, Indirect(f), b);
      && Shaped(t) && Shaped(Paged(t, c)) && b in Paged(t, c).content && SlotOk(Paged(t, c), Via(f, j))
      && !Ownable(Attached(Paged(t, c), Via(f, j), c))
  {
    var t := Attached(d, Indirect(f), b);
    var p := Paged(t, c);
    var u := Attached(p, Via(f, j), c);
    var i :| NDIRECT <= i < NINDIRECT && d.content[b][i] != 0;
    OldSlotsStay(d, f, b);
    forall y | SlotOk(d, y) && Val(d, y) != 0 ensures SlotOk(u, y) && Val(u, y) == Val(d, y) {
      if y.Via? { assert SlotOwns(d, Indirect(y.f)); }
    }
    assert Val(u, Indirect(f)) == b && Val(u, Via(f, j)) == c;
    StrayNumber(d, u, Via(f, i));
  }

  /** What a free block holds, and which blocks are cached, is nobody's business. */
  lemma FreeContent(d: Disk, b: nat, words: seq<nat>, cached: set<nat>)
    requires Owned(d) && b in d.free && |words| == NINDIRECT
    ensures Owned(d.(content := d.content[b := words], cached := cached))
    ensures forall x :: SlotOk(d, x) ==> Val(d.(content := d.content[b := words], cached := cached), x) == Val(d, x)
  {
    var t := d.(content := d.content[b := words], cached := cached);
    forall x | SlotOk(d, x) ensures SlotOk(t, x) && Val(t, x) == Val(d, x) {
      if x.Via? && d.files[x.f].indirect != 0 { assert SlotOwns(d, Indirect(x.f)); }
    }
    forall x | SlotOk(t, x) ensures SlotOwns(t, x) { assert SlotOwns(d, x); }
    forall c | c in t.owner ensures BlockOwned(t, c) { assert BlockOwned(d, c); }
  }

  lemma CacheOnly(d: Disk, cached: set<nat>)
    requires Owned(d)
    ensures Owned(d.(cached := cached)) && forall x :: SlotOk(d, x) ==> Val(d.(cached := cached), x) == Val(d, x)
  {
    var t := d.(cached := cached);
    forall x | SlotOk(d, x) ensures SlotOk(t, x) && Val(t, x) == Val(d, x) {}
    forall x | SlotOk(t, x) ensures SlotOwns(t, x) { assert SlotOwns(d, x); }
    forall c | c in t.owner ensures BlockOwned(t, c) { assert BlockOwned(d, c); }
  }

  lemma IndirectIsReadable(d: Disk, f: nat)
    requires Owned(d) && f in d.files && d.files[f].indirect != 0
    ensures d.files[f].indirect in d.content && d.files[f].indirect !in d.free && d.files[f].indirect < d.nblocks
  {
    assert SlotOwns(d, Indirect(f)) && BlockOwned(d, d.files[f].indirect);
  }

  /** Block b gets a page: zero if it had none. */
  ghost function Paged(d: Disk, b: nat): Disk {
    d.(content := if b in d.cached then d.content else d.content[b := seq(NINDIRECT, _ => 0)], cached := d.cached + {b})
  }

  lemma PagedKeeps(d: Disk, b: nat)
    requires Owned(d) && b in d.free
    ensures Owned(Paged(d, b)) && forall x :: SlotOk(d, x) ==> Val(Paged(d, b), x) == Val(d, x)
    ensures b !in d.cached ==> NoSlots(Paged(d, b).content, b)
  {
    if b in d.cached {
      CacheOnly(d, d.cached + {b});
    } else {
      FreeContent(d, b, seq(NINDIRECT, _ => 0), d.cached + {b});
    }
  }

  /** All slots but those of xs are as they were, and the sizes. */
  ghost predicate OnlySlots(d: Disk, t: Disk, xs: set<Slot>)
    requires Shaped(d) && Shaped(t)
  {
    && t.nblocks == d.nblocks && t.files.Keys == d.files.Keys
    && (forall f :: f in d.files ==> t.files[f].size == d.files[f].size)
    && (forall y {:trigger Val(t, y)} :: SlotOk(d, y) && y !in xs ==> Val(t, y) == Val(d, y))
  }

  /** A free block goes into the empty slot x, and nothing else changes. */
  lemma Placed(d: Disk, x: Slot, b: nat)
    requires Owned(d) && SlotOk(d, x) && b in d.free && Val(d, x) == 0
    requires x.Via? ==> d.files[x.f].indirect != 0
    requires x.Indirect? ==> NoSlots(d.content, b)
    ensures x.Via? ==> d.files[x.f].indirect in d.content
    ensures var t := Attached(d, x, b);
      Owned(t) && Val(t, x) == b && OnlySlots(d, t, {x}) && t.free == d.free - {b}
  {
    AttachedKeeps(d, x, b);
    forall y | SlotOk(d, y) && y != x ensures Val(Attached(d, x, b), y) == Val(d, y) {
      PokeVal(d, x, b, y);
      if x.Indirect? && y.Via? && y.f == x.f { assert d.content[b][y.i] == 0; }
    }
  }

  /** The same for a block that got its page just now. */
  lemma Taken(d: Disk, x: Slot, b: nat)
    requires Owned(d) && SlotOk(d, x) && b in d.free && Val(d, x) == 0
    requires x.Via? ==> d.files[x.f].indirect != 0
    requires x.Indirect? ==> (b in d.cached ==> NoSlots(d.content, b))
    ensures Owned(Paged(d, b)) && (x.Via? ==> d.files[x.f].indirect in Paged(d, b).content)
    ensures var t := Attached(Paged(d, b), x, b);
      Owned(t) && Val(t, x) == b && OnlySlots(d, t, {x}) && t.free == d.free - {b}
  {
    PagedKeeps(d, b);
    if x.Indirect? && b in d.cached { assert NoSlots(Paged(d, b).content, b); }
    Placed(Paged(d, b), x, b);
  }

  /** The block in slot x is given back, and nothing else changes. */
  lemma Given(d: Disk, x: Slot)
    requires Owned(d) && SlotOk(d, x) && Val(d, x) != 0
    requires x.Indirect? ==> forall i :: NDIRECT <= i < NINDIRECT ==> Val(d, Via(x.f, i)) == 0
    ensures x.Via? ==> d.files[x.f].indirect in d.content
    ensures var t := Detached(d, x);
      Owned(t) && Val(t, x) == 0 && OnlySlots(d, t, {x}) && t.free == d.free + {Val(d, x)} &&
        t.owner == d.owner - {Val(d, x)}
  {
    DetachedKeeps(d, x);
    forall y | SlotOk(d, y) && y != x ensures Val(Detached(d, x), y) == Val(d, y) {
      PokeVal(d, x, 0, y);
    }
  }

  // ---- Truncation -----------------------------------------------------------------------------

  /** `ROUND(size, BLOCK_SIZE) / BLOCK_SIZE`. */
  function BlocksFor(size: nat): (n: nat)
    ensures size <= n * BLOCK_SIZE < size + BLOCK_SIZE
  {
    (size + BLOCK_SIZE - 1) / BLOCK_SIZE
  }

  /** x is a data slot of file f from block number lo up to hi. */
  predicate DataSlot(x: Slot, f: nat, lo: nat, hi: nat) {
    x.f == f && !x.Indirect? && lo <= x.i < hi
  }

  /** x is a data slot of file f for bytes that a file of that size does not have. */
  predicate Beyond(x: Slot, f: nat, size: nat) {
    x.f == f && !x.Indirect? && x.i < NINDIRECT && x.i * BLOCK_SIZE >= size
  }

  /** The owners without those data slots. */
  ghost function Spared(owner: map<nat, Slot>, f: nat, lo: nat, hi: nat): map<nat, Slot> {
    map b | b in owner && !DataSlot(owner[b], f, lo, hi) :: owner[b]
  }

  /** No data slot of f past its size is in use. */
  ghost predicate Tight(d: Disk, f: nat)
    requires Shaped(d) && f in d.files
  {
    forall x {:trigger Val(d, x)} :: SlotOk(d, x) && Beyond(x, f, d.files[f].size) ==>
      Val(d, x) == 0
  }

  /** When truncating f to n blocks panics: a block to be cleared is out of range, or past
      the direct slots with no indirect block, or that cannot be read for want of memory. */
  predicate TruncatePanics(d: Disk, f: nat, n: nat, memory: bool)
    requires f in d.files
  {
    var size, ind := d.files[f].size, d.files[f].indirect;
    n * BLOCK_SIZE < size &&
      (size > NINDIRECT * BLOCK_SIZE || (size > NDIRECT * BLOCK_SIZE && (ind == 0 || (!memory && ind !in d.cached))))
  }

  /** d with the data slots of f from lo to hi cleared and their blocks free. */
  ghost predicate ClearedUpTo(d: Disk, t: Disk, f: nat, lo: nat, hi: nat)
    requires Shaped(d) && Shaped(t)
  {
    && t.nblocks == d.nblocks && t.files.Keys == d.files.Keys
    && (forall g :: g in d.files ==> t.files[g].size == d.files[g].size && t.files[g].indirect == d.files[g].indirect)
    && (forall x {:trigger Val(t, x)} :: SlotOk(d, x) ==> Val(t, x) == if DataSlot(x, f, lo, hi) then 0 else Val(d, x))
    && t.owner == Spared(d.owner, f, lo, hi)
  }

  lemma ClearedOneMore(d: Disk, t: Disk, u: Disk, f: nat, lo: nat, k: nat, x: Slot)
    requires Owned(d) && Owned(t) && Owned(u) && lo <= k && f in d.files
    requires ClearedUpTo(d, t, f, lo, k) && SlotOk(d, x) && x.f == f && !x.Indirect? && x.i == k
    requires OnlySlots(t, u, {x}) && Val(u, x) == 0 && u.owner == t.owner - {Val(t, x)}
    requires forall g :: g in d.files ==> u.files[g].indirect == t.files[g].indirect
    ensures ClearedUpTo(d, u, f, lo, k + 1)
  {
    forall y | SlotOk(d, y) ensures Val(u, y) == if DataSlot(y, f, lo, k + 1) then 0 else Val(d, y) {
      assert Val(t, y) == if DataSlot(y, f, lo, k) then 0 else Val(d, y);
    }
    forall b ensures b in u.owner <==> b in Spared(d.owner, f, lo, k + 1) {
      if b in d.owner { assert BlockOwned(d, b); }
      if b in t.owner { assert BlockOwned(t, b); }
      assert SlotOwns(t, x);
    }
  }

  lemma ClearedNothing(d: Disk, f: nat, lo: nat)
    requires Owned(d)
    ensures ClearedUpTo(d, d, f, lo, lo)
  {
    assert Spared(d.owner, f, lo, lo) == d.owner;
  }

  /** What truncating f takes away: the slots of the blocks that begin at the new size or past
      it, and the indirect pointer when the direct slots hold that size. */
  predicate Past(x: Slot, f: nat, newsize: nat) {
    x.f == f && if x.Indirect? then newsize <= NDIRECT * BLOCK_SIZE else x.i * BLOCK_SIZE >= newsize
  }

  /** t is d with exactly that taken away and free, and the new size. */
  ghost predicate Truncated(d: Disk, t: Disk, f: nat, newsize: nat)
    requires Shaped(d) && Shaped(t)
  {
    && t.files.Keys == d.files.Keys && f in t.files && t.files[f].size == newsize
    && (forall g :: g in d.files && g != f ==> t.files[g].size == d.files[g].size)
    && (forall x {:trigger Val(t, x)} :: SlotOk(d, x) ==>
          Val(t, x) == if Past(x, f, newsize) then 0 else Val(d, x))
    && (forall b :: b in t.free <==> b in d.free || (b in d.owner && Past(d.owner[b], f, newsize)))
  }

  ghost function Resized(d: Disk, f: nat, size: nat): Disk
    requires f in d.files
  {
    d.(files := d.files[f := d.files[f].(size := size)])
  }

  lemma ResizedKeeps(d: Disk, f: nat, size: nat)
    requires Owned(d) && f in d.files
    ensures Owned(Resized(d, f, size)) && forall x :: SlotOk(d, x) ==> Val(Resized(d, f, size), x) == Val(d, x)
  {
    var t := Resized(d, f, size);
    forall x | SlotOk(t, x) ensures SlotOk(d, x) && SlotOwns(t, x) { assert SlotOwns(d, x); }
    forall b | b in t.owner ensures BlockOwned(t, b) { assert BlockOwned(d, b); }
  }

  /** The data slots cleared, then for a small file the indirect pointer, then the size. */
  lemma TruncatedBySteps(d: Disk, t: Disk, u: Disk, f: nat, newsize: nat)
    requires Owned(d) && Owned(t) && Owned(u) && f in d.files && Tight(d, f) && newsize <= d.files[f].size
    requires ClearedUpTo(d, t, f, BlocksFor(newsize), BlocksFor(d.files[f].size))
    requires BlocksFor(newsize) <= NDIRECT ==>
      OnlySlots(t, u, {Indirect(f)}) && Val(u, Indirect(f)) == 0 && u.owner == t.owner - {Val(t, Indirect(f))}
    requires BlocksFor(newsize) > NDIRECT ==> u == t
    ensures f in u.files && Owned(Resized(u, f, newsize)) && Truncated(d, Resized(u, f, newsize), f, newsize)
  {
    var n, r := BlocksFor(newsize), Resized(u, f, newsize);
    ResizedKeeps(u, f, newsize);
    forall x | SlotOk(d, x) ensures Val(r, x) == if Past(x, f, newsize) then 0 else Val(d, x) {
      assert Val(t, x) == if DataSlot(x, f, n, BlocksFor(d.files[f].size)) then 0 else Val(d, x);
      assert Val(r, x) == Val(u, x);
      if !x.Indirect? && x.i < NINDIRECT && x.f == f && x.i >= BlocksFor(d.files[f].size) {
        assert Beyond(x, f, d.files[f].size);
      }
    }
    TruncatedFrees(d, r, f, newsize);
  }

  /** The blocks that no slot holds any more are the blocks that are free now. */
  lemma TruncatedFrees(d: Disk, r: Disk, f: nat, newsize: nat)
    requires Owned(d) && Owned(r) && r.nblocks == d.nblocks && r.files.Keys == d.files.Keys
    requires forall x {:trigger Val(r, x)} :: SlotOk(d, x) ==> Val(r, x) == if Past(x, f, newsize) then 0 else Val(d, x)
    ensures forall b :: b in r.free <==> b in d.free || (b in d.owner && Past(d.owner[b], f, newsize))
  {
    forall b ensures b in r.free <==> b in d.free || (b in d.owner && Past(d.owner[b], f, newsize)) {
      if b in d.owner {
        var x := d.owner[b];
        assert BlockOwned(d, b) && SlotOk(r, x) && SlotOwns(r, x);
        assert Val(r, x) == if Past(x, f, newsize) then 0 else b;
      }
      if b in r.owner {
        assert BlockOwned(r, b) && SlotOk(d, r.owner[b]) && SlotOwns(d, r.owner[b]);
      }
    }
  }
}
