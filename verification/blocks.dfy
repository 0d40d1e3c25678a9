/** The block allocator, the block slots of a file, and truncation (fs/fs.c). */
module Blocks {
  import opened Common
  import opened Bitmap
  import opened Disk

  /** The value, or the source's error code. */
  datatype Result<T> = Ok(value: T) | NotFound | NoDisk | NoMem | Inval

  ghost predicate IsNext(d: Disk, b: nat) {
    b in d.free && forall c :: c in d.free ==> b <= c
  }

  /** The next block to be allocated is not cached with block numbers in it. */
  ghost predicate CleanNext(d: Disk) {
    forall b :: IsNext(d, b) && b in d.cached ==> NoSlots(d.content, b)
  }

  /** An indirect block has to be made, and the next block to be taken is stale. */
  ghost predicate Breaks(d: Disk, f: nat, filebno: nat, alloc: bool) {
    alloc && NDIRECT <= filebno < NINDIRECT && f in d.files && d.files[f].indirect == 0 && !CleanNext(d)
  }

  lemma NoOwnerOfZero(d: Disk)
    requires Owned(d)
    ensures 0 !in d.owner && d.owner - {0} == d.owner
  {
    assert 0 in d.owner ==> BlockOwned(d, 0);
  }

  class FileServer {
    const nblocks: nat
    const bitmap: array<nat>
    var files: map<nat, Inode>
    var content: map<nat, seq<nat>>
    var cached: set<nat>
    ghost var free: set<nat>
    ghost var owner: map<nat, Slot>

    constructor (nblocks: nat, bitmap: array<nat>)
      ensures this.nblocks == nblocks && this.bitmap == bitmap
    {
      this.nblocks, this.bitmap := nblocks, bitmap;
    }

    ghost function Now(): Disk
      reads this
    {
      Disk(nblocks, free, files, content, cached, owner)
    }

    /** The bits of the bitmap are the free blocks. */
    ghost predicate BitsOk()
      reads this, bitmap
    {
      && nblocks <= bitmap.Length * WORD_BITS
      && forall b: nat {:trigger Bit(bitmap[..], b)} :: b < nblocks ==> (Bit(bitmap[..], b) <==> b in free)
    }

    ghost predicate Valid()
      reads this, bitmap
    {
      BitsOk() && Owned(Now())
    }

    /** What the allocator relies on, ownership or not. */
    ghost predicate Usable()
      reads this, bitmap
    {
      BitsOk() && Shaped(Now()) && forall b :: b in free ==> 3 <= b < nblocks
    }

    /** A slot that can be read and stored to. */
    ghost predicate HasSlot(ptr: Slot)
      reads this
    {
      SlotOk(Now(), ptr) && !ptr.Indirect? &&
        (ptr.Via? ==> files[ptr.f].indirect != 0 && files[ptr.f].indirect in content)
    }

    method FreeBlock(b: nat)
      requires BitsOk()
      modifies bitmap, this`free
      ensures BitsOk() && free == if b == 0 || b >= nblocks then old(free) else old(free) + {b}
    {
      if b == 0 || b >= nblocks {
        return;
      }
      ghost var words := bitmap[..];
      bitmap[b / WORD_BITS] := SetDigit(bitmap[b / WORD_BITS], b % WORD_BITS);
      free := free + {b};
      assert bitmap[..] == Set(words, b);
      forall c: nat | c < nblocks ensures Bit(bitmap[..], c) <==> c in free {
        BitAfter(words, b, c);
        assert Bit(words, c) <==> c in old(free);
      }
    }

    /** The lowest free block from 3 on is taken, or there is none. */
    method AllocBlockNum() returns (r: Result<nat>)
      requires BitsOk()
      modifies bitmap, this`free
      ensures BitsOk()
      ensures r == NoDisk ==> free == old(free) && forall b :: 3 <= b < nblocks ==> b !in free
      ensures r.Ok? ==> 3 <= r.value < nblocks && r.value in old(free) && free == old(free) - {r.value}
      ensures r.Ok? ==> forall b :: 3 <= b < r.value ==> b !in old(free)
      ensures r.Ok? || r == NoDisk
    {
      var blockno := 3;
      while blockno < nblocks
        invariant 3 <= blockno
        invariant BitsOk() && free == old(free) && forall b :: 3 <= b < blockno && b < nblocks ==> b !in free
        decreases nblocks - blockno
      {
        ghost var words := bitmap[..];
        assert Bit(words, blockno) <==> blockno in free;
        if Digit(bitmap[blockno / WORD_BITS], blockno % WORD_BITS) {
          bitmap[blockno / WORD_BITS] := ClearDigit(bitmap[blockno / WORD_BITS], blockno % WORD_BITS);
          free := free - {blockno};
          assert bitmap[..] == Clear(words, blockno);
          forall c: nat | c < nblocks ensures Bit(bitmap[..], c) <==> c in free {
            BitAfter(words, blockno, c);
            assert Bit(words, c) <==> c in old(free);
          }
          return Ok(blockno);
        }
        blockno := blockno + 1;
      }
      r := NoDisk;
    }

    /** A free block, with a page to cache it; a fresh page is zero, an old one is not
        cleared.  Without memory the block is free again. */
    method AllocBlock(memory: bool) returns (r: Result<nat>)
      requires BitsOk() && (forall b :: b in free ==> 3 <= b < nblocks)
      modifies bitmap, this`free, this`content, this`cached
      ensures BitsOk()
      ensures !r.Ok? ==> free == old(free) && content == old(content) && cached == old(cached)
      ensures r == NoDisk <==> old(free) == {}
      ensures r.Ok? ==> IsNext(old(Now()), r.value) && free == old(free) - {r.value}
      ensures r.Ok? ==> cached == old(cached) + {r.value}
      ensures r.Ok? ==> content == if r.value in old(cached) then old(content)
        else old(content)[r.value := seq(NINDIRECT, _ => 0)]
      ensures r == NoMem ==> forall b :: IsNext(old(Now()), b) ==> b !in cached
      ensures r.Ok? || r == NoDisk || (r == NoMem && !memory)
    {
      r := AllocBlockNum();
      if r.Ok? {
        var bno := r.value;
        if bno !in cached {
          if !memory {
            FreeBlock(bno);
            assert free == old(free);
            return NoMem;
          }
          cached := cached + {bno};
          content := content[bno := seq(NINDIRECT, _ => 0)];
        } else {
          assert cached == cached + {bno};
        }
      }
    }

    /** read_block on a file's indirect block: its words come into the cache. */
    method ReadIndirect(f: nat, memory: bool) returns (r: Result<nat>)
      requires f in files && files[f].indirect != 0
      modifies this`cached
      ensures r == Ok(files[f].indirect) || (r == NoMem && !memory && files[f].indirect !in old(cached))
      ensures cached == if r.Ok? then old(cached) + {files[f].indirect} else old(cached)
      ensures r.Ok? && !memory ==> r.value in old(cached)
    {
      var b := files[f].indirect;
      if b in cached {
        assert cached == cached + {b};
      } else {
        if !memory {
          return NoMem;
        }
        cached := cached + {b};
      }
      r := Ok(b);
    }

    /** The part of file_block_walk that makes an indirect block. */
    method MakeIndirect(f: nat, memory: bool) returns (r: Result<nat>)
      requires Valid() && f in files && files[f].indirect == 0
      modifies bitmap, this`free, this`content, this`cached, this`files, this`owner
      ensures Usable()
      ensures r.Ok? ==> IsNext(old(Now()), r.value) && files.Keys == old(files).Keys
      ensures r.Ok? ==> files[f].indirect == r.value != 0
      ensures r.Ok? ==> Grabbed(old(Now()), Now(), f)
      ensures r.Ok? ==> if old(CleanNext(Now())) then Owned(Now()) && OnlySlots(old(Now()), Now(), {Indirect(f)})
        else !Ownable(Now())
      ensures !r.Ok? ==> Now() == old(Now()) && ((r == NoDisk && free == {}) || (r == NoMem && !memory))
      ensures !old(CleanNext(Now())) ==> r.Ok?
    {
      ghost var d := Now();
      assert SlotOk(d, Indirect(f));
      r := AllocBlock(memory);
      if r.Ok? {
        var bno := r.value;
        PagedKeeps(d, bno);
        StaleIndirectBlock(Paged(d, bno), f, bno);
        files := files[f := files[f].(indirect := bno)];
        owner := owner[bno := Indirect(f)];
        assert Now() == Attached(Paged(d, bno), Indirect(f), bno);
        if CleanNext(d) { Taken(d, Indirect(f), bno); }
      }
    }

    /** Where the number of block filebno of f is kept.  With `alloc` a missing indirect
        block is made; no other slot of any file changes.  Unless that block comes with old
        numbers in it, every block has one owner as before; if it does, no block owner can be
        assigned any more. */
    method FileBlockWalk(f: nat, filebno: nat, alloc: bool, memory: bool) returns (r: Result<Slot>)
      requires Valid() && f in files
      modifies bitmap, this`free, this`content, this`cached, this`files, this`owner
      ensures Usable()
      ensures if old(Breaks(Now(), f, filebno, alloc)) then !Ownable(Now()) && Grabbed(old(Now()), Now(), f) && r.Ok?
        else Owned(Now()) && OnlySlots(old(Now()), Now(), {Indirect(f)})
      ensures r == Inval <==> filebno >= NINDIRECT
      ensures r == NotFound <==> NDIRECT <= filebno < NINDIRECT && old(files)[f].indirect == 0 && !alloc
      ensures r.Ok? ==> r.value == SlotOf(f, filebno) && HasSlot(r.value)
      ensures filebno < NDIRECT || old(files)[f].indirect != 0 || !alloc ==>
        free == old(free) && files == old(files) && owner == old(owner)
      ensures free == old(free) || (files[f].indirect in old(free) && free == old(free) - {files[f].indirect})
      ensures r == NoMem ==> !memory
      ensures r == NoMem && !alloc ==> old(files)[f].indirect !in old(cached)
      ensures r == NoDisk ==> alloc && old(free) == {}
      ensures r.Ok? && !memory && filebno >= NDIRECT && !alloc ==> files[f].indirect in old(cached)
      ensures r.Ok? && filebno >= NDIRECT ==> files[f].indirect in cached
      ensures cached >= old(cached) && (filebno < NDIRECT ==> r.Ok?) && (!memory && !alloc ==> cached == old(cached))
      ensures filebno < NDIRECT || !alloc ==> content == old(content)
    {
      if filebno < NDIRECT {
        return Ok(Direct(f, filebno));
      } else if filebno >= NINDIRECT {
        return Inval;
      }
      if files[f].indirect == 0 {
        if !alloc {
          return NotFound;
        }
        var b := MakeIndirect(f, memory);
        match b {
          case Ok(_) =>
          case NoDisk => return NoDisk;
          case _ => return NoMem;
        }
      } else {
        IndirectIsReadable(Now(), f);
        CacheOnly(Now(), cached + {files[f].indirect});
      }
      var b := ReadIndirect(f, memory);
      if !b.Ok? {
        return NoMem;
      }
      r := Ok(Via(f, filebno));
    }

    /** Slot x gets block number b. */
    method StoreSlot(x: Slot, b: nat)
      requires Shaped(Now()) && SlotOk(Now(), x) && (x.Via? ==> files[x.f].indirect in content)
      modifies this`files, this`content
      ensures Now() == Poke(old(Now()), x, b)
    {
      match x
      case Direct(f, i) => files := files[f := files[f].(direct := files[f].direct[i := b])];
      case Indirect(f) => files := files[f := files[f].(indirect := b)];
      case Via(f, i) =>
        var words: seq<nat> := content[files[f].indirect][i := b];
        content := content[files[f].indirect := words];
    }

    /** What slot x holds. */
    method LoadSlot(x: Slot) returns (b: nat)
      requires Shaped(Now()) && SlotOk(Now(), x)
      requires x.Via? ==> files[x.f].indirect != 0 && files[x.f].indirect in content
      ensures b == Val(Now(), x)
    {
      match x
      case Direct(f, i) => b := files[f].direct[i];
      case Indirect(f) => b := files[f].indirect;
      case Via(f, i) => b := content[files[f].indirect][i];
    }

    /** A new block for the empty slot ptr. */
    method AllocInto(ptr: Slot, memory: bool) returns (r: Result<nat>)
      requires Usable() && HasSlot(ptr) && Val(Now(), ptr) == 0
      modifies bitmap, this`free, this`content, this`cached, this`files, this`owner
      ensures Usable() && files.Keys == old(files).Keys && files[ptr.f].indirect == old(files)[ptr.f].indirect
      ensures r.Ok? ==> Took(old(Now()), Now(), ptr, r.value)
      ensures !r.Ok? ==> Now() == old(Now())
      ensures r.Ok? || (r == NoDisk && old(free) == {}) || (r == NoMem && !memory)
    {
      ghost var d := Now();
      r := AllocBlock(memory);
      if r.Ok? {
        StoreSlot(ptr, r.value);
        owner := owner[r.value := ptr];
        assert Now() == Attached(Paged(d, r.value), ptr, r.value);
      }
    }

    /** The block of slot ptr; with `alloc` an empty slot gets a new one. */
    method MapSlot(ptr: Slot, alloc: bool, memory: bool) returns (r: Result<nat>)
      requires Usable() && HasSlot(ptr)
      modifies bitmap, this`free, this`content, this`cached, this`files, this`owner
      ensures Usable() && files.Keys == old(files).Keys && files[ptr.f].indirect == old(files)[ptr.f].indirect
      ensures old(Val(Now(), ptr)) != 0 ==> r == Ok(old(Val(Now(), ptr))) && Now() == old(Now())
      ensures old(Val(Now(), ptr)) == 0 && r.Ok? ==> Took(old(Now()), Now(), ptr, r.value)
      ensures r == NotFound <==> !alloc && old(Val(Now(), ptr)) == 0
      ensures !r.Ok? || !alloc ==> Now() == old(Now())
      ensures r.Ok? || r == NotFound || (r == NoDisk && alloc && free == {}) || (r == NoMem && !memory)
    {
      var b := LoadSlot(ptr);
      if b != 0 {
        return Ok(b);
      }
      if !alloc {
        return NotFound;
      }
      r := AllocInto(ptr, memory);
    }

    /** The disk block of block filebno of f; with `alloc` a missing one is made.  On success
        exactly the blocks now held by this slot and by the indirect pointer left the free
        list, and no other slot changed: unless an indirect block was made of a block with old
        numbers in it.  Then ownership is lost, and a number left there is handed out. */
    method FileMapBlock(f: nat, filebno: nat, alloc: bool, memory: bool) returns (r: Result<nat>)
      requires Valid() && f in files
      modifies bitmap, this`free, this`content, this`cached, this`files, this`owner
      ensures Usable()
      ensures if old(Breaks(Now(), f, filebno, alloc)) then !Ownable(Now()) && HandsOut(old(Now()), f, filebno, r)
        else Mapped(old(Now()), Now(), f, filebno, r)
      ensures r == Inval <==> filebno >= NINDIRECT
      ensures r == NotFound ==> filebno < NINDIRECT && !alloc && old(Val(Now(), SlotOf(f, filebno))) == 0
      ensures filebno < NINDIRECT && !alloc && old(Val(Now(), SlotOf(f, filebno))) == 0 && memory ==> r == NotFound
      ensures !alloc ==> free == old(free) && owner == old(owner)
      ensures r == NoDisk ==> alloc && free == {} && (filebno < NDIRECT ==> old(free) == {})
      ensures r == NoMem ==> !memory
    {
      ghost var d := Now();
      var w := FileBlockWalk(f, filebno, alloc, memory);
      match w
      case Ok(ptr) =>
        ghost var t := Now();
        r := MapSlot(ptr, alloc, memory);
        if Breaks(d, f, filebno, alloc) {
          StillBroken(d, t, Now(), f, filebno, r);
        } else {
          StillOwned(d, t, Now(), f, filebno, r);
        }
      case NotFound => return NotFound;
      case NoDisk => return NoDisk;
      case NoMem => return NoMem;
      case Inval => return Inval;
    }

    /** The block of the slot, if there is one, is freed, and the slot cleared. */
    method ClearSlot(ptr: Slot)
      requires Valid() && SlotOk(Now(), ptr) && (ptr.Via? ==> files[ptr.f].indirect != 0)
      requires ptr.Indirect? ==> forall i :: NDIRECT <= i < NINDIRECT ==> Val(Now(), Via(ptr.f, i)) == 0
      modifies bitmap, this`free, this`content, this`files, this`owner
      ensures Valid() && OnlySlots(old(Now()), Now(), {ptr}) && Val(Now(), ptr) == 0
      ensures owner == old(owner) - {old(Val(Now(), ptr))}
      ensures !ptr.Indirect? ==> forall g :: g in old(files) ==> files[g].indirect == old(files)[g].indirect
      ensures SameWords(old(content), content, old(files)[ptr.f].indirect)
    {
      if ptr.Via? { IndirectIsReadable(Now(), ptr.f); }
      var b := LoadSlot(ptr);
      ghost var d := Now();
      if b != 0 {
        assert SlotOwns(d, ptr) && BlockOwned(d, b);
        Given(d, ptr);
        FreeBlock(b);
        StoreSlot(ptr, 0);
        owner := owner - {b};
        assert Now() == Detached(d, ptr);
      } else {
        NoOwnerOfZero(d);
      }
    }

    /** The block of the slot, if there is one, is free again, and nothing else changes. */
    method FileClearBlock(f: nat, filebno: nat, memory: bool) returns (r: Result<()>)
      requires Valid() && f in files
      modifies bitmap, this`free, this`content, this`cached, this`files, this`owner
      ensures Valid() && OnlySlots(old(Now()), Now(), {SlotOf(f, filebno)})
      ensures forall g :: g in old(files) ==> files[g].indirect == old(files)[g].indirect
      ensures r == Inval <==> filebno >= NINDIRECT
      ensures r == NotFound <==> NDIRECT <= filebno < NINDIRECT && old(files)[f].indirect == 0
      ensures r == NoMem <==> NDIRECT <= filebno < NINDIRECT && old(files)[f].indirect !in old(cached) + {0} && !memory
      ensures r.Ok? ==>
        Val(Now(), SlotOf(f, filebno)) == 0 && owner == old(owner) - {old(Val(Now(), SlotOf(f, filebno)))}
      ensures r.Ok? ==> cached >= old(cached) && (filebno >= NDIRECT ==> files[f].indirect in cached)
      ensures !r.Ok? ==> owner == old(owner) && files == old(files)
      ensures !memory ==> cached == old(cached)
      ensures f in files && cached >= old(cached) && SameWords(old(content), content, files[f].indirect)
      ensures r.Ok? || r == Inval || r == NotFound || r == NoMem
    {
      var w := FileBlockWalk(f, filebno, false, memory);
      match w
      case Ok(ptr) =>
        ClearSlot(ptr);
        r := Ok(());
      case NotFound => return NotFound;
      case Inval => return Inval;
      case _ => return NoMem;
    }

    /** file_truncate's loop.  False: panic_on stops the server. */
    method ClearBlocks(f: nat, from: nat, to: nat, memory: bool) returns (ok: bool)
      requires Valid() && f in files && from <= to == BlocksFor(files[f].size)
      modifies bitmap, this`free, this`content, this`cached, this`files, this`owner
      ensures ok <==> !old(TruncatePanics(Now(), f, from, memory))
      ensures ok ==> Valid() && ClearedUpTo(old(Now()), Now(), f, from, to)
      ensures ok ==> cached >= old(cached) && SameWords(old(content), content, old(files)[f].indirect)
    {
      ghost var d := Now();
      ClearedNothing(d, f, from);
      var bno := from;
      while bno < to
        invariant from <= bno <= to && f in files && Valid() && ClearsOn(d, Now(), f, from, bno, memory)
      {
        ok := ClearOne(f, bno, memory, from, d);
        if !ok {
          return;
        }
        bno := bno + 1;
      }
      ok := true;
    }

    /** One round of it. */
    method ClearOne(f: nat, bno: nat, memory: bool, ghost from: nat, ghost d: Disk) returns (ok: bool)
      requires Owned(d) && f in d.files && f in files && from <= bno
      requires Valid() && ClearsOn(d, Now(), f, from, bno, memory)
      modifies bitmap, this`free, this`content, this`cached, this`files, this`owner
      ensures ok <==> !CannotClear(d, f, bno, memory)
      ensures ok ==> f in files && Valid() && ClearsOn(d, Now(), f, from, bno + 1, memory)
    {
      ghost var t := Now();
      var r := FileClearBlock(f, bno, memory);
      ok := r.Ok?;
      if ok { ClearedOneMore(d, t, Now(), f, from, bno, SlotOf(f, bno)); }
    }

    /** file_truncate, for a file with nothing mapped past its size.  On success the slots
        past the new size are empty, their blocks and no others are free, and every other
        slot is as it was. */
    method FileTruncate(f: nat, newsize: nat, memory: bool) returns (ok: bool)
      requires Valid() && f in files && Tight(Now(), f) && newsize <= files[f].size
      modifies bitmap, this`free, this`content, this`cached, this`files, this`owner
      ensures ok <==> !old(TruncatePanics(Now(), f, BlocksFor(newsize), memory))
      ensures ok ==> Valid() && Truncated(old(Now()), Now(), f, newsize)
      ensures ok ==> cached >= old(cached) && SameWords(old(content), content, old(files)[f].indirect)
    {
      ghost var d := Now();
      var oldBlocks, newBlocks := BlocksFor(files[f].size), BlocksFor(newsize);
      if newsize == 0 {
        newBlocks := 0;
      }
      ok := ClearBlocks(f, newBlocks, oldBlocks, memory);
      if !ok {
        return;
      }
      ghost var t := Now();
      if newBlocks <= NDIRECT {
        ViaSlotsAreEmpty(d, t, f, newBlocks);
        assert SlotOk(t, Indirect(f));
        ClearSlot(Indirect(f));
      }
      TruncatedBySteps(d, t, Now(), f, newsize);
      ghost var u := Now();
      files := files[f := files[f].(size := newsize)];
      assert Now() == Resized(u, f, newsize);
    }

    /** file_set_size: a file may grow without getting blocks. */
    method FileSetSize(f: nat, newsize: nat, memory: bool) returns (ok: bool)
      requires Valid() && f in files && Tight(Now(), f)
      modifies bitmap, this`free, this`content, this`cached, this`files, this`owner
      ensures ok <==> !(newsize < old(files)[f].size && old(TruncatePanics(Now(), f, BlocksFor(newsize), memory)))
      ensures ok ==> Valid() && f in files && Tight(Now(), f)
      ensures ok ==> if newsize < old(files)[f].size then Truncated(old(Now()), Now(), f, newsize)
        else Now() == Resized(old(Now()), f, newsize)
      ensures ok ==> cached >= old(cached) && SameWords(old(content), content, old(files)[f].indirect)
    {
      ghost var d := Now();
      if files[f].size > newsize {
        ok := FileTruncate(f, newsize, memory);
        if !ok {
          return;
        }
        TruncatedIsTight(d, Now(), f, newsize);
        assert files == files[f := files[f].(size := newsize)];
      } else {
        ResizedKeeps(d, f, newsize);
        LargerIsTight(d, f, newsize);
        ok := true;
      }
      files := files[f := files[f].(size := newsize)];
    }

    /** Data for block filebno of f, stored through its page in the cache. */
    method StoreData(f: nat, filebno: nat, words: seq<nat>)
      requires Valid() && f in files && filebno < NINDIRECT && |words| == NINDIRECT
      requires Val(Now(), SlotOf(f, filebno)) != 0 && Val(Now(), SlotOf(f, filebno)) in cached
      modifies this`content
      ensures Valid() && content == old(content)[old(Val(Now(), SlotOf(f, filebno))) := words]
      ensures OnlySlots(old(Now()), Now(), {})
    {
      DataKeeps(Now(), SlotOf(f, filebno), words);
      if filebno >= NDIRECT { IndirectIsReadable(Now(), f); }
      var b := LoadSlot(SlotOf(f, filebno));
      content := content[b := words];
    }
  }

  /** The words of every block but one are as they were. */
  predicate SameWords(before: map<nat, seq<nat>>, after: map<nat, seq<nat>>, b: nat) {
    forall c :: c in before && c != b ==> c in after && after[c] == before[c]
  }

  lemma TruncatedIsTight(d: Disk, t: Disk, f: nat, newsize: nat)
    requires Owned(d) && Owned(t) && f in d.files && Truncated(d, t, f, newsize)
    ensures Tight(t, f)
  {
    forall x | SlotOk(t, x) && Beyond(x, f, newsize) ensures Val(t, x) == 0 {
      assert SlotOk(d, x) && Past(x, f, newsize);
    }
  }

  lemma LargerIsTight(d: Disk, f: nat, newsize: nat)
    requires Owned(d) && f in d.files && Tight(d, f) && newsize >= d.files[f].size
    ensures Owned(Resized(d, f, newsize)) && Tight(Resized(d, f, newsize), f)
  {
    ResizedKeeps(d, f, newsize);
    var t := Resized(d, f, newsize);
    forall x | SlotOk(t, x) && Beyond(x, f, newsize) ensures Val(t, x) == 0 {
      assert SlotOk(d, x) && Beyond(x, f, d.files[f].size) && Val(d, x) == 0;
    }
  }

  /** Data blocks hold no block numbers: what is written there moves no slot. */
  lemma DataKeeps(d: Disk, x: Slot, words: seq<nat>)
    requires Owned(d) && SlotOk(d, x) && !x.Indirect? && Val(d, x) != 0 && |words| == NINDIRECT
    ensures var t := d.(content := d.content[Val(d, x) := words]);
      Owned(t) && OnlySlots(d, t, {})
  {
    var b := Val(d, x);
    var t := d.(content := d.content[b := words]);
    assert SlotOwns(d, x) && BlockOwned(d, b);
    forall y | SlotOk(d, y) ensures SlotOk(t, y) && Val(t, y) == Val(d, y) {
      if y.Via? { assert SlotOwns(d, Indirect(y.f)); }
    }
    forall y | SlotOk(t, y) ensures SlotOwns(t, y) { assert SlotOwns(d, y); }
    forall c | c in t.owner ensures BlockOwned(t, c) { assert BlockOwned(d, c); }
  }

  /** t is d with the lowest free block made file f's indirect block. */
  ghost predicate Grabbed(d: Disk, t: Disk, f: nat) {
    && f in t.files && f in d.files && IsNext(d, t.files[f].indirect)
    && Shaped(Paged(d, t.files[f].indirect)) && SlotOk(Paged(d, t.files[f].indirect), Indirect(f))
    && t == Attached(Paged(d, t.files[f].indirect), Indirect(f), t.files[f].indirect)
  }

  /** t is d with the lowest free block b in slot ptr. */
  ghost predicate Took(d: Disk, t: Disk, ptr: Slot, b: nat) {
    && IsNext(d, b) && Shaped(Paged(d, b)) && SlotOk(Paged(d, b), ptr)
    && (ptr.Via? ==> d.files[ptr.f].indirect in Paged(d, b).content)
    && t == Attached(Paged(d, b), ptr, b)
  }

  /** A number that stood in the new indirect block is taken for the file's block. */
  ghost predicate HandsOut(d: Disk, f: nat, filebno: nat, r: Result<nat>) {
    forall b {:trigger IsNext(d, b)} ::
      IsNext(d, b) && b in d.content && filebno < |d.content[b]| && d.content[b][filebno] != 0 ==>
      r == Ok(d.content[b][filebno])
  }

  /** u is d with the block in its slot: exactly the blocks now held by this slot and by the
      indirect pointer left the free list, and no other slot changed. */
  ghost predicate Mapped(d: Disk, u: Disk, f: nat, filebno: nat, r: Result<nat>)
    requires Owned(d)
  {
    && Owned(u) && OnlySlots(d, u, {Indirect(f), SlotOf(f, filebno)})
    && (r.Ok? ==>
          && filebno < NINDIRECT && f in d.files && f in u.files
          && r.value != 0 && Val(u, SlotOf(f, filebno)) == r.value
          && (Val(d, SlotOf(f, filebno)) != 0 ==> r.value == Val(d, SlotOf(f, filebno)))
          && u.free == d.free - {r.value} - {u.files[f].indirect}
          && (filebno < NDIRECT && Val(d, SlotOf(f, filebno)) == 0 ==>
                IsNext(d, r.value) && r.value in u.cached && u.files[f].indirect == d.files[f].indirect))
  }

  lemma StillOwned(d: Disk, t: Disk, u: Disk, f: nat, filebno: nat, r: Result<nat>)
    requires Owned(d) && Owned(t) && f in d.files && filebno < NINDIRECT && OnlySlots(d, t, {Indirect(f)})
    requires t.free == d.free || (t.files[f].indirect in d.free && t.free == d.free - {t.files[f].indirect})
    requires if filebno >= NDIRECT then t.files[f].indirect != 0 else t.files == d.files && t.free == d.free
    requires if Val(t, SlotOf(f, filebno)) != 0 then u == t && r == Ok(Val(t, SlotOf(f, filebno)))
      else if r.Ok? then Took(t, u, SlotOf(f, filebno), r.value) && u.files[f].indirect == t.files[f].indirect
      else u == t
    ensures Mapped(d, u, f, filebno, r)
  {
    var ptr := SlotOf(f, filebno);
    NotFree(t, Indirect(f));
    NotFree(t, ptr);
    if r.Ok? && Val(t, ptr) == 0 { Taken(t, ptr, r.value); }
  }

  lemma StillBroken(d: Disk, t: Disk, u: Disk, f: nat, filebno: nat, r: Result<nat>)
    requires Owned(d) && Breaks(d, f, filebno, true) && Grabbed(d, t, f) && !Ownable(t)
    requires Shaped(t) && SlotOk(t, Via(f, filebno))
    requires if Val(t, Via(f, filebno)) != 0 then u == t && r == Ok(Val(t, Via(f, filebno)))
      else if r.Ok? then Took(t, u, Via(f, filebno), r.value) else u == t
    ensures !Ownable(u) && HandsOut(d, f, filebno, r)
  {
    var b := t.files[f].indirect;
    assert b in d.cached && !NoSlots(d.content, b);
    CacheOnly(d, d.cached + {b});
    assert Paged(d, b) == d.(cached := d.cached + {b});
    if Val(t, Via(f, filebno)) == 0 && r.Ok? {
      StaleAndMore(Paged(d, b), f, b, filebno, r.value);
    }
  }

  /** Between two rounds of the loop. */
  ghost predicate ClearsOn(d: Disk, t: Disk, f: nat, from: nat, bno: nat, memory: bool)
    requires Owned(d) && Owned(t) && f in d.files && f in t.files
  {
    && ClearedUpTo(d, t, f, from, bno) && t.files[f].indirect == d.files[f].indirect
    && t.cached >= d.cached && (!memory ==> t.cached == d.cached) &&
      SameWords(d.content, t.content, d.files[f].indirect)
    && (bno > from ==> bno <= NINDIRECT)
    && (bno > from && bno > NDIRECT ==> d.files[f].indirect != 0 && (memory || d.files[f].indirect in d.cached))
  }

  /** When file_clear_block fails, with all of the cache that d has still there. */
  predicate CannotClear(d: Disk, f: nat, bno: nat, memory: bool)
    requires f in d.files
  {
    var ind := d.files[f].indirect;
    bno >= NINDIRECT || (bno >= NDIRECT && (ind == 0 || (!memory && ind !in d.cached)))
  }

  lemma ViaSlotsAreEmpty(d: Disk, t: Disk, f: nat, n: nat)
    requires Owned(d) && Owned(t) && f in d.files && Tight(d, f) && n <= NDIRECT && n <= BlocksFor(d.files[f].size)
    requires ClearedUpTo(d, t, f, n, BlocksFor(d.files[f].size))
    ensures f in t.files && forall i :: NDIRECT <= i < NINDIRECT ==> Val(t, Via(f, i)) == 0
  {
    forall i | NDIRECT <= i < NINDIRECT ensures Val(t, Via(f, i)) == 0 {
      assert SlotOk(d, Via(f, i));
      if i >= BlocksFor(d.files[f].size) { assert Val(d, Via(f, i)) == 0; }
    }
  }
}
