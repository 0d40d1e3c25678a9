/** Loading a program segment (lib/elfloader.c), with the mappers of kern/env.c and
    user/lib/spawn.c: each call maps a new page, zero but for what is copied into it. */
module Elf {
  import opened Common

  /** What an address reads: an unmapped page is allocated on first use, and zero. */
  function Read(mem: map<nat, Page>, a: nat): Byte {
    if a / PAGE_SIZE in mem then mem[a / PAGE_SIZE][a % PAGE_SIZE] else 0
  }

  /** What the segment asks for at address a: the file's bytes, then zero. */
  function Want(va: nat, bin: seq<Byte>, a: nat): Byte {
    if va <= a < va + |bin| then bin[a - va] else 0
  }

  /** PT_LOAD: the file's bytes from va on, and zero from there to memsz. */
  ghost predicate Loaded(mem: map<nat, Page>, va: nat, bin: seq<Byte>, memsz: nat) {
    forall a :: va <= a < va + memsz ==> Read(mem, a) == Want(va, bin, a)
  }

  /** A page with `src` copied to `offset`. */
  function NewPage(offset: nat, src: seq<Byte>): (p: Page)
    requires offset + |src| <= PAGE_SIZE
    ensures forall k :: 0 <= k < PAGE_SIZE ==> p[k] == if offset <= k < offset + |src| then src[k - offset] else 0
  {
    seq(offset, _ => 0) + src + seq(PAGE_SIZE - offset - |src|, _ => 0)
  }

  function Min(a: nat, b: nat): nat { if a < b then a else b }

  /** Where the calls for the zero tail of a short segment stop. */
  function Reach(bin: seq<Byte>, memsz: nat): nat
    requires |bin| <= memsz
  {
    |bin| + (memsz - |bin| + PAGE_SIZE - 1) / PAGE_SIZE * PAGE_SIZE
  }

  /** When the loader is right: an aligned segment, one that reaches the end of its first
      page, one without a zero tail; in the other case its bytes are lost, which only goes
      unnoticed when they are all zero, and what lies on a page that no call reaches is zero
      already. */
  ghost predicate LoadsRight(mem: map<nat, Page>, va: nat, bin: seq<Byte>, memsz: nat)
    requires |bin| <= memsz
  {
    || va % PAGE_SIZE == 0
    || |bin| >= PAGE_SIZE - va % PAGE_SIZE
    || |bin| == memsz
    || ((forall i :: 0 <= i < |bin| ==> bin[i] == 0) && Blank(mem, va, memsz, (va + Reach(bin, memsz)) / PAGE_SIZE))
  }

  /** The segment reads zero from page number p on. */
  ghost predicate Blank(mem: map<nat, Page>, va: nat, memsz: nat, p: nat) {
    forall a {:trigger Read(mem, a)} :: va <= a < va + memsz && a / PAGE_SIZE >= p ==> Read(mem, a) == 0
  }

  /** Addresses va up to va + i read as they should. */
  ghost predicate Right(mem: map<nat, Page>, va: nat, bin: seq<Byte>, i: nat) {
    forall a {:trigger Read(mem, a)} :: va <= a < va + i ==> Read(mem, a) == Want(va, bin, a)
  }

  /** The pages from va's on up to the one before address va + i are zero. */
  ghost predicate Zero(mem: map<nat, Page>, va: nat, i: nat) {
    forall a {:trigger Read(mem, a)} :: va <= a && a / PAGE_SIZE < (va + i) / PAGE_SIZE ==> Read(mem, a) == 0
  }

  /** From page number p on nothing has changed. */
  ghost predicate SameFrom(before: map<nat, Page>, mem: map<nat, Page>, p: nat) {
    forall q :: p <= q ==> (q in mem <==> q in before) && (q in mem ==> mem[q] == before[q])
  }

  /** The file's bytes begin inside a page and do not reach its end. */
  predicate Short(va: nat, bin: seq<Byte>) {
    va % PAGE_SIZE != 0 && |bin| < PAGE_SIZE - va % PAGE_SIZE
  }

  lemma FirstPage(mem: map<nat, Page>, va: nat, bin: seq<Byte>)
    requires va % PAGE_SIZE != 0
    ensures var n := Min(|bin|, PAGE_SIZE - va % PAGE_SIZE);
      Right(mem[va / PAGE_SIZE := NewPage(va % PAGE_SIZE, bin[..n])], va, bin, PAGE_SIZE - va % PAGE_SIZE)
  {
    var offset := va % PAGE_SIZE;
    var t := mem[va / PAGE_SIZE := NewPage(offset, bin[..Min(|bin|, PAGE_SIZE - offset)])];
    forall a | va <= a < va + PAGE_SIZE - offset ensures Read(t, a) == Want(va, bin, a) {
      assert a / PAGE_SIZE == va / PAGE_SIZE && a % PAGE_SIZE == offset + (a - va);
    }
  }

  lemma NextPage(mem: map<nat, Page>, va: nat, bin: seq<Byte>, i: nat)
    requires Right(mem, va, bin, i) && (va + i) % PAGE_SIZE == 0
    ensures var src := if i < |bin| then bin[i..i + Min(|bin| - i, PAGE_SIZE)] else [];
      Right(mem[(va + i) / PAGE_SIZE := NewPage(0, src)], va, bin, i + PAGE_SIZE)
  {
    var src := if i < |bin| then bin[i..i + Min(|bin| - i, PAGE_SIZE)] else [];
    var t := mem[(va + i) / PAGE_SIZE := NewPage(0, src)];
    forall a | va <= a < va + i + PAGE_SIZE ensures Read(t, a) == Want(va, bin, a) {
      if a < va + i {
        assert a / PAGE_SIZE < (va + i) / PAGE_SIZE;
        assert Read(mem, a) == Want(va, bin, a);
      } else {
        assert a / PAGE_SIZE == (va + i) / PAGE_SIZE && a % PAGE_SIZE == a - (va + i);
      }
    }
  }

  lemma ZeroPage(mem: map<nat, Page>, va: nat, i: nat)
    requires Zero(mem, va, i)
    ensures Zero(mem[(va + i) / PAGE_SIZE := NewPage(0, [])], va, i + PAGE_SIZE)
  {
    var t := mem[(va + i) / PAGE_SIZE := NewPage(0, [])];
    forall a | va <= a && a / PAGE_SIZE < (va + i + PAGE_SIZE) / PAGE_SIZE ensures Read(t, a) == 0 {
      if a / PAGE_SIZE < (va + i) / PAGE_SIZE { assert Read(mem, a) == 0; }
    }
  }

  /** What is left for the zero tail: all right so far, or, for a short segment, the page
      with the file's bytes about to be mapped over. */
  ghost predicate TailBegun(before: map<nat, Page>, mem: map<nat, Page>, va: nat, bin: seq<Byte>, i: nat) {
    if Short(va, bin) && i == |bin| then Right(mem, va, bin, i) && SameFrom(before, mem, va / PAGE_SIZE + 1)
    else
      && SameFrom(before, mem, (va + i) / PAGE_SIZE)
      && if Short(va, bin) then i > |bin| && (i - |bin|) % PAGE_SIZE == 0 && Zero(mem, va, i)
         else Right(mem, va, bin, i) && (va + i) % PAGE_SIZE == 0
  }

  lemma FirstBegun(mem: map<nat, Page>, va: nat, bin: seq<Byte>)
    requires va % PAGE_SIZE != 0
    ensures var n := Min(|bin|, PAGE_SIZE - va % PAGE_SIZE);
      TailBegun(mem, mem[va / PAGE_SIZE := NewPage(va % PAGE_SIZE, bin[..n])], va, bin, n)
  {
    FirstPage(mem, va, bin);
  }

  lemma NextBegun(before: map<nat, Page>, mem: map<nat, Page>, va: nat, bin: seq<Byte>, i: nat)
    requires TailBegun(before, mem, va, bin, i) && i < |bin|
    ensures var src := bin[i..i + Min(|bin| - i, PAGE_SIZE)];
      TailBegun(before, mem[(va + i) / PAGE_SIZE := NewPage(0, src)], va, bin, i + PAGE_SIZE)
  {
    NextPage(mem, va, bin, i);
  }

  lemma TailStep(before: map<nat, Page>, mem: map<nat, Page>, va: nat, bin: seq<Byte>, i: nat)
    requires TailBegun(before, mem, va, bin, i) && i >= |bin|
    ensures TailBegun(before, mem[(va + i) / PAGE_SIZE := NewPage(0, [])], va, bin, i + PAGE_SIZE)
  {
    if !Short(va, bin) {
      NextPage(mem, va, bin, i);
    } else {
      if i == |bin| { assert (va + i) / PAGE_SIZE == va / PAGE_SIZE; }
      ZeroPage(mem, va, i);
      assert (i + PAGE_SIZE - |bin|) % PAGE_SIZE == 0;
    }
    assert (va + i + PAGE_SIZE) / PAGE_SIZE == (va + i) / PAGE_SIZE + 1;
  }

  /** A short segment whose zero tail has been mapped reads zero, but for the pages that no
      call has reached. */
  lemma ShortDone(before: map<nat, Page>, mem: map<nat, Page>, va: nat, bin: seq<Byte>, memsz: nat, i: nat)
    requires TailBegun(before, mem, va, bin, i) && Short(va, bin) && |bin| < memsz <= i == Reach(bin, memsz)
    ensures Loaded(mem, va, bin, memsz) <==> LoadsRight(before, va, bin, memsz)
  {
    var p := (va + i) / PAGE_SIZE;
    forall a | va <= a < va + memsz ensures Read(mem, a) == if a / PAGE_SIZE < p then 0 else Read(before, a) {}
    forall a | va <= a < va + |bin| ensures a / PAGE_SIZE < p {}
    if Loaded(mem, va, bin, memsz) {
      forall k | 0 <= k < |bin| ensures bin[k] == 0 { assert Read(mem, va + k) == Want(va, bin, va + k); }
      forall a | va <= a < va + memsz && a / PAGE_SIZE >= p ensures Read(before, a) == 0 {
        assert Read(mem, a) == Want(va, bin, a);
      }
    }
  }

  lemma TailDone(before: map<nat, Page>, mem: map<nat, Page>, va: nat, bin: seq<Byte>, memsz: nat, i: nat)
    requires TailBegun(before, mem, va, bin, i) && |bin| <= memsz <= i
    requires Short(va, bin) && i > |bin| ==> |bin| < memsz && i < memsz + PAGE_SIZE
    ensures Loaded(mem, va, bin, memsz) <==> LoadsRight(before, va, bin, memsz)
  {
    if Short(va, bin) && i > |bin| {
      assert i == Reach(bin, memsz);
      ShortDone(before, mem, va, bin, memsz, i);
    } else {
      assert Right(mem, va, bin, i);
      forall a | va <= a < va + memsz ensures Read(mem, a) == Want(va, bin, a) {}
    }
  }

  class AddressSpace {
    var mem: map<nat, Page>

    /** load_icode_mapper; without a free frame nothing is mapped. */
    method MapPage(va: nat, offset: nat, src: seq<Byte>, frame: bool) returns (ok: bool)
      requires offset + |src| <= PAGE_SIZE
      modifies this
      ensures ok == frame && mem == if ok then old(mem)[va / PAGE_SIZE := NewPage(offset, src)] else old(mem)
    {
      if !frame {
        return false;
      }
      mem := mem[va / PAGE_SIZE := NewPage(offset, src)];
      ok := true;
    }

    /** elf_load_seg's call for a first page that does not begin at a page boundary. */
    method LoadFirst(va: nat, bin: seq<Byte>, ghost memsz: nat, frames: nat -> bool)
      returns (ok: bool, i: nat, calls: nat)
      requires |bin| <= memsz
      modifies this
      ensures ok ==> TailBegun(old(mem), mem, va, bin, i) && (Short(va, bin) ==> i == |bin|)
      ensures OnlyWithin(old(mem), mem, va, memsz) && Counted(va, bin, memsz, i, calls, ok, frames)
    {
      var offset := va - va / PAGE_SIZE * PAGE_SIZE;
      ok, calls, i := true, 0, 0;
      if offset != 0 {
        FirstBegun(mem, va, bin);
        ok := MapPage(va, offset, bin[..Min(|bin|, PAGE_SIZE - offset)], frames(calls));
        calls := calls + 1;
        i := Min(|bin|, PAGE_SIZE - offset);
      }
    }

    /** Step 1 of elf_load_seg: the file's bytes. */
    method LoadFile(va: nat, bin: seq<Byte>, ghost memsz: nat, frames: nat -> bool)
      returns (ok: bool, i: nat, calls: nat)
      requires |bin| <= memsz
      modifies this
      ensures ok ==> i >= |bin| && TailBegun(old(mem), mem, va, bin, i) && (Short(va, bin) ==> i == |bin|)
      ensures OnlyWithin(old(mem), mem, va, memsz) && Counted(va, bin, memsz, i, calls, ok, frames)
    {
      ok, i, calls := LoadFirst(va, bin, memsz, frames);
      while ok && i < |bin|
        invariant ok ==> TailBegun(old(mem), mem, va, bin, i) && (Short(va, bin) ==> i == |bin|)
        invariant OnlyWithin(old(mem), mem, va, memsz) && Counted(va, bin, memsz, i, calls, ok, frames)
        decreases ok, |bin| - i
      {
        NextBegun(old(mem), mem, va, bin, i);
        OneMoreCall(va, bin, memsz, i, calls, frames);
        ok := MapPage(va + i, 0, bin[i..i + Min(|bin| - i, PAGE_SIZE)], frames(calls));
        calls := calls + 1;
        i := i + PAGE_SIZE;
      }
    }

    /** elf_load_seg, whatever is mapped before; `frames` says which of the mapper's calls find
        a free frame.  It succeeds if and only if all the calls it needs do; then the segment
        is loaded if and only if LoadsRight, and no page outside it has changed. */
    method LoadSeg(va: nat, bin: seq<Byte>, memsz: nat, frames: nat -> bool) returns (ok: bool)
      requires |bin| <= memsz
      modifies this
      ensures ok <==> forall k: nat :: k < Calls(va, bin, memsz) ==> frames(k)
      ensures ok ==> (Loaded(mem, va, bin, memsz) <==> LoadsRight(old(mem), va, bin, memsz))
      ensures OnlyWithin(old(mem), mem, va, memsz)
    {
      var i, calls;
      ok, i, calls := LoadFile(va, bin, memsz, frames);
      if !ok {
        return;
      }
      while i < memsz
        invariant TailBegun(old(mem), mem, va, bin, i) && i >= |bin|
        invariant Short(va, bin) && i > |bin| ==> |bin| < memsz && i < memsz + PAGE_SIZE
        invariant OnlyWithin(old(mem), mem, va, memsz) && Counted(va, bin, memsz, i, calls, true, frames)
        decreases memsz - i
      {
        TailStep(old(mem), mem, va, bin, i);
        OneMoreCall(va, bin, memsz, i, calls, frames);
        ok := MapPage(va + i, 0, [], frames(calls));
        calls := calls + 1;
        if !ok {
          return;
        }
        i := i + PAGE_SIZE;
      }
      TailDone(old(mem), mem, va, bin, memsz, i);
      AllCalls(va, bin, memsz, i, calls, frames);
      ok := true;
    }
  }

  /** Bytes covered by the first call, if there is one for a first page. */
  function FirstBytes(va: nat, bin: seq<Byte>): nat {
    if va % PAGE_SIZE == 0 then 0 else Min(|bin|, PAGE_SIZE - va % PAGE_SIZE)
  }

  /** How often the mapper is called. */
  function Calls(va: nat, bin: seq<Byte>, memsz: nat): nat
    requires |bin| <= memsz
  {
    (if va % PAGE_SIZE == 0 then 0 else 1) + (memsz - FirstBytes(va, bin) + PAGE_SIZE - 1) / PAGE_SIZE
  }

  /** One call for each page of the segment, unless it is short: then one for its first page and
      then enough for the zero tail, counted from its last byte. */
  lemma CallsArePages(va: nat, bin: seq<Byte>, memsz: nat)
    requires |bin| <= memsz
    ensures !Short(va, bin) ==> Calls(va, bin, memsz) == (va + memsz + PAGE_SIZE - 1) / PAGE_SIZE - va / PAGE_SIZE
    ensures Short(va, bin) ==> Calls(va, bin, memsz) == 1 + (memsz - |bin| + PAGE_SIZE - 1) / PAGE_SIZE
  {
  }

  /** Position i after so many calls, which succeeded but for the last one if !ok. */
  ghost predicate Counted(va: nat, bin: seq<Byte>, memsz: nat, i: nat, calls: nat, ok: bool, frames: nat -> bool)
    requires |bin| <= memsz
  {
    if ok then Reached(va, bin, i, calls) && forall k: nat :: k < calls ==> frames(k)
    else 0 < calls <= Calls(va, bin, memsz) && !frames(calls - 1)
  }

  predicate Reached(va: nat, bin: seq<Byte>, i: nat, calls: nat) {
    var first := if va % PAGE_SIZE == 0 then 0 else 1;
    calls >= first && i == FirstBytes(va, bin) + (calls - first) * PAGE_SIZE
  }

  lemma OneMoreCall(va: nat, bin: seq<Byte>, memsz: nat, i: nat, calls: nat, frames: nat -> bool)
    requires |bin| <= memsz && i < memsz && Counted(va, bin, memsz, i, calls, true, frames)
    ensures Counted(va, bin, memsz, i + PAGE_SIZE, calls + 1, frames(calls), frames)
  {
  }

  lemma AllCalls(va: nat, bin: seq<Byte>, memsz: nat, i: nat, calls: nat, frames: nat -> bool)
    requires |bin| <= memsz <= i && Counted(va, bin, memsz, i, calls, true, frames)
    ensures calls >= Calls(va, bin, memsz)
  {
  }

  /** Only pages of the segment differ. */
  ghost predicate OnlyWithin(before: map<nat, Page>, after: map<nat, Page>, va: nat, memsz: nat) {
    forall p :: p < va / PAGE_SIZE || (p > va / PAGE_SIZE && p * PAGE_SIZE >= va + memsz) ==>
      (p in after <==> p in before) && (p in after ==> after[p] == before[p])
  }
}
