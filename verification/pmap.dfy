/** The kernel's memory operations, updating physical memory, reference counts, the free
    list and the TLB in place (kern/pmap.c, kern/tlbex.c, kern/env.c, kern/syscall_all.c). */
module Pmap {
  import opened Mmu
  import opened Spaces
  import opened Vm
  import opened Machine

  /** Ok, an error code, or a failed kernel assertion. */
  datatype Outcome<T> = Done(value: T) | NoMem | NoFreeEnv | Inval | Panic

  class Kernel {
    var npage: nat
    var ref: seq<nat>
    var free: seq<nat>
    var mem: Frames1024
    var dirs: map<nat, nat>
    var vars: map<nat, nat>
    var asids: set<nat>
    var tlb: map<Pair, (Word, Word)>
    ghost var held: map<Holder, nat>
    ghost var role: map<nat, Role>
    ghost var m: map<Site, Word>

    ghost function Now(): View
      reads this
    {
      View(mem, dirs, vars, asids, Spaces(npage, ref, free, held, role, tlb, m))
    }

    ghost predicate Valid()
      reads this
    {
      Inv(Now())
    }

    /** page_init: the frames below `low` are in use for ever, the others are free. */
    constructor (npage: nat, low: nat)
      requires low <= npage
      ensures Valid() && Booted(Now(), low)
      ensures this.npage == npage && forall f :: f in free <==> low <= f < npage
    {
      this.npage, ref, free := npage, [], [];
      mem := seq(npage, _ => ZeroFrame());
      dirs, vars, tlb, asids := map[], map[], map[], {};
      held, role, m := map[], map[], map[];
      new;
      MarkUsed(low);
      ListFree(low);
      BootedIsOk(Now(), low);
    }

    /** Nothing is mapped, and the kernel holds the frames below low. */
    ghost predicate Booting(low: nat)
      reads this
    {
      && mem == seq(npage, _ => ZeroFrame()) && dirs == map[] && vars == map[] && tlb == map[] && asids == {} &&
        m == map[]
      && (forall h :: h in held <==> h.Pin? && h.f < low) && (forall h :: h in held ==> held[h] == h.f)
      && (forall f: nat :: f in role <==> f < low) && (forall f :: f in role ==> role[f] == Held(Pin(f)))
    }

    /** page_init's first loop. */
    method MarkUsed(low: nat)
      requires Booting(0) && low <= npage && ref == [] && free == []
      modifies this`ref, this`held, this`role
      ensures Booting(low) && |ref| == low && forall f :: 0 <= f < low ==> ref[f] == 1
    {
      for i := 0 to low
        invariant Booting(i) && |ref| == i && forall f :: 0 <= f < i ==> ref[f] == 1
      {
        ref := ref + [1];
        held, role := held[Pin(i) := i], role[i := Held(Pin(i))];
      }
    }

    /** Its second loop. */
    method ListFree(low: nat)
      requires Booting(low) && low <= npage && |ref| == low && free == [] && forall f :: 0 <= f < low ==> ref[f] == 1
      modifies this`ref, this`free
      ensures Booted(Now(), low)
    {
      for i := low to npage
        invariant |ref| == i && forall f: nat :: f < i ==> ref[f] == if f < low then 1 else 0
        invariant |free| == i - low && forall k :: 0 <= k < |free| ==> free[k] == i - 1 - k
      {
        ref := ref + [0];
        free := [i] + free;
      }
    }

    /** The head of the free list, cleared; its count stays 0 and nothing names it. */
    method PageAlloc() returns (r: Outcome<nat>)
      requires Valid()
      modifies this`free, this`mem
      ensures Valid()
      ensures old(free) == [] ==> r == NoMem && Now() == old(Now())
      ensures old(free) != [] ==> r == Done(old(free)[0]) && Fresh(Now(), r.value) && Now() == Allocated(old(Now()))
    {
      ghost var v := Now();
      if free == [] {
        return NoMem;
      }
      FreeFrame(v);
      AllocatedKeeps(v);
      var pp := free[0];
      free := free[1..];
      mem := mem[pp := ZeroFrame()];
      r := Done(pp);
    }

    method PageFree(pp: nat)
      requires pp < |ref| && ref[pp] == 0
      modifies this`free
      ensures free == [pp] + old(free)
    {
      free := [pp] + free;
    }

    method PageDecref(pp: nat)
      requires pp < |ref| && ref[pp] > 0
      modifies this`free, this`ref, this`role
      ensures ref == old(ref)[pp := old(ref)[pp] - 1]
      ensures free == if old(ref)[pp] == 1 then [pp] + old(free) else old(free)
      ensures role == if old(ref)[pp] == 1 then old(role) - {pp} else old(role)
    {
      ref := ref[pp := ref[pp] - 1];
      if ref[pp] == 0 {
        PageFree(pp);
        role := role - {pp};
      }
    }

    method TlbInvalidate(x: Site)
      requires Valid()
      modifies this`tlb
      ensures Valid() && Now() == Flushed(old(Now()), x)
    {
      FlushedKeeps(Now(), x);
      tlb := tlb - {PairOf(x)};
    }

    /** The address of the page-table word for x; `create` makes a missing table. */
    method PgdirWalk(x: Site, create: bool) returns (r: Outcome<Slot>)
      requires Valid() && InRange(Now(), x)
      modifies this`free, this`mem, this`ref, this`held, this`role
      ensures Valid() && Now() == if create then Linked(old(Now()), x) else old(Now())
      ensures TableOf(x) in held ==> r == Done(WordOf(Now(), x))
      ensures TableOf(x) !in held ==> r == if create then NoMem else Done(Null)
    {
      ghost var v := Now();
      var i := x.vpn / ENTRIES;
      Readable(v, x);
      LinkedKeeps(v, x);
      if mem[dirs[x.a]][i] == ZERO {
        if !create {
          return Done(Null);
        }
        var p := PageAlloc();
        if p.NoMem? {
          return NoMem;
        }
        Readable(Now(), x);
        mem := mem[dirs[x.a] := mem[dirs[x.a]][i := Word(p.value, LINK_PERM)]];
        ref := ref[p.value := ref[p.value] + 1];
        held, role := held[TableOf(x) := p.value], role[p.value := Held(TableOf(x))];
        return Done(Ppte(p.value, x.vpn % ENTRIES));
      }
      r := Done(Ppte(mem[dirs[x.a]][i].ppn, x.vpn % ENTRIES));
    }

    /** The word mapped at x, if any. */
    method PageLookup(x: Site) returns (r: Slot)
      requires Valid() && InRange(Now(), x)
      ensures x !in m ==> r == Null
      ensures x in m ==> TableOf(x) in held && r == WordOf(Now(), x)
    {
      Readable(Now(), x);
      if mem[dirs[x.a]][x.vpn / ENTRIES] == ZERO {
        return Null;
      }
      r := Ppte(mem[dirs[x.a]][x.vpn / ENTRIES].ppn, x.vpn % ENTRIES);
      if !mem[r.frame][r.index].perm.v {
        return Null;
      }
    }

    /** Unmap x: exactly its translation goes, and its frame when nothing else names it. */
    method PageRemove(x: Site)
      requires Valid() && InRange(Now(), x)
      modifies this`free, this`mem, this`ref, this`role, this`tlb, this`m
      ensures Valid() && Now() == Gone(old(Now()), x) && m == old(m) - {x}
    {
      ghost var v := Now();
      Readable(v, x);
      GoneKeeps(v, x);
      var p := PageLookup(x);
      if p == Null {
        return;
      }
      PageDecref(mem[p.frame][p.index].ppn);
      mem := mem[p.frame := mem[p.frame][p.index := ZERO]];
      m := m - {x};
      tlb := tlb - {PairOf(x)};
    }

    /** The last step of page_insert: the word at w is written and the frame counted. */
    method StoreWord(w: Slot, x: Site, pp: nat, perm: Perm)
      requires Valid() && InRange(Now(), x) && TableOf(x) in held && w == WordOf(Now(), x) && pp < |ref|
      modifies this`mem, this`ref, this`role, this`m
      ensures Now() == Mapped(old(Now()), x, pp, perm)
    {
      Readable(Now(), x);
      mem := mem[w.frame := mem[w.frame][w.index := Word(pp, WithCV(perm))]];
      ref, role := ref[pp := ref[pp] + 1], role[pp := User];
      m := m[x := Word(pp, WithCV(perm))];
    }

    /** Map frame pp at x.  On success exactly x's translation changes; the only failure
        is a missing page table with no free frame, and then no translation changes. */
    method PageInsert(x: Site, pp: nat, perm: Perm) returns (ok: bool)
      requires Valid() && InRange(Now(), x) && Insertable(Now(), pp) && CountFits(Now().t, x, pp)
      modifies this`free, this`mem, this`ref, this`held, this`role, this`tlb, this`m
      ensures Valid() && Now() == Inserted(old(Now()), x, pp, perm)
      ensures ok <==> !InsertFails(old(Now()).t, x)
      ensures m == if ok then old(m)[x := Word(pp, WithCV(perm))] else old(m)
      ensures ok ==> Grants(m[x].perm, perm)
    {
      ghost var v := Now();
      GrantsAsked(perm);
      var w := PgdirWalk(x, false);
      Readable(v, x);
      if w.value.Ppte? && mem[w.value.frame][w.value.index].perm.v {
        if mem[w.value.frame][w.value.index].ppn != pp {
          PageRemove(x);
        } else {
          tlb := tlb - {PairOf(x)};
          mem := mem[w.value.frame := mem[w.value.frame][w.value.index := Word(pp, WithCV(perm))]];
          m := m[x := Word(pp, WithCV(perm))];
          InsertedKeeps(v, x, pp, perm);
          return true;
        }
      }
      TlbInvalidate(x);
      ClearedKeeps(v, x, pp);
      w := PgdirWalk(x, true);
      InsertedKeeps(v, x, pp, perm);
      if w.NoMem? {
        return false;
      }
      StoreWord(w.value, x, pp, perm);
      ok := true;
    }

    // ---- kern/tlbex.c ---------------------------------------------------------------------

    /** Map a cleared, writable page at x.  False is a kernel panic. */
    method PassiveAlloc(x: Site) returns (ok: bool)
      requires Valid() && InRange(Now(), x) && x !in m
      modifies this`free, this`mem, this`ref, this`held, this`role, this`tlb, this`m
      ensures Valid() && dirs == old(dirs) && vars == old(vars) && asids == old(asids)
      ensures ok <==> !AllocFails(old(Now()).t, x)
      ensures ok ==> m == old(m)[x := Word(old(free)[0], WithCV(PERM_D))] && Grants(m[x].perm, PERM_D)
    {
      if x.vpn < UTEMP_VPN || x.vpn == USTACKTOP_VPN {
        return false;
      }
      ghost var v := Now();
      var p := PageAlloc();
      if p.NoMem? {
        return false;
      }
      AllocatedIsInsertable(v);
      InsertedKeeps(Allocated(v), x, p.value, PERM_D);
      ok := PageInsert(x, p.value, PERM_D);
    }

    /** Refill the TLB for page x, after at most one allocation; tlbwr then drops some
        other entry.  A panic happens exactly when that one allocation fails. */
    method DoTlbRefill(x: Site, victim: Pair) returns (r: Outcome<(Word, Word)>)
      requires Valid() && InRange(Now(), x)
      modifies this`free, this`mem, this`ref, this`held, this`role, this`tlb, this`m
      ensures Valid() && dirs == old(dirs)
      ensures r == Panic <==> x !in old(m) && AllocFails(old(Now()).t, x)
      ensures r == Panic || r.Done?
      ensures r.Done? ==> m == if x in old(m) then old(m) else old(m)[x := Word(old(free)[0], WithCV(PERM_D))]
      ensures r.Done? ==> PairOf(x) in tlb && tlb[PairOf(x)] == r.value && x in m && Caches(Translate(tlb, x), m[x])
      ensures r.Done? ==> forall y :: PairOf(y) == PairOf(x) ==> Serves(tlb, m, y)
    {
      TlbInvalidate(x);
      var ppte := LookupOrAlloc(x);
      if ppte == Null {
        return Panic;
      }
      var even := ppte.index / 2 * 2;
      PairReadable(Now(), x);
      r := Done((Hard(mem[ppte.frame][even]), Hard(mem[ppte.frame][even + 1])));
      FilledKeeps(Now(), x, victim);
      tlb := (tlb - {victim})[PairOf(x) := r.value];
      PairServes(Now(), PairOf(x));
    }

    /** Its loop: page_lookup until there is a word, passive_alloc in between.  Null is a panic. */
    method LookupOrAlloc(x: Site) returns (ppte: Slot)
      requires Valid() && InRange(Now(), x)
      modifies this`free, this`mem, this`ref, this`held, this`role, this`tlb, this`m
      ensures Valid() && InRange(Now(), x) && dirs == old(dirs)
      ensures ppte == Null <==> x !in old(m) && AllocFails(old(Now()).t, x)
      ensures ppte != Null ==> x in m && TableOf(x) in held && ppte == WordOf(Now(), x)
      ensures ppte != Null ==> m == if x in old(m) then old(m) else old(m)[x := Word(old(free)[0], WithCV(PERM_D))]
    {
      ppte := PageLookup(x);
      while ppte == Null
        invariant Valid() && InRange(Now(), x) && dirs == old(dirs)
        invariant x in m <==> ppte != Null
        invariant x in m ==> TableOf(x) in held && ppte == WordOf(Now(), x)
        invariant x in old(m) ==> m == old(m)
        invariant x !in m ==> Now() == old(Now())
        invariant x in m && x !in old(m) ==> !AllocFails(old(Now()).t, x)
        invariant x in m && x !in old(m) ==> m == old(m)[x := Word(old(free)[0], WithCV(PERM_D))]
        decreases ppte == Null
      {
        var ok := PassiveAlloc(x);
        if !ok {
          return Null;
        }
        ppte := PageLookup(x);
      }
    }

    // ---- kern/env.c -----------------------------------------------------------------------

    /** The frame just allocated from v is filled and counted once. */
    method Count(f: nat, words: seq<Word>, ghost v: View)
      requires Inv(v) && v.t.free != [] && f == v.t.free[0] && Now() == Allocated(v) && |words| == ENTRIES
      modifies this`mem, this`ref, this`held, this`role
      ensures Valid() && Now() == Reserved(v, words)
    {
      AllocatedKeeps(v);
      ReservedKeeps(v, words);
      mem := mem[f := words];
      ref, role, held := ref[f := ref[f] + 1], role[f := Held(Pin(f))], held[Pin(f) := f];
    }

    /** A page directory with nothing below UTOP. */
    method EnvSetupVm(base: seq<Word>) returns (r: Outcome<nat>)
      requires Valid() && |base| == ENTRIES
      modifies this`free, this`mem, this`ref, this`held, this`role
      ensures Valid()
      ensures old(free) == [] ==> r == NoMem && Now() == old(Now())
      ensures old(free) != [] ==> r == Done(old(free)[0]) && Now() == Reserved(old(Now()), DirWords(base, r.value))
    {
      ghost var v := Now();
      r := PageAlloc();
      if r.Done? {
        Count(r.value, DirWords(base, r.value), v);
      }
    }

    method AsidAlloc() returns (r: Outcome<nat>)
      modifies this`asids
      ensures r.Done? ==> r.value < NASID && r.value !in old(asids) && asids == old(asids) + {r.value}
      ensures !r.Done? ==> r == NoFreeEnv && asids == old(asids) && forall i :: 0 <= i < NASID ==> i in asids
    {
      var i := 0;
      while i < NASID
        invariant 0 <= i <= NASID
        invariant forall j :: 0 <= j < i ==> j in asids
        invariant asids == old(asids)
      {
        if i !in asids {
          asids := asids + {i};
          return Done(i);
        }
        i := i + 1;
      }
      r := NoFreeEnv;
    }

    /** The last steps of env_alloc: space a is opened on its two frames. */
    method Open(a: nat, d: nat, p: nat)
      requires a in asids && Openable(Now().(asids := asids - {a}), a, d, p)
      requires Inv(Now().(asids := asids - {a}))
      modifies this`dirs, this`vars, this`held, this`role
      ensures Valid() && Now() == Opened(old(Now()).(asids := asids - {a}), a, d, p)
    {
      OpenedKeeps(Now().(asids := asids - {a}), a, d, p);
      dirs, vars := dirs[a := d], vars[a := p];
      held, role := (held - {Pin(d)})[Dir(a) := d], role[d := Held(Dir(a))];
      held, role := (held - {Pin(p)})[Vars(a) := p], role[p := Held(Vars(a))];
      assert asids == asids - {a} + {a};
    }

    /** A new, empty address space.  With one free frame left the kernel stops in
        page_free's assertion; without an ASID two frames stay counted for nobody. */
    method EnvAlloc(base: seq<Word>) returns (r: Outcome<nat>)
      requires Valid() && |base| == ENTRIES
      modifies this
      ensures r != Panic ==> Valid()
      ensures r == NoMem <==> old(free) == []
      ensures r == Panic <==> |old(free)| == 1
      ensures r == NoFreeEnv <==> |old(free)| >= 2 && forall i :: 0 <= i < NASID ==> i in old(asids)
      ensures r != Panic ==> m == old(m) && tlb == old(tlb)
      ensures r.Done? ==> r.value !in old(dirs) && dirs == old(dirs)[r.value := old(free)[0]]
      ensures r.Done? ==> vars == old(vars)[r.value := old(free)[1]] && free == old(free)[2..]
      ensures r.Done? || r == NoMem || r == Panic || r == NoFreeEnv
    {
      ghost var v := Now();
      var d := EnvSetupVm(base);
      if d.NoMem? {
        return NoMem;
      }
      ghost var v1 := Now();
      var p := PageAlloc();
      if p.NoMem? {
        return Panic;
      }
      Count(p.value, mem[p.value], v1);
      TwoReserved(v, DirWords(base, d.value), ZeroFrame());
      ghost var v2 := Now();
      var a := AsidAlloc();
      if a.NoFreeEnv? {
        return NoFreeEnv;
      }
      assert asids - {a.value} == v2.asids;
      assert a.value !in v.dirs by { assert Holds(v, Owners); }
      Open(a.value, d.value, p.value);
      r := a;
    }

    /** Unmap every page of the space's i-th page table. */
    method EmptyTable(a: nat, i: nat, pa: nat)
      requires Valid() && a in dirs && Table(a, i) in held && pa == held[Table(a, i)] && i < UTOP_PDX
      modifies this`free, this`mem, this`ref, this`role, this`tlb, this`m
      ensures Valid() && held == old(held) && m == Cut(old(m), a, i * ENTRIES, (i + 1) * ENTRIES)
    {
      CutMore(m, a, i * ENTRIES, i * ENTRIES, i * ENTRIES);
      for j := 0 to ENTRIES
        invariant Valid() && held == old(held) && m == Cut(old(m), a, i * ENTRIES, i * ENTRIES + j)
      {
        var x := Site(a, i * ENTRIES + j);
        Readable(Now(), x);
        if mem[pa][j].perm.v {
          PageRemove(x);
        }
        CutOne(old(m), a, i * ENTRIES, i * ENTRIES + j);
      }
    }

    /** Free an empty page table. */
    method FreeTable(a: nat, i: nat, pa: nat)
      requires Valid() && a in dirs && Table(a, i) in held && pa == held[Table(a, i)] && Unused(Now().t, Table(a, i))
      modifies this`free, this`mem, this`ref, this`held, this`role
      ensures Valid() && held == old(held) - {Table(a, i)}
    {
      HeldIn(Now(), Table(a, i));
      LetGoKeeps(Now(), Table(a, i));
      mem := mem[dirs[a] := mem[dirs[a]][i := ZERO]];
      PageDecref(pa);
      held := held - {Table(a, i)};
    }

    /** One round of env_free's loop: the i-th page table goes, with all its pages. */
    method FreePde(a: nat, i: nat)
      requires Valid() && a in dirs && i < UTOP_PDX
      modifies this`free, this`mem, this`ref, this`held, this`role, this`tlb, this`m
      ensures Valid() && m == Cut(old(m), a, i * ENTRIES, (i + 1) * ENTRIES) && held == old(held) - {Table(a, i)}
    {
      Readable(Now(), Site(a, i * ENTRIES));
      MappedThroughTables(Now(), a);
      if mem[dirs[a]][i].perm.v {
        var pa := mem[dirs[a]][i].ppn;
        EmptyTable(a, i, pa);
        FreeTable(a, i, pa);
        TlbInvalidate(Site(a, UVPT_PDX * ENTRIES + i));
      } else {
        assert Cut(m, a, i * ENTRIES, (i + 1) * ENTRIES) == m;
        assert held == held - {Table(a, i)};
      }
    }

    method FreeVars(a: nat)
      requires Valid()
      modifies this`free, this`ref, this`held, this`role, this`vars
      ensures Valid() && a !in vars && Vars(a) !in held && held == old(held) - {Vars(a)}
    {
      assert a in vars <==> Vars(a) in held by { assert Holds(Now(), Owners); }
      if a in vars {
        assert vars[a] == held[Vars(a)] by { assert Holds(Now(), Owners); }
        HeldIn(Now(), Vars(a));
        LetGoKeeps(Now(), Vars(a));
        PageDecref(vars[a]);
        vars, held := vars - {a}, held - {Vars(a)};
      } else {
        assert held == held - {Vars(a)};
      }
    }

    method FreeDirectory(a: nat)
      requires Valid() && a in dirs && Dir(a) in held && Unused(Now().t, Dir(a))
      modifies this`free, this`ref, this`held, this`role, this`dirs, this`asids
      ensures Valid() && dirs == old(dirs) - {a} && asids == old(asids) - {a}
    {
      assert dirs[a] == held[Dir(a)] by { assert Holds(Now(), Layout); }
      HeldIn(Now(), Dir(a));
      LetGoKeeps(Now(), Dir(a));
      PageDecref(dirs[a]);
      dirs, asids, held := dirs - {a}, asids - {a}, held - {Dir(a)};
    }

    /** Close space a: all its pages go, every other space keeps exactly its own, and no
        TLB entry for a user page is left under the freed ASID. */
    method EnvFree(a: nat)
      requires Valid() && a in dirs
      modifies this`free, this`mem, this`ref, this`held, this`role, this`tlb, this`m, this`dirs, this`vars, this`asids
      ensures Valid() && dirs == old(dirs) - {a} && asids == old(asids) - {a}
      ensures forall x :: x in m <==> x in old(m) && x.a != a
      ensures forall x :: x in m ==> m[x] == old(m)[x]
      ensures forall p :: p in tlb && p.asid == a ==> p.vpn2 >= UTOP_VPN / 2
    {
      FreeVars(a);
      CutMore(m, a, 0, 0, 0);
      for i := 0 to UTOP_PDX
        invariant Valid() && a in dirs && dirs == old(dirs) && asids == old(asids)
        invariant m == Cut(old(m), a, 0, i * ENTRIES) && Vars(a) !in held
        invariant forall k :: k in held && k.Table? && k.a == a ==> k.i >= i
      {
        CutMore(old(m), a, 0, i * ENTRIES, (i + 1) * ENTRIES);
        FreePde(a, i);
      }
      assert Dir(a) in held by { assert Holds(Now(), Layout); }
      MappedThroughTables(Now(), a);
      FreeDirectory(a);
      TlbInvalidate(Site(a, UVPT_PDX * ENTRIES + UVPT_PDX));
      ClosedSpace(Now(), a);
    }

    // ---- kern/syscall_all.c ---------------------------------------------------------------

    /** sys_mem_alloc: on success page x is a frame that was mapped nowhere; on failure no
        translation changes. */
    method SysMemAlloc(x: Site, perm: Perm) returns (r: Outcome<()>)
      requires Valid() && x.a in dirs
      modifies this`free, this`mem, this`ref, this`held, this`role, this`tlb, this`m
      ensures Valid()
      ensures r == Inval <==> IsIllegal(x.vpn)
      ensures r == NoMem <==> !IsIllegal(x.vpn) && (old(free) == [] || (|old(free)| == 1 && TableOf(x) !in old(held)))
      ensures r == Inval || r == NoMem || r == Done(())
      ensures m == if r.Done? then old(m)[x := Word(old(free)[0], WithCV(perm))] else old(m)
      ensures r.Done? ==> Grants(m[x].perm, perm)
      ensures r.Done? ==> forall y :: y in old(m) ==> old(m)[y].ppn != m[x].ppn
      ensures dirs == old(dirs) && |free| >= |old(free)| - 2
    {
      if IsIllegal(x.vpn) {
        return Inval;
      }
      ghost var v := Now();
      var p := PageAlloc();
      if p.NoMem? {
        return NoMem;
      }
      AllocatedIsInsertable(v);
      InsertedKeeps(Allocated(v), x, p.value, perm);
      InsertedRoom(Allocated(v), x, p.value, perm);
      var ok := PageInsert(x, p.value, perm);
      r := if ok then Done(()) else NoMem;
    }

    /** sys_mem_map: dst becomes a second name for src's frame, and nothing else changes. */
    method SysMemMap(src: Site, dst: Site, perm: Perm) returns (r: Outcome<()>)
      requires Valid() && src.a in dirs && dst.a in dirs
      requires src in m && m[src].ppn < |ref| ==> CountFits(Now().t, dst, m[src].ppn)
      modifies this`free, this`mem, this`ref, this`held, this`role, this`tlb, this`m
      ensures Valid()
      ensures r == Inval <==> IsIllegal(src.vpn) || IsIllegal(dst.vpn) || src !in old(m)
      ensures r == NoMem <==> r != Inval && old(free) == [] && TableOf(dst) !in old(held)
      ensures r == Inval || r == NoMem || r == Done(())
      ensures m == if r.Done? then old(m)[dst := Word(old(m)[src].ppn, WithCV(perm))] else old(m)
      ensures r.Done? ==> Grants(m[dst].perm, perm)
    {
      if IsIllegal(src.vpn) || IsIllegal(dst.vpn) {
        return Inval;
      }
      Readable(Now(), src);
      var p := PageLookup(src);
      if p == Null {
        return Inval;
      }
      MappedIsInsertable(Now(), src);
      var ok := PageInsert(dst, mem[p.frame][p.index].ppn, perm);
      r := if ok then Done(()) else NoMem;
    }

    method SysMemUnmap(x: Site) returns (r: Outcome<()>)
      requires Valid() && x.a in dirs
      modifies this`free, this`mem, this`ref, this`role, this`tlb, this`m
      ensures Valid() && (r == if IsIllegal(x.vpn) then Inval else Done(()))
      ensures m == if r.Done? then old(m) - {x} else old(m)
    {
      if IsIllegal(x.vpn) {
        return Inval;
      }
      PageRemove(x);
      r := Done(());
    }
  }

  /** Both pages of a cached pair are cached as they are mapped. */
  lemma PairServes(v: View, p: Pair)
    requires Inv(v) && p in v.t.tlb && p.vpn2 < UTOP_VPN / 2
    ensures forall y :: PairOf(y) == p ==> Serves(v.t.tlb, v.t.m, y)
  {
    assert Holds(v, Accounts);
    forall y | PairOf(y) == p ensures Serves(v.t.tlb, v.t.m, y) { TlbAgreesWithWalk(v.t, y); }
  }

  const GLOBAL := PERM_D.(g := true)

  lemma AsidsAreSpaces(v: View)
    requires Inv(v)
    ensures v.asids == v.dirs.Keys
  {
    assert Holds(v, Owners);
  }

  /** Two neighbouring pages of space a mapped with PTE_G. */
  method MapGlobalWords(k: Kernel, a: nat, even: Site, odd: Site)
    requires k.Valid() && a in k.dirs && k.m == map[] && |k.free| >= 4
    requires even.a == odd.a == a && !IsIllegal(even.vpn) && !IsIllegal(odd.vpn)
    modifies k
    ensures k.Valid() && k.dirs == old(k.dirs) && k.m.Keys == {even, odd}
    ensures k.m[even].perm.g && k.m[odd].perm.g
  {
    var r := k.SysMemAlloc(even, GLOBAL);
    r := k.SysMemAlloc(odd, GLOBAL);
  }

  lemma GlobalWordsInPair(v: View, a: nat, vpn2: nat)
    requires Inv(v) && Pair(a, vpn2) in v.t.tlb && vpn2 < UTOP_VPN / 2
    requires At(v.t.m, Site(a, 2 * vpn2)).perm.g && At(v.t.m, Site(a, 2 * vpn2 + 1)).perm.g
    ensures IsGlobal(v.t.tlb, Pair(a, vpn2))
  {
    assert Holds(v, Accounts);
    assert PairIn(v.t.tlb[Pair(a, vpn2)], Pair(a, vpn2), v.t.m, v.t.held);
  }

  /** Two system calls and one refill cache a global pair. */
  method MapGlobalPair(k: Kernel, a: nat, vpn2: nat)
    requires k.Valid() && a in k.dirs && k.m == map[] && |k.free| >= 4 && UTEMP_VPN <= 2 * vpn2 < UTOP_VPN
    modifies k
    ensures k.Valid() && k.dirs == old(k.dirs) && (forall y :: y in k.m ==> y.a == a)
    ensures IsGlobal(k.tlb, Pair(a, vpn2))
  {
    var even, odd := Site(a, 2 * vpn2), Site(a, 2 * vpn2 + 1);
    MapGlobalWords(k, a, even, odd);
    var w := k.DoTlbRefill(even, Pair(a, vpn2));
    GlobalWordsInPair(k.Now(), a, vpn2);
  }

  /** From boot, two new address spaces and those calls in one of them: the processor serves
      the other space a page of the first where it has nothing mapped itself. */
  method GlobalWordsLeak(npage: nat, low: nat, base: seq<Word>, vpn2: nat) returns (k: Kernel, hit: Pair, x: Site)
    requires low + 8 <= npage && |base| == ENTRIES && UTEMP_VPN <= 2 * vpn2 < UTOP_VPN
    ensures k.Valid() && x.a in k.dirs && x !in k.m && Hits(k.tlb, hit, x) && hit != PairOf(x)
  {
    k := new Kernel(npage, low);
    AsidsAreSpaces(k.Now());
    var a := k.EnvAlloc(base);
    AsidsAreSpaces(k.Now());
    assert 2 !in k.asids || 1 !in k.asids;
    var b := k.EnvAlloc(base);
    MapGlobalPair(k, a.value, vpn2);
    hit, x := Pair(a.value, vpn2), Site(b.value, 2 * vpn2);
  }

  /** is_illegal_va, of a page number. */
  predicate IsIllegal(vpn: nat): (b: bool)
    ensures b <==> vpn * 4096 < 0x3f_e000 || vpn * 4096 >= 0x7f40_0000
  {
    vpn < UTEMP_VPN || vpn >= UTOP_VPN
  }
}
