/** The kernel's memory state as one value, and what every page operation makes of it
    (kern/pmap.c, kern/env.c). */
module Machine {
  import opened Mmu
  import opened Spaces
  import opened Vm

  /** What pgdir_walk stores through `ppte`: NULL, or frame and index of the word. */
  datatype Slot = Null | Ppte(frame: nat, index: nat)

  /** Everything the kernel keeps, as one value. */
  datatype View = View(mem: Frames1024, dirs: map<nat, nat>, vars: map<nat, nat>, asids: set<nat>, t: Spaces)

  datatype Clause = Layout | Owners | Accounts

  ghost predicate Holds(v: View, c: Clause) {
    match c
    case Layout => |v.mem| == v.t.npage && Represents(v.mem, v.dirs, v.t.held, v.t.m)
    case Owners =>
      && (forall a :: a in v.vars <==> Vars(a) in v.t.held)
      && (forall a :: a in v.vars ==> v.vars[a] == v.t.held[Vars(a)])
      && (forall a :: a in v.asids <==> a in v.dirs)
      && (forall a :: a in v.vars ==> a in v.dirs)
    case Accounts => Ok(v.t)
  }

  /** The invariant; a proof names the clauses it needs. */
  ghost predicate Inv(v: View) {
    forall c {:trigger Holds(v, c)} :: Holds(v, c)
  }

  predicate InRange(v: View, x: Site) {
    x.a in v.dirs && x.vpn < UTOP_VPN
  }

  /** Frame and index of the page-table word of x. */
  ghost function WordOf(v: View, x: Site): Slot
    requires TableOf(x) in v.t.held
  {
    Ppte(v.t.held[TableOf(x)], x.vpn % ENTRIES)
  }

  ghost predicate FrameIn(v: View, f: nat) {
    f < |v.mem| && |v.mem[f]| == ENTRIES && f < |v.t.ref|
  }

  /** The walk for x stays inside memory and finds the flat map's word. */
  lemma Readable(v: View, x: Site)
    requires Inv(v) && InRange(v, x)
    ensures FrameIn(v, v.dirs[x.a]) && v.mem[v.dirs[x.a]][x.vpn / ENTRIES] == Entry(v.t.held, x.a, x.vpn / ENTRIES)
    ensures TableOf(x) in v.t.held ==> FrameIn(v, v.t.held[TableOf(x)])
    ensures TableOf(x) in v.t.held ==> v.mem[v.t.held[TableOf(x)]][x.vpn % ENTRIES] == At(v.t.m, x)
    ensures x in v.t.m ==> TableOf(x) in v.t.held && v.t.m[x].perm.v
    ensures x in v.t.m ==> FrameIn(v, v.t.m[x].ppn) && v.t.ref[v.t.m[x].ppn] > 0
  {
    assert Holds(v, Layout) && Holds(v, Accounts);
    WalkFinds(v.mem, v.dirs, v.t.held, v.t.m, x);
    if x in v.t.m { MappedIsReferenced(v.t, x); }
  }

  ghost function Poked(v: View, s: Slot, w: Word): Frames1024
    requires s.Ppte? && FrameIn(v, s.frame) && s.index < ENTRIES
  {
    v.mem[s.frame := v.mem[s.frame][s.index := w]]
  }

  // ---- page_init -------------------------------------------------------------------------

  /** The first low of npage frames are in use for ever, the others are free. */
  ghost predicate Booted(v: View, low: nat) {
    && low <= v.t.npage == |v.t.ref| && v.mem == seq(v.t.npage, _ => ZeroFrame())
    && v.dirs == map[] && v.vars == map[] && v.asids == {} && v.t.tlb == map[] && v.t.m == map[]
    && (forall f: nat :: f < v.t.npage ==> v.t.ref[f] == if f < low then 1 else 0)
    && (forall h :: h in v.t.held <==> h.Pin? && h.f < low)
    && (forall h :: h in v.t.held ==> v.t.held[h] == h.f)
    && (forall f: nat :: f in v.t.role <==> f < low)
    && (forall f :: f in v.t.role ==> v.t.role[f] == Held(Pin(f)))
    && |v.t.free| == v.t.npage - low
    && (forall k :: 0 <= k < |v.t.free| ==> v.t.free[k] == v.t.npage - 1 - k)
  }

  lemma BootedIsOk(v: View, low: nat)
    requires Booted(v, low)
    ensures Inv(v) && forall f :: f in v.t.free <==> low <= f < v.t.npage
  {
    forall f | low <= f < v.t.npage ensures f in v.t.free { assert v.t.free[v.t.npage - 1 - f] == f; }
    forall f: nat | f < v.t.npage ensures v.t.ref[f] == Uses(Frames(v.t.m), v.t.held, f) {
      assert Namers(v.t.held, f) == if f < low then {Pin(f)} else {};
    }
    assert Holds(v, Layout) && Holds(v, Owners) && Holds(v, Accounts);
  }

  // ---- page_alloc ------------------------------------------------------------------------

  lemma FreeFrame(v: View)
    requires Inv(v) && v.t.free != []
    ensures FrameIn(v, v.t.free[0])
  {
    assert Holds(v, Layout) && Holds(v, Accounts);
  }

  ghost function Allocated(v: View): View
    requires Inv(v) && v.t.free != []
  {
    FreeFrame(v);
    v.(mem := v.mem[v.t.free[0] := ZeroFrame()], t := Taken(v.t))
  }

  /** What page_alloc promises of frame f: out of use, cleared, counted 0, named nowhere. */
  ghost predicate Fresh(v: View, f: nat) {
    && FrameIn(v, f) && f < v.t.npage && v.mem[f] == ZeroFrame()
    && f !in v.t.role && f !in v.t.free && v.t.ref[f] == 0
    && (forall h :: h in v.t.held ==> v.t.held[h] != f)
    && (forall x :: x in v.t.m ==> v.t.m[x].ppn != f)
  }

  lemma AllocatedKeeps(v: View)
    requires Inv(v) && v.t.free != []
    ensures Inv(Allocated(v)) && Fresh(Allocated(v), v.t.free[0])
  {
    assert Holds(v, Layout) && Holds(v, Owners) && Holds(v, Accounts);
    var f := v.t.free[0];
    TakenKeeps(v.t);
    forall h | h in v.t.held ensures v.t.held[h] != f { assert h !in Namers(v.t.held, f); }
    forall x | x in v.t.m ensures v.t.m[x].ppn != f { assert x !in Namers(Frames(v.t.m), f); }
    FillFrame(v.mem, v.dirs, v.t.held, v.t.m, f, ZeroFrame());
    assert Holds(Allocated(v), Layout) && Holds(Allocated(v), Owners);
  }

  // ---- pgdir_walk ------------------------------------------------------------------------

  ghost function Linked(v: View, x: Site): View
    requires Inv(v) && InRange(v, x)
  {
    if TableOf(x) in v.t.held || v.t.free == [] then v
    else
      var f := v.t.free[0];
      assert Holds(v, Accounts);
      FreeFrame(v);
      Readable(v, x);
      AllocatedKeeps(v);
      Readable(Allocated(v), x);
      v.(mem := Poked(Allocated(v), Ppte(v.dirs[x.a], x.vpn / ENTRIES), Word(f, LINK_PERM)), t := Walked(v.t, x))
  }

  lemma LinkedKeeps(v: View, x: Site)
    requires Inv(v) && InRange(v, x)
    ensures var l := Linked(v, x);
      && Inv(l) && InRange(l, x) && l.t.m == v.t.m && l.t.tlb == v.t.tlb
      && (TableOf(x) in l.t.held <==> TableOf(x) in v.t.held || v.t.free != [])
      && (forall h :: h in v.t.held ==> h in l.t.held && l.t.held[h] == v.t.held[h])
  {
    assert Holds(v, Layout) && Holds(v, Owners) && Holds(v, Accounts);
    WalkedKeeps(v.t, x);
    if TableOf(x) !in v.t.held && v.t.free != [] {
      LinkedLayout(v, x);
      assert Holds(Linked(v, x), Owners) && Holds(Linked(v, x), Layout) && Holds(Linked(v, x), Accounts);
    }
  }

  lemma LinkedLayout(v: View, x: Site)
    requires Inv(v) && InRange(v, x) && TableOf(x) !in v.t.held && v.t.free != []
    ensures Holds(Linked(v, x), Layout)
  {
    var w, f := Allocated(v), v.t.free[0];
    AllocatedKeeps(v);
    assert Holds(w, Layout) && Holds(w, Accounts);
    LinkTable(w.mem, w.dirs, w.t.held, w.t.role, w.t.m, x.a, x.vpn / ENTRIES, f);
  }

  // ---- page_remove -----------------------------------------------------------------------

  ghost function Gone(v: View, x: Site): View
    requires Inv(v) && InRange(v, x)
  {
    Readable(v, x);
    assert Holds(v, Accounts);
    if x !in v.t.m then v else v.(mem := Poked(v, WordOf(v, x), ZERO), t := Removed(v.t, x))
  }

  lemma GoneKeeps(v: View, x: Site)
    requires Inv(v) && InRange(v, x)
    ensures var g := Gone(v, x);
      Inv(g) && InRange(g, x) && g.t.m == v.t.m - {x} && g.t.held == v.t.held
  {
    assert Holds(v, Layout) && Holds(v, Owners) && Holds(v, Accounts);
    RemovedKeeps(v.t, x);
    if x in v.t.m {
      GoneLayout(v, x);
      assert Holds(Gone(v, x), Owners) && Holds(Gone(v, x), Accounts);
    } else {
      assert v.t.m - {x} == v.t.m;
    }
  }

  lemma GoneLayout(v: View, x: Site)
    requires Inv(v) && InRange(v, x) && x in v.t.m
    ensures Holds(Gone(v, x), Layout)
  {
    assert Holds(v, Layout) && Holds(v, Accounts);
    Readable(v, x);
    StoreWord(v.mem, v.dirs, v.t.held, v.t.role, v.t.m, x, ZERO);
  }

  // ---- page_insert -----------------------------------------------------------------------

  /** A frame that page_insert may be given. */
  ghost predicate Insertable(v: View, f: nat) {
    Mappable(v.t, f) && f < |v.t.ref|
  }

  /** pp_ref is 16 bits wide; mapping a frame where it is mapped already does not count it. */
  predicate CountFits(t: Spaces, x: Site, f: nat) {
    f < |t.ref| && (t.ref[f] < MAX_REF || (x in t.m && t.m[x].ppn == f))
  }

  lemma MappedIsInsertable(v: View, x: Site)
    requires Inv(v) && x in v.t.m && FrameIn(v, v.t.m[x].ppn)
    ensures Insertable(v, v.t.m[x].ppn)
  {
    assert Holds(v, Accounts);
    assert HasRole(v.t, v.t.m[x].ppn, User);
  }

  ghost function Flushed(v: View, x: Site): View {
    v.(t := Invalidated(v.t, PairOf(x)))
  }

  lemma FlushedKeeps(v: View, x: Site)
    requires Inv(v)
    ensures Inv(Flushed(v, x))
  {
    assert Holds(v, Layout) && Holds(v, Owners) && Holds(v, Accounts);
    InvalidatedKeeps(v.t, PairOf(x));
    assert Holds(Flushed(v, x), Layout) && Holds(Flushed(v, x), Owners) && Holds(Flushed(v, x), Accounts);
  }

  /** The same frame again, with other permissions. */
  ghost function Repermitted(v: View, x: Site, perm: Perm): View
    requires Inv(v) && InRange(v, x) && x in v.t.m
  {
    Readable(v, x);
    v.(mem := Poked(v, WordOf(v, x), Word(v.t.m[x].ppn, WithCV(perm))), t := Remapped(v.t, x, perm))
  }

  lemma RepermittedKeeps(v: View, x: Site, perm: Perm)
    requires Inv(v) && InRange(v, x) && x in v.t.m
    ensures Inv(Repermitted(v, x, perm))
  {
    var w := Repermitted(v, x, perm);
    assert Holds(v, Layout) && Holds(v, Owners) && Holds(v, Accounts);
    Readable(v, x);
    RemappedKeeps(v.t, x, perm);
    StoreWord(v.mem, v.dirs, v.t.held, v.t.role, v.t.m, x, Word(v.t.m[x].ppn, WithCV(perm)));
    assert Holds(w, Layout) && Holds(w, Owners) && Holds(w, Accounts);
  }

  /** A frame mapped where nothing is. */
  ghost function Mapped(v: View, x: Site, f: nat, perm: Perm): View
    requires Inv(v) && InRange(v, x) && TableOf(x) in v.t.held && f < |v.t.ref|
  {
    Readable(v, x);
    v.(mem := Poked(v, WordOf(v, x), Word(f, WithCV(perm))), t := Added(v.t, x, f, perm))
  }

  lemma MappedKeeps(v: View, x: Site, f: nat, perm: Perm)
    requires Inv(v) && InRange(v, x) && TableOf(x) in v.t.held && Insertable(v, f)
    requires x !in v.t.m && PairOf(x) !in v.t.tlb
    ensures Inv(Mapped(v, x, f, perm))
  {
    var w := Mapped(v, x, f, perm);
    assert Holds(v, Layout) && Holds(v, Owners) && Holds(v, Accounts);
    Readable(v, x);
    AddedKeeps(v.t, x, f, perm);
    StoreWord(v.mem, v.dirs, v.t.held, v.t.role, v.t.m, x, Word(f, WithCV(perm)));
    assert Holds(w, Layout) && Holds(w, Owners) && Holds(w, Accounts);
  }

  /** Room made for x: what was mapped is gone, the TLB flushed, the page table there. */
  ghost function Cleared(v: View, x: Site): View
    requires Inv(v) && InRange(v, x)
  {
    GoneKeeps(v, x);
    FlushedKeeps(Gone(v, x), x);
    Linked(Flushed(Gone(v, x), x), x)
  }

  lemma ClearedKeeps(v: View, x: Site, f: nat)
    requires Inv(v) && InRange(v, x) && Insertable(v, f) && (x in v.t.m ==> v.t.m[x].ppn != f)
    ensures var c := Cleared(v, x);
      && Inv(c) && InRange(c, x) && Insertable(c, f)
      && c.t.m == v.t.m - {x} && PairOf(x) !in c.t.tlb
      && (TableOf(x) in c.t.held <==> !InsertFails(v.t, x))
      && (forall h :: h in v.t.held ==> h in c.t.held && c.t.held[h] == v.t.held[h])
  {
    GoneKeeps(v, x);
    var g := Flushed(Gone(v, x), x);
    FlushedKeeps(Gone(v, x), x);
    LinkedKeeps(g, x);
    ClearedOthers(v, x, f);
    ClearedRoom(v, x);
  }

  lemma ClearedOthers(v: View, x: Site, f: nat)
    requires Inv(v) && InRange(v, x) && Insertable(v, f) && (x in v.t.m ==> v.t.m[x].ppn != f)
    ensures Insertable(Cleared(v, x), f)
  {
    GoneKeeps(v, x);
    FlushedKeeps(Gone(v, x), x);
    var g := Flushed(Gone(v, x), x);
    assert Holds(v, Accounts) && Holds(g, Accounts);
    RemovedOthers(v.t, x, f);
    WalkedOthers(g.t, x, f);
  }

  /** Unmapping x cannot be what makes room for x's page table: it was there already. */
  lemma ClearedRoom(v: View, x: Site)
    requires Inv(v) && InRange(v, x)
    ensures Flushed(Gone(v, x), x).t.free == [] && TableOf(x) !in v.t.held <==> InsertFails(v.t, x)
  {
    Readable(v, x);
    assert Holds(v, Accounts);
  }

  /** page_insert: success, and the state it leaves. */
  ghost function Inserted(v: View, x: Site, f: nat, perm: Perm): View
    requires Inv(v) && InRange(v, x) && Insertable(v, f)
  {
    if x in v.t.m && v.t.m[x].ppn == f then Repermitted(v, x, perm)
    else
      ClearedKeeps(v, x, f);
      if InsertFails(v.t, x) then Cleared(v, x) else Mapped(Cleared(v, x), x, f, perm)
  }

  lemma InsertedKeeps(v: View, x: Site, f: nat, perm: Perm)
    requires Inv(v) && InRange(v, x) && Insertable(v, f)
    ensures var w := Inserted(v, x, f, perm);
      && Inv(w) && w.dirs == v.dirs && w.vars == v.vars && w.asids == v.asids
      && w.t.m == (if InsertFails(v.t, x) then v.t.m else v.t.m[x := Word(f, WithCV(perm))])
      && (forall h :: h in v.t.held ==> h in w.t.held && w.t.held[h] == v.t.held[h])
  {
    Readable(v, x);
    if x in v.t.m && v.t.m[x].ppn == f {
      RepermittedKeeps(v, x, perm);
    } else {
      ClearedKeeps(v, x, f);
      assert (v.t.m - {x})[x := Word(f, WithCV(perm))] == v.t.m[x := Word(f, WithCV(perm))];
      if InsertFails(v.t, x) {
        assert v.t.m - {x} == v.t.m;
      } else {
        MappedKeeps(Cleared(v, x), x, f, perm);
      }
    }
  }

  /** page_insert takes at most one frame off the free list. */
  lemma InsertedRoom(v: View, x: Site, f: nat, perm: Perm)
    requires Inv(v) && InRange(v, x) && Insertable(v, f)
    ensures |Inserted(v, x, f, perm).t.free| >= |v.t.free| - 1
  {
    assert Holds(v, Accounts);
    Readable(v, x);
    if !(x in v.t.m && v.t.m[x].ppn == f) {
      GoneKeeps(v, x);
      FlushedKeeps(Gone(v, x), x);
      RemovedKeeps(v.t, x);
      ClearedKeeps(v, x, f);
    }
  }

  // ---- _do_tlb_refill --------------------------------------------------------------------

  /** When passive_alloc panics. */
  predicate AllocFails(t: Spaces, x: Site) {
    x.vpn < UTEMP_VPN || x.vpn == USTACKTOP_VPN || t.free == [] || (TableOf(x) !in t.held && |t.free| == 1)
  }

  lemma AllocatedIsInsertable(v: View)
    requires Inv(v) && v.t.free != []
    ensures Inv(Allocated(v)) && Insertable(Allocated(v), v.t.free[0])
    ensures forall x :: x in v.t.m ==> v.t.m[x].ppn != v.t.free[0]
  {
    AllocatedKeeps(v);
  }

  /** The two words that ppte & ~7 points to are the words of x's pair of pages. */
  lemma PairReadable(v: View, x: Site)
    requires Inv(v) && InRange(v, x) && x in v.t.m
    ensures TableOf(x) in v.t.held && FrameIn(v, v.t.held[TableOf(x)])
    ensures var f, even := v.t.held[TableOf(x)], x.vpn % ENTRIES / 2 * 2;
      && v.mem[f][even] == At(v.t.m, Site(x.a, x.vpn / 2 * 2))
      && v.mem[f][even + 1] == At(v.t.m, Site(x.a, x.vpn / 2 * 2 + 1))
  {
    var even, odd := Site(x.a, x.vpn / 2 * 2), Site(x.a, x.vpn / 2 * 2 + 1);
    Readable(v, x);
    Readable(v, even);
    Readable(v, odd);
    assert TableOf(even) == TableOf(x) == TableOf(odd);
  }

  ghost function Filled(v: View, x: Site, victim: Pair): View {
    v.(t := Refilled(v.t, x, {victim}))
  }

  lemma FilledKeeps(v: View, x: Site, victim: Pair)
    requires Inv(v) && x in v.t.m
    ensures Inv(Filled(v, x, victim))
  {
    assert Holds(v, Layout) && Holds(v, Owners) && Holds(v, Accounts);
    RefilledKeeps(v.t, x, {victim});
    var w := Filled(v, x, victim);
    assert Holds(w, Layout) && Holds(w, Owners) && Holds(w, Accounts);
  }

  // ---- Whole address spaces --------------------------------------------------------------

  /** A frame taken from the free list, filled and counted once, owned by nobody yet. */
  ghost function Reserved(v: View, words: seq<Word>): View
    requires Inv(v) && v.t.free != []
  {
    FreeFrame(v);
    var f := v.t.free[0];
    v.(mem := Allocated(v).mem[f := words], t := Holding(Taken(v.t), Pin(f), f))
  }

  lemma ReservedKeeps(v: View, words: seq<Word>)
    requires Inv(v) && v.t.free != [] && |words| == ENTRIES
    ensures var w, f := Reserved(v, words), v.t.free[0];
      Inv(w) && FrameIn(w, f) && w.mem[f] == words && Pin(f) in w.t.held && w.t.held[Pin(f)] == f
  {
    var w, f, u := Reserved(v, words), v.t.free[0], Allocated(v);
    AllocatedKeeps(v);
    assert Holds(v, Owners) && Holds(u, Layout) && Holds(u, Accounts);
    HoldingKeeps(u.t, Pin(f), f);
    FillFrame(u.mem, u.dirs, u.t.held, u.t.m, f, words);
    OtherHolders(w.mem, w.dirs, u.t.held, w.t.held, w.t.m);
    assert Holds(w, Layout) && Holds(w, Owners) && Holds(w, Accounts);
  }

  /** Two frames reserved one after the other are different, and the first keeps its words. */
  lemma TwoReserved(v: View, words: seq<Word>, words2: seq<Word>)
    requires Inv(v) && |v.t.free| >= 2 && |words| == |words2| == ENTRIES
    ensures Inv(Reserved(v, words)) && Reserved(v, words).t.free == v.t.free[1..]
    ensures var w, d, p := Reserved(Reserved(v, words), words2), v.t.free[0], v.t.free[1];
      && d != p && FrameIn(w, d) && w.mem[d] == words && w.t.free == v.t.free[2..]
      && Pin(d) in w.t.held && Pin(p) in w.t.held && w.t.m == v.t.m && w.t.tlb == v.t.tlb
  {
    ReservedKeeps(v, words);
    var w1 := Reserved(v, words);
    ReservedKeeps(w1, words2);
    assert w1.t.free[0] == v.t.free[1];
    assert v.t.free[0] != v.t.free[1] by { assert Holds(v, Accounts); }
    HeldIn(Reserved(w1, words2), Pin(v.t.free[0]));
    assert w1.mem[v.t.free[0]] == words;
    FreeFrame(w1);
    assert Allocated(w1).mem[v.t.free[0]] == words;
  }

  /** What env_setup_vm writes into directory frame d: nothing below UTOP, the shared
      entries up to UVPT, and the directory itself at UVPT. */
  function DirWords(base: seq<Word>, d: nat): (w: seq<Word>)
    requires |base| == ENTRIES
    ensures |w| == ENTRIES && forall i :: 0 <= i < UTOP_PDX ==> w[i] == ZERO
  {
    var z := ZeroFrame();
    (z[..UTOP_PDX] + base[UTOP_PDX..UVPT_PDX] + z[UVPT_PDX..])[UVPT_PDX := Word(d, NO_PERM.(v := true))]
  }

  /** Space a is opened on pinned directory d and variable table p. */
  ghost function Opened(v: View, a: nat, d: nat, p: nat): View {
    v.(dirs := v.dirs[a := d], vars := v.vars[a := p], asids := v.asids + {a},
       t := Handed(Handed(v.t, d, Dir(a)), p, Vars(a)))
  }

  ghost predicate Openable(v: View, a: nat, d: nat, p: nat) {
    && a !in v.asids && d != p && FrameIn(v, d)
    && Pin(d) in v.t.held && Pin(p) in v.t.held
    && (forall i :: 0 <= i < UTOP_PDX ==> v.mem[d][i] == ZERO)
  }

  lemma OpenedKeeps(v: View, a: nat, d: nat, p: nat)
    requires Inv(v) && Openable(v, a, d, p)
    ensures Inv(Opened(v, a, d, p))
  {
    OpenedLayout(v, a, d, p);
    OpenedOwners(v, a, d, p);
    OpenedAccounts(v, a, d, p);
  }

  lemma OpenedAccounts(v: View, a: nat, d: nat, p: nat)
    requires Inv(v) && Openable(v, a, d, p)
    ensures Holds(Opened(v, a, d, p), Accounts)
  {
    assert Holds(v, Accounts);
    assert Dir(a) !in v.t.held && Vars(a) !in v.t.held by { assert Holds(v, Layout) && Holds(v, Owners); }
    HandedKeeps(v.t, d, Dir(a));
    HandedKeeps(Handed(v.t, d, Dir(a)), p, Vars(a));
  }

  lemma OpenedOwners(v: View, a: nat, d: nat, p: nat)
    requires Inv(v) && Openable(v, a, d, p)
    ensures Holds(Opened(v, a, d, p), Owners)
  {
    assert Holds(v, Owners);
  }

  lemma OpenedLayout(v: View, a: nat, d: nat, p: nat)
    requires Inv(v) && Openable(v, a, d, p)
    ensures Holds(Opened(v, a, d, p), Layout)
  {
    assert Holds(v, Layout) && Holds(v, Owners) && Holds(v, Accounts);
    var held1 := Handed(v.t, d, Dir(a)).held;
    OpenDirectory(v.mem, v.dirs, v.t.held, v.t.role, v.t.m, a, d);
    OtherHolders(v.mem, v.dirs[a := d], held1, Opened(v, a, d, p).t.held, v.t.m);
  }

  lemma HeldIn(v: View, h: Holder)
    requires Inv(v) && h in v.t.held
    ensures FrameIn(v, v.t.held[h]) && v.t.ref[v.t.held[h]] == 1
    ensures h.Table? ==> h.a in v.dirs && h.i < UTOP_PDX && FrameIn(v, v.dirs[h.a])
    ensures h.Table? ==> v.mem[v.dirs[h.a]][h.i] == Word(v.t.held[h], LINK_PERM)
  {
    assert Holds(v, Layout) && Holds(v, Accounts);
    HeldCount(v.t, h);
    if h.Table? { assert v.mem[v.dirs[h.a]][h.i] == Entry(v.t.held, h.a, h.i); }
  }

  /** The kernel lets go of page table, directory or variable table h. */
  ghost function LetGo(v: View, h: Holder): View
    requires Inv(v) && h in v.t.held
  {
    HeldIn(v, h);
    assert Holds(v, Accounts);
    var t := Released(v.t, h);
    match h
    case Table(a, i) => v.(mem := Poked(v, Ppte(v.dirs[a], i), ZERO), t := t)
    case Dir(a) => v.(dirs := v.dirs - {a}, asids := v.asids - {a}, t := t)
    case Vars(a) => v.(vars := v.vars - {a}, t := t)
    case Pin(_) => v.(t := t)
  }

  /** Nothing depends on h any more. */
  ghost predicate Unused(t: Spaces, h: Holder) {
    && (h.Table? ==> forall x :: x in t.m ==> TableOf(x) != h)
    && (h.Dir? ==> Vars(h.a) !in t.held && forall k :: k in t.held && k.Table? ==> k.a != h.a)
  }

  lemma LetGoKeeps(v: View, h: Holder)
    requires Inv(v) && h in v.t.held && Unused(v.t, h)
    ensures var w := LetGo(v, h);
      Inv(w) && w.t.m == v.t.m && w.t.held == v.t.held - {h} && w.t.free == [v.t.held[h]] + v.t.free
  {
    LetGoLayout(v, h);
    LetGoOwners(v, h);
    assert Holds(v, Accounts);
    ReleasedKeeps(v.t, h);
    assert Holds(LetGo(v, h), Accounts);
  }

  lemma LetGoOwners(v: View, h: Holder)
    requires Inv(v) && h in v.t.held && Unused(v.t, h)
    ensures Holds(LetGo(v, h), Owners)
  {
    assert Holds(v, Owners) && Holds(v, Layout);
    assert LetGo(v, h).t.held == v.t.held - {h} by { assert Holds(v, Accounts); }
  }

  lemma LetGoLayout(v: View, h: Holder)
    requires Inv(v) && h in v.t.held && Unused(v.t, h)
    ensures Holds(LetGo(v, h), Layout)
  {
    assert Holds(v, Layout) && Holds(v, Accounts);
    match h
    case Table(a, i) => UnlinkTable(v.mem, v.dirs, v.t.held, v.t.role, v.t.m, a, i);
    case Dir(a) => CloseDirectory(v.mem, v.dirs, v.t.held, v.t.m, a);
    case Vars(_) => OtherHolders(v.mem, v.dirs, v.t.held, v.t.held - {h}, v.t.m);
    case Pin(_) => OtherHolders(v.mem, v.dirs, v.t.held, v.t.held - {h}, v.t.m);
  }

  /** m without the pages of space a numbered lo up to hi. */
  ghost function Cut(m: map<Site, Word>, a: nat, lo: nat, hi: nat): map<Site, Word> {
    map x | x in m && !(x.a == a && lo <= x.vpn < hi) :: m[x]
  }

  lemma CutOne(m: map<Site, Word>, a: nat, lo: nat, k: nat)
    requires lo <= k
    ensures Cut(m, a, lo, k) - {Site(a, k)} == Cut(m, a, lo, k + 1)
    ensures Site(a, k) !in Cut(m, a, lo, k) ==> Cut(m, a, lo, k) == Cut(m, a, lo, k + 1)
  {
  }

  lemma CutMore(m: map<Site, Word>, a: nat, lo: nat, mid: nat, hi: nat)
    requires lo <= mid <= hi
    ensures Cut(Cut(m, a, lo, mid), a, mid, hi) == Cut(m, a, lo, hi)
    ensures Cut(m, a, lo, lo) == m
  {
  }

  /** Pages are mapped only through page tables that exist, below UTOP. */
  lemma MappedThroughTables(v: View, a: nat)
    requires Inv(v)
    ensures forall x :: x in v.t.m ==> TableOf(x) in v.t.held && x.vpn < UTOP_VPN
    ensures forall k :: k in v.t.held && k.Table? ==> k.a in v.dirs && k.i < UTOP_PDX
  {
    assert Holds(v, Accounts) && Holds(v, Layout);
  }

  /** A closed space has left nothing behind that its ASID could reach. */
  lemma ClosedSpace(v: View, a: nat)
    requires Inv(v) && a !in v.dirs
    ensures forall p :: p in v.t.tlb && p.asid == a ==> p.vpn2 >= UTOP_VPN / 2
    ensures forall x :: x in v.t.m ==> x.a != a
  {
    MappedThroughTables(v, a);
    assert Holds(v, Accounts);
    ClosedSpaceIsNotCached(v.t, a);
  }
}
