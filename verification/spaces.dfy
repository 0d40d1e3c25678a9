/** The memory system with its page tables seen as one flat map: reference counts, free
    list, frames held by the kernel and TLB pairs, and what every kernel operation does
    to them (kern/pmap.c, kern/tlbex.c, kern/env.c). */
module Spaces {
  import opened Mmu

  /** What the kernel holds a frame for: the directory, a page table or the variable
      table of an address space, or (Pin) for ever. */
  datatype Holder = Dir(a: nat) | Table(a: nat, i: nat) | Vars(a: nat) | Pin(f: nat)

  /** A frame without a role is on the free list, or taken from it and not yet mapped. */
  datatype Role = Held(h: Holder) | User

  /** What a TLB entry is found by: an ASID and the number of two neighbouring pages. */
  datatype Pair = Pair(asid: nat, vpn2: nat)

  /** `m`: the page-table words of all user pages; `held`: the kernel's own frames. */
  datatype Spaces = Spaces(
    npage: nat,
    ref: seq<nat>,
    free: seq<nat>,
    held: map<Holder, nat>,
    role: map<nat, Role>,
    tlb: map<Pair, (Word, Word)>,
    m: map<Site, Word>)

  function At(m: map<Site, Word>, x: Site): Word {
    if x in m then m[x] else ZERO
  }

  function TableOf(x: Site): Holder { Table(x.a, x.vpn / ENTRIES) }

  function PairOf(x: Site): Pair { Pair(x.a, x.vpn / 2) }

  // ---- Counting ---------------------------------------------------------------------

  ghost function Frames(m: map<Site, Word>): map<Site, nat> {
    map x | x in m :: m[x].ppn
  }

  /** The entries of m that name frame f. */
  ghost function Namers<K>(m: map<K, nat>, f: nat): set<K> {
    set k | k in m && m[k] == f
  }

  lemma NamersAdd<K>(m: map<K, nat>, k: K, g: nat, f: nat)
    requires k !in m
    ensures |Namers(m[k := g], f)| == |Namers(m, f)| + if g == f then 1 else 0
  {
    assert Namers(m[k := g], f) == if g == f then Namers(m, f) + {k} else Namers(m, f);
  }

  lemma NamersDrop<K>(m: map<K, nat>, k: K, f: nat)
    requires k in m
    ensures |Namers(m, f)| == |Namers(m - {k}, f)| + if m[k] == f then 1 else 0
  {
    NamersAdd(m - {k}, k, m[k], f);
    assert (m - {k})[k := m[k]] == m;
  }

  /** pp_ref of every frame is the number of user words plus the number of directory
      words and other kernel holders naming it. */
  ghost predicate Counts(ref: seq<nat>, m: map<Site, nat>, held: map<Holder, nat>) {
    forall f: nat {:trigger Uses(m, held, f)} :: f < |ref| ==> ref[f] == Uses(m, held, f)
  }

  ghost function Uses(m: map<Site, nat>, held: map<Holder, nat>, f: nat): nat {
    |Namers(m, f)| + |Namers(held, f)|
  }

  lemma CountsMap(ref: seq<nat>, m: map<Site, nat>, held: map<Holder, nat>, x: Site, g: nat)
    requires Counts(ref, m, held) && x !in m && g < |ref|
    ensures Counts(ref[g := ref[g] + 1], m[x := g], held)
  {
    var ref', m' := ref[g := ref[g] + 1], m[x := g];
    forall f: nat | f < |ref| ensures ref'[f] == Uses(m', held, f) {
      assert ref[f] == Uses(m, held, f);
      NamersAdd(m, x, g, f);
    }
  }

  lemma CountsUnmap(ref: seq<nat>, m: map<Site, nat>, held: map<Holder, nat>, x: Site)
    requires Counts(ref, m, held) && x in m && m[x] < |ref|
    ensures ref[m[x]] > 0 && Counts(ref[m[x] := ref[m[x]] - 1], m - {x}, held)
  {
    assert ref[m[x]] == Uses(m, held, m[x]);
    NamersDrop(m, x, m[x]);
    forall f: nat | f < |ref| ensures ref[m[x] := ref[m[x]] - 1][f] == Uses(m - {x}, held, f) {
      assert ref[f] == Uses(m, held, f);
      NamersDrop(m, x, f);
    }
  }

  lemma CountsHold(ref: seq<nat>, m: map<Site, nat>, held: map<Holder, nat>, h: Holder, g: nat)
    requires Counts(ref, m, held) && h !in held && g < |ref|
    ensures Counts(ref[g := ref[g] + 1], m, held[h := g])
  {
    var ref', held' := ref[g := ref[g] + 1], held[h := g];
    forall f: nat | f < |ref| ensures ref'[f] == Uses(m, held', f) {
      assert ref[f] == Uses(m, held, f);
      NamersAdd(held, h, g, f);
    }
  }

  lemma CountsRelease(ref: seq<nat>, m: map<Site, nat>, held: map<Holder, nat>, h: Holder)
    requires Counts(ref, m, held) && h in held && held[h] < |ref|
    ensures ref[held[h]] > 0 && Counts(ref[held[h] := ref[held[h]] - 1], m, held - {h})
  {
    assert ref[held[h]] == Uses(m, held, held[h]);
    NamersDrop(held, h, held[h]);
    forall f: nat | f < |ref| ensures ref[held[h] := ref[held[h]] - 1][f] == Uses(m, held - {h}, f) {
      assert ref[f] == Uses(m, held, f);
      NamersDrop(held, h, f);
    }
  }

  // ---- TLB pairs ----------------------------------------------------------------------

  /** The pair for two neighbouring user pages equals their two page-table words, of a
      space that is live, and is not empty. */
  ghost predicate PairIn(pair: (Word, Word), k: Pair, m: map<Site, Word>, held: map<Holder, nat>) {
    k.vpn2 < UTOP_VPN / 2 ==>
      && Table(k.asid, k.vpn2 / 512) in held
      && pair == (Hard(At(m, Site(k.asid, 2 * k.vpn2))), Hard(At(m, Site(k.asid, 2 * k.vpn2 + 1))))
      && (Site(k.asid, 2 * k.vpn2) in m || Site(k.asid, 2 * k.vpn2 + 1) in m)
  }

  /** Every TLB pair for user pages agrees with the page tables of its own space. */
  ghost predicate Cached(tlb: map<Pair, (Word, Word)>, m: map<Site, Word>, held: map<Holder, nat>) {
    forall k :: k in tlb ==> PairIn(tlb[k], k, m, held)
  }

  /** Changing one word is harmless once its pair is out of the TLB. */
  lemma CachedOneWord(tlb: map<Pair, (Word, Word)>, m: map<Site, Word>, m': map<Site, Word>, held: map<Holder, nat>,
    x: Site)
    requires Cached(tlb, m, held) && PairOf(x) !in tlb
    requires forall y :: y != x ==> (y in m' <==> y in m) && (y in m ==> m'[y] == m[y])
    ensures Cached(tlb, m', held)
  {
    forall k | k in tlb ensures PairIn(tlb[k], k, m', held) {
      assert PairIn(tlb[k], k, m, held);
      assert x != Site(k.asid, 2 * k.vpn2) && x != Site(k.asid, 2 * k.vpn2 + 1);
    }
  }

  lemma CachedHold(tlb: map<Pair, (Word, Word)>, m: map<Site, Word>, held: map<Holder, nat>, held': map<Holder, nat>)
    requires Cached(tlb, m, held) && forall h :: h in held && h.Table? ==> h in held'
    ensures Cached(tlb, m, held')
  {
    forall j | j in tlb ensures PairIn(tlb[j], j, m, held') {
      assert PairIn(tlb[j], j, m, held);
    }
  }

  /** Taking a page table away is harmless once nothing is mapped through it. */
  lemma CachedRelease(tlb: map<Pair, (Word, Word)>, m: map<Site, Word>, held: map<Holder, nat>, h: Holder)
    requires Cached(tlb, m, held)
    requires forall x :: x in m ==> TableOf(x) != h
    ensures Cached(tlb, m, held - {h})
  {
    forall j | j in tlb ensures PairIn(tlb[j], j, m, held - {h}) {
      assert PairIn(tlb[j], j, m, held);
      assert Site(j.asid, 2 * j.vpn2) in m ==> TableOf(Site(j.asid, 2 * j.vpn2)) != h;
      assert Site(j.asid, 2 * j.vpn2 + 1) in m ==> TableOf(Site(j.asid, 2 * j.vpn2 + 1)) != h;
      assert 2 * j.vpn2 / ENTRIES == j.vpn2 / 512 == (2 * j.vpn2 + 1) / ENTRIES;
    }
  }

  // ---- The invariant --------------------------------------------------------------------

  predicate HasRole(t: Spaces, f: nat, r: Role) {
    f in t.role && t.role[f] == r && f < t.npage
  }

  ghost predicate NoDup(q: seq<nat>) {
    forall i, j :: 0 <= i < j < |q| ==> q[i] != q[j]
  }

  /** The free list is duplicate-free and no frame on it is in use. */
  ghost predicate FreeOk(t: Spaces) {
    && NoDup(t.free)
    && (forall i :: 0 <= i < |t.free| ==> t.free[i] < t.npage && t.free[i] !in t.role)
  }

  /** A frame is held for one thing, or is a user frame; a mapped page has its page table,
      and a page table its directory. */
  ghost predicate RolesOk(t: Spaces) {
    && (forall h :: h in t.held ==> HasRole(t, t.held[h], Held(h)))
    && (forall x :: x in t.m ==> HasRole(t, t.m[x].ppn, User))
  }

  ghost predicate LinksOk(t: Spaces) {
    && (forall h :: h in t.held && h.Table? ==> Dir(h.a) in t.held && h.i < UTOP_PDX)
    && (forall h :: h in t.held && h.Pin? ==> t.held[h] == h.f)
    && (forall x :: x in t.m ==> TableOf(x) in t.held && x.vpn < UTOP_VPN && t.m[x].perm.v)
  }

  ghost predicate Ok(t: Spaces) {
    && |t.ref| == t.npage
    && FreeOk(t)
    && RolesOk(t)
    && LinksOk(t)
    && Counts(t.ref, Frames(t.m), t.held)
    && Cached(t.tlb, t.m, t.held)
  }

  // ---- page_decref ------------------------------------------------------------------------

  /** page_decref: the last reference puts the frame on the free list. */
  function Decref(t: Spaces, f: nat): Spaces
    requires f < |t.ref| && t.ref[f] > 0
  {
    var last := t.ref[f] == 1;
    t.(ref := t.ref[f := t.ref[f] - 1],
       free := if last then [f] + t.free else t.free,
       role := if last then t.role - {f} else t.role)
  }

  /** All of Ok but one reference too many on f. */
  ghost predicate OkButOne(t: Spaces, f: nat) {
    && |t.ref| == t.npage && f < t.npage && f in t.role && t.ref[f] > 0
    && FreeOk(t)
    && RolesOk(t)
    && LinksOk(t)
    && Counts(t.ref[f := t.ref[f] - 1], Frames(t.m), t.held)
    && Cached(t.tlb, t.m, t.held)
  }

  ghost predicate Unnamed(t: Spaces, f: nat) {
    Namers(Frames(t.m), f) == {} && Namers(t.held, f) == {}
  }

  lemma FreedRoles(t: Spaces, f: nat)
    requires FreeOk(t) && RolesOk(t) && f < t.npage && f in t.role && Unnamed(t, f)
    ensures var t' := t.(free := [f] + t.free, role := t.role - {f}); FreeOk(t') && RolesOk(t')
  {
    forall h | h in t.held ensures t.held[h] != f { assert h !in Namers(t.held, f); }
    forall x | x in t.m ensures t.m[x].ppn != f { assert x !in Namers(Frames(t.m), f); }
  }

  /** page_decref corrects the count, and frees the frame exactly when nothing names it. */
  lemma DecrefKeeps(t: Spaces, f: nat)
    requires OkButOne(t, f)
    ensures Ok(Decref(t, f)) && (t.ref[f] == 1 <==> Unnamed(t, f))
  {
    assert t.ref[f] - 1 == Uses(Frames(t.m), t.held, f);
    if t.ref[f] == 1 {
      FreedRoles(t, f);
    }
  }

  /** The role of a frame says who can name it. */
  lemma RoleOfNamer(t: Spaces, f: nat)
    requires RolesOk(t)
    ensures f !in t.role ==> Unnamed(t, f)
    ensures HasRole(t, f, User) ==> Namers(t.held, f) == {}
    ensures f in t.role && t.role[f].Held? ==> Namers(Frames(t.m), f) == {} && Namers(t.held, f) <= {t.role[f].h}
  {
  }

  /** A frame that page_insert may map: allocated, and not a kernel frame. */
  ghost predicate Mappable(t: Spaces, f: nat) {
    f < t.npage && f !in t.free && (f in t.role ==> t.role[f] == User)
  }

  // ---- page_remove, page_insert -----------------------------------------------------------

  lemma MappedIsReferenced(t: Spaces, x: Site)
    requires Ok(t) && x in t.m
    ensures t.m[x].ppn < t.npage && t.ref[t.m[x].ppn] > 0
  {
    CountsUnmap(t.ref, Frames(t.m), t.held, x);
  }

  function Dropped(t: Spaces, x: Site): Spaces {
    t.(m := t.m - {x}, tlb := t.tlb - {PairOf(x)})
  }

  lemma DroppedIsOkButOne(t: Spaces, x: Site)
    requires Ok(t) && x in t.m
    ensures OkButOne(Dropped(t, x), t.m[x].ppn)
  {
    CountsUnmap(t.ref, Frames(t.m), t.held, x);
    assert Frames(t.m - {x}) == Frames(t.m) - {x};
    CachedOneWord(t.tlb - {PairOf(x)}, t.m, t.m - {x}, t.held, x);
  }

  ghost function Removed(t: Spaces, x: Site): Spaces
    requires Ok(t)
  {
    if x !in t.m then t
    else
      MappedIsReferenced(t, x);
      Decref(Dropped(t, x), t.m[x].ppn)
  }

  lemma LastNamer(m: map<Site, Word>, x: Site)
    requires x in m
    ensures Namers(Frames(m - {x}), m[x].ppn) == {} <==> Namers(Frames(m), m[x].ppn) == {x}
  {
    assert Namers(Frames(m - {x}), m[x].ppn) == Namers(Frames(m), m[x].ppn) - {x};
    assert x in Namers(Frames(m), m[x].ppn);
  }

  /** page_remove takes exactly x out, frees its frame exactly when x was the last word
      naming it, and leaves every other frame's count alone. */
  lemma RemovedKeeps(t: Spaces, x: Site)
    requires Ok(t)
    ensures Ok(Removed(t, x)) && Removed(t, x).m == t.m - {x} && Removed(t, x).held == t.held
    ensures x in t.m ==>
      Removed(t, x).free == (if Namers(Frames(t.m), t.m[x].ppn) == {x} then [t.m[x].ppn] else []) + t.free
  {
    if x in t.m {
      DroppedIsOkButOne(t, x);
      DecrefKeeps(Dropped(t, x), t.m[x].ppn);
      RoleOfNamer(t, t.m[x].ppn);
      LastNamer(t.m, x);
    } else {
      assert t.m - {x} == t.m;
    }
  }

  lemma RemovedOthers(t: Spaces, x: Site, f: nat)
    requires Ok(t) && Mappable(t, f) && (x in t.m ==> t.m[x].ppn != f)
    ensures Mappable(Removed(t, x), f) && f < |t.ref| && Removed(t, x).ref[f] == t.ref[f]
  {
    if x in t.m { MappedIsReferenced(t, x); }
  }

  function Added(t: Spaces, x: Site, f: nat, perm: Perm): Spaces
    requires f < |t.ref|
  {
    t.(m := t.m[x := Word(f, WithCV(perm))], ref := t.ref[f := t.ref[f] + 1], role := t.role[f := User])
  }

  lemma AddedRoles(t: Spaces, x: Site, f: nat, perm: Perm)
    requires FreeOk(t) && RolesOk(t) && Mappable(t, f) && |t.ref| == t.npage
    ensures FreeOk(Added(t, x, f, perm)) && RolesOk(Added(t, x, f, perm))
  {
  }

  lemma AddedKeeps(t: Spaces, x: Site, f: nat, perm: Perm)
    requires Ok(t) && x !in t.m && Mappable(t, f) && PairOf(x) !in t.tlb
    requires x.vpn < UTOP_VPN && TableOf(x) in t.held
    ensures Ok(Added(t, x, f, perm))
  {
    var w := Word(f, WithCV(perm));
    AddedRoles(t, x, f, perm);
    CountsMap(t.ref, Frames(t.m), t.held, x, f);
    assert Frames(t.m[x := w]) == Frames(t.m)[x := f];
    CachedOneWord(t.tlb, t.m, t.m[x := w], t.held, x);
  }

  function Remapped(t: Spaces, x: Site, perm: Perm): Spaces
    requires x in t.m
  {
    t.(m := t.m[x := Word(t.m[x].ppn, WithCV(perm))], tlb := t.tlb - {PairOf(x)})
  }

  lemma RemappedKeeps(t: Spaces, x: Site, perm: Perm)
    requires Ok(t) && x in t.m
    ensures Ok(Remapped(t, x, perm))
  {
    var w := Word(t.m[x].ppn, WithCV(perm));
    assert Frames(t.m[x := w]) == Frames(t.m);
    CachedOneWord(t.tlb - {PairOf(x)}, t.m, t.m[x := w], t.held, x);
  }

  function Invalidated(t: Spaces, k: Pair): Spaces {
    t.(tlb := t.tlb - {k})
  }

  lemma InvalidatedKeeps(t: Spaces, k: Pair)
    requires Ok(t)
    ensures Ok(Invalidated(t, k))
  {
  }

  /** page_alloc takes the head of the free list. */
  function Taken(t: Spaces): Spaces
    requires t.free != []
  {
    t.(free := t.free[1..])
  }

  /** The frame page_alloc hands out is counted 0 and named by nothing. */
  lemma TakenKeeps(t: Spaces)
    requires Ok(t) && t.free != []
    ensures Ok(Taken(t))
    ensures var f := t.free[0];
      f < t.npage && f !in t.role && f !in t.free[1..] && t.ref[f] == 0 && Unnamed(t, f)
  {
    var f := t.free[0];
    RoleOfNamer(t, f);
    assert t.ref[f] == Uses(Frames(t.m), t.held, f);
    forall i, j | 0 <= i < j < |t.free[1..]| ensures t.free[1..][i] != t.free[1..][j] {
      assert t.free[1..][i] == t.free[i + 1] && t.free[1..][j] == t.free[j + 1];
    }
    forall i | 0 <= i < |t.free[1..]|
      ensures t.free[1..][i] < t.npage && t.free[1..][i] !in t.role && t.free[1..][i] != f {
      assert t.free[1..][i] == t.free[i + 1];
    }
  }

  /** The kernel starts to hold the unused frame f as h. */
  function Holding(t: Spaces, h: Holder, f: nat): Spaces
    requires f < |t.ref|
  {
    t.(held := t.held[h := f], ref := t.ref[f := t.ref[f] + 1], role := t.role[f := Held(h)])
  }

  lemma HoldingKeeps(t: Spaces, h: Holder, f: nat)
    requires Ok(t) && h !in t.held && f < t.npage && f !in t.role && f !in t.free
    requires h.Table? ==> Dir(h.a) in t.held && h.i < UTOP_PDX
    requires h.Pin? ==> f == h.f
    ensures Ok(Holding(t, h, f))
  {
    HoldingRoles(t, h, f);
    CountsHold(t.ref, Frames(t.m), t.held, h, f);
    CachedHold(t.tlb, t.m, t.held, t.held[h := f]);
  }

  lemma HoldingRoles(t: Spaces, h: Holder, f: nat)
    requires FreeOk(t) && RolesOk(t) && h !in t.held && f < t.npage && f !in t.role && f !in t.free &&
      |t.ref| == t.npage
    ensures FreeOk(Holding(t, h, f)) && RolesOk(Holding(t, h, f))
  {
  }

  /** pgdir_walk with `create`: a missing page table is made when a frame is free. */
  ghost function Walked(t: Spaces, x: Site): Spaces
    requires Ok(t)
  {
    if TableOf(x) in t.held || t.free == [] then t
    else
      TakenKeeps(t);
      Holding(Taken(t), TableOf(x), t.free[0])
  }

  lemma WalkedKeeps(t: Spaces, x: Site)
    requires Ok(t) && Dir(x.a) in t.held && x.vpn < UTOP_VPN
    ensures Ok(Walked(t, x)) && Walked(t, x).m == t.m && Walked(t, x).tlb == t.tlb
    ensures TableOf(x) in Walked(t, x).held <==> TableOf(x) in t.held || t.free != []
    ensures forall h :: h in t.held ==> h in Walked(t, x).held && Walked(t, x).held[h] == t.held[h]
  {
    if TableOf(x) !in t.held && t.free != [] {
      TakenKeeps(t);
      HoldingKeeps(Taken(t), TableOf(x), t.free[0]);
    }
  }

  lemma WalkedOthers(t: Spaces, x: Site, f: nat)
    requires Ok(t) && Mappable(t, f)
    ensures Mappable(Walked(t, x), f) && f < |t.ref| && Walked(t, x).ref[f] == t.ref[f]
  {
    if TableOf(x) !in t.held && t.free != [] { TakenKeeps(t); }
  }

  /** page_insert fails exactly when the page table is missing and no frame is free. */
  predicate InsertFails(t: Spaces, x: Site) {
    TableOf(x) !in t.held && t.free == []
  }

  // ---- Whole address spaces -----------------------------------------------------------------

  /** Pinned frame f goes over to holder h. */
  function Handed(t: Spaces, f: nat, h: Holder): Spaces {
    t.(held := (t.held - {Pin(f)})[h := f], role := t.role[f := Held(h)])
  }

  lemma HandedKeeps(t: Spaces, f: nat, h: Holder)
    requires Ok(t) && Pin(f) in t.held && h !in t.held && (h.Dir? || h.Vars?)
    ensures Ok(Handed(t, f, h))
  {
    var t' := Handed(t, f, h);
    assert HasRole(t, f, Held(Pin(f)));
    CountsRelease(t.ref, Frames(t.m), t.held, Pin(f));
    CountsHold(t.ref[f := t.ref[f] - 1], Frames(t.m), t.held - {Pin(f)}, h, f);
    assert t.ref[f := t.ref[f] - 1][f := t.ref[f]] == t.ref;
    CachedHold(t.tlb, t.m, t.held, t'.held);
  }

  lemma HeldCount(t: Spaces, h: Holder)
    requires Ok(t) && h in t.held
    ensures t.held[h] < t.npage && t.ref[t.held[h]] == 1
  {
    RoleOfNamer(t, t.held[h]);
    assert t.ref[t.held[h]] == Uses(Frames(t.m), t.held, t.held[h]);
    assert Namers(t.held, t.held[h]) == {h};
  }

  /** The kernel lets go of a frame it holds: it is freed. */
  ghost function Released(t: Spaces, h: Holder): Spaces
    requires Ok(t) && h in t.held
  {
    HeldCount(t, h);
    Decref(t.(held := t.held - {h}), t.held[h])
  }

  /** Letting go of an empty page table, or of the directory of a space without page
      tables, or of a variable table, frees that frame and changes no translation. */
  lemma ReleasedKeeps(t: Spaces, h: Holder)
    requires Ok(t) && h in t.held
    requires h.Table? ==> forall x :: x in t.m ==> TableOf(x) != h
    requires h.Dir? ==> forall k :: k in t.held && k.Table? ==> k.a != h.a
    ensures Ok(Released(t, h)) && Released(t, h).m == t.m && Released(t, h).held == t.held - {h}
    ensures Released(t, h).free == [t.held[h]] + t.free
  {
    HeldCount(t, h);
    CountsRelease(t.ref, Frames(t.m), t.held, h);
    if h.Table? { CachedRelease(t.tlb, t.m, t.held, h); } else { CachedHold(t.tlb, t.m, t.held, t.held - {h}); }
    DecrefKeeps(t.(held := t.held - {h}), t.held[h]);
  }

  /** Once a space has no page table left, no TLB pair for a user page carries its ASID. */
  lemma ClosedSpaceIsNotCached(t: Spaces, a: nat)
    requires Ok(t) && forall k :: k in t.held && k.Table? ==> k.a != a
    ensures forall p :: p in t.tlb && p.asid == a ==> p.vpn2 >= UTOP_VPN / 2
  {
    forall p | p in t.tlb && p.asid == a ensures p.vpn2 >= UTOP_VPN / 2 {
      assert PairIn(t.tlb[p], p, t.m, t.held);
    }
  }

  // ---- TLB refill -----------------------------------------------------------------------------

  /** tlbwr: the two words of x's pair go into the TLB in place of some other pairs. */
  function Refilled(t: Spaces, x: Site, victims: set<Pair>): Spaces {
    var even := x.vpn / 2 * 2;
    t.(tlb := (t.tlb - victims)[PairOf(x) := (Hard(At(t.m, Site(x.a, even))), Hard(At(t.m, Site(x.a, even + 1))))])
  }

  lemma RefilledKeeps(t: Spaces, x: Site, victims: set<Pair>)
    requires Ok(t) && x in t.m
    ensures Ok(Refilled(t, x, victims))
  {
    var t' := Refilled(t, x, victims);
    forall k | k in t'.tlb ensures PairIn(t'.tlb[k], k, t'.m, t'.held) {
      if k == PairOf(x) {
        assert x.vpn == 2 * k.vpn2 || x.vpn == 2 * k.vpn2 + 1;
        assert k.vpn2 / 512 == x.vpn / ENTRIES;
      } else {
        assert PairIn(t.tlb[k], k, t.m, t.held);
      }
    }
  }

  /** What the hardware finds for page x: the half of the pair of x's own ASID. */
  function Translate(tlb: map<Pair, (Word, Word)>, x: Site): Word
    requires PairOf(x) in tlb
  {
    if x.vpn % 2 == 0 then tlb[PairOf(x)].0 else tlb[PairOf(x)].1
  }

  /** The TLB has page x as m has it: its frame and hardware bits if it is mapped, and invalid
      otherwise. */
  predicate Serves(tlb: map<Pair, (Word, Word)>, m: map<Site, Word>, x: Site) {
    && PairOf(x) in tlb && (x !in m ==> !Translate(tlb, x).perm.v)
    && (x in m ==> Caches(Translate(tlb, x), m[x]))
  }

  /** Going through the TLB and walking the page table give the same frame, hardware bits
      and all, whenever the TLB has an entry for the page at all. */
  lemma TlbAgreesWithWalk(t: Spaces, x: Site)
    requires Ok(t) && PairOf(x) in t.tlb && x.vpn < UTOP_VPN
    ensures Dir(x.a) in t.held && Serves(t.tlb, t.m, x)
  {
    assert PairIn(t.tlb[PairOf(x)], PairOf(x), t.m, t.held);
    assert x.vpn == 2 * (x.vpn / 2) + x.vpn % 2;
  }

  /** How the processor matches TLB entry k against page x: by page pair, and by ASID
      unless both halves of the entry are global. */
  predicate Hits(tlb: map<Pair, (Word, Word)>, k: Pair, x: Site) {
    k in tlb && k.vpn2 == x.vpn / 2 && (k.asid == x.a || (tlb[k].0.perm.g && tlb[k].1.perm.g))
  }

  /** A cached pair of user pages with both its words global. */
  predicate IsGlobal(tlb: map<Pair, (Word, Word)>, k: Pair) {
    k in tlb && k.vpn2 < UTOP_VPN / 2 && tlb[k].0.perm.g && tlb[k].1.perm.g
  }

  /** No address space is ever served a user page from another one's entries, if and only if
      no pair of user pages is cached with both words global while another space is live. */
  lemma HitsAreOwnIff(t: Spaces)
    ensures (forall k, x :: Hits(t.tlb, k, x) && x.vpn < UTOP_VPN && Dir(x.a) in t.held ==> k == PairOf(x)) <==>
      (forall k, b: nat :: IsGlobal(t.tlb, k) && Dir(b) in t.held ==> b == k.asid)
  {
    forall k, b: nat | IsGlobal(t.tlb, k) && Dir(b) in t.held && b != k.asid
      ensures exists x :: Hits(t.tlb, k, x) && x.vpn < UTOP_VPN && Dir(x.a) in t.held && k != PairOf(x)
    {
      var x := Site(b, 2 * k.vpn2);
      assert Hits(t.tlb, k, x) && x.vpn < UTOP_VPN && k != PairOf(x);
    }
    forall k, x | Hits(t.tlb, k, x) && x.vpn < UTOP_VPN && Dir(x.a) in t.held && k != PairOf(x)
      ensures IsGlobal(t.tlb, k) && x.a != k.asid
    {
    }
  }

  /** The refill for page x caches a global pair exactly when the space maps both pages of
      the pair with PTE_G, which no system call refuses. */
  lemma RefillIsGlobalIff(t: Spaces, x: Site, victims: set<Pair>)
    requires Ok(t) && x in t.m
    ensures var even, odd := Site(x.a, x.vpn / 2 * 2), Site(x.a, x.vpn / 2 * 2 + 1);
      IsGlobal(Refilled(t, x, victims).tlb, PairOf(x)) <==>
        even in t.m && odd in t.m && t.m[even].perm.g && t.m[odd].perm.g
  {
  }

  /** A global pair is cached only for a space that maps both pages with PTE_G. */
  lemma GlobalPairsAreMapped(t: Spaces, k: Pair)
    requires Ok(t) && IsGlobal(t.tlb, k)
    ensures var even, odd := Site(k.asid, 2 * k.vpn2), Site(k.asid, 2 * k.vpn2 + 1);
      even in t.m && odd in t.m && t.m[even].perm.g && t.m[odd].perm.g
  {
    assert PairIn(t.tlb[k], k, t.m, t.held);
  }
}
