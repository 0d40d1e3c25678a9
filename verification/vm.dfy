/** Two-level page tables in physical memory represent the flat address spaces, and what
    every elementary store into them does to the map they represent (kern/pmap.c). */
module Vm {
  import opened Mmu
  import opened Spaces

  /** Permissions of a directory entry: PTE_C_CACHEABLE | PTE_V. */
  const LINK_PERM := WithCV(NO_PERM)

  type Frames1024 = seq<seq<Word>>

  ghost predicate Sized(mem: Frames1024) {
    forall f :: 0 <= f < |mem| ==> |mem[f]| == ENTRIES
  }

  /** No frame is held for two purposes: its role names its one holder. */
  ghost predicate Placed(held: map<Holder, nat>, role: map<nat, Role>) {
    forall h :: h in held ==> held[h] in role && role[held[h]] == Held(h)
  }

  /** The directories are those the kernel holds, and an entry below UTOP is 0 or the
      valid link to the page table held for it. */
  ghost predicate Directories(mem: Frames1024, dirs: map<nat, nat>, held: map<Holder, nat>)
    requires Sized(mem) && forall h :: h in held ==> held[h] < |mem|
  {
    && (forall a :: a in dirs <==> Dir(a) in held)
    && (forall a :: a in dirs ==> dirs[a] == held[Dir(a)])
    && (forall h :: h in held && h.Table? ==> h.a in dirs && h.i < UTOP_PDX)
    && (forall a, i :: a in dirs && 0 <= i < UTOP_PDX ==> mem[dirs[a]][i] == Entry(held, a, i))
  }

  function Entry(held: map<Holder, nat>, a: nat, i: nat): Word {
    if Table(a, i) in held then Word(held[Table(a, i)], LINK_PERM) else ZERO
  }

  /** Every page table holds, for each of its pages, the word m has for it. */
  ghost predicate Tables(mem: Frames1024, held: map<Holder, nat>, m: map<Site, Word>)
    requires Sized(mem) && forall h :: h in held ==> held[h] < |mem|
  {
    forall x: Site :: TableOf(x) in held ==> mem[held[TableOf(x)]][x.vpn % ENTRIES] == At(m, x)
  }

  ghost predicate Represents(mem: Frames1024, dirs: map<nat, nat>, held: map<Holder, nat>, m: map<Site, Word>) {
    && Sized(mem)
    && (forall h :: h in held ==> held[h] < |mem|)
    && Directories(mem, dirs, held)
    && Tables(mem, held, m)
    && (forall x :: x in m ==> TableOf(x) in held)
  }

  /** va2pa and page_lookup: the word a two-level walk reads for page x. */
  function Walk(mem: Frames1024, dirs: map<nat, nat>, x: Site): Word
    requires Sized(mem) && x.a in dirs && dirs[x.a] < |mem| && x.vpn < UTOP_VPN
    requires mem[dirs[x.a]][x.vpn / ENTRIES] != ZERO ==> mem[dirs[x.a]][x.vpn / ENTRIES].ppn < |mem|
  {
    var e := mem[dirs[x.a]][x.vpn / ENTRIES];
    if e == ZERO then ZERO else mem[e.ppn][x.vpn % ENTRIES]
  }

  /** Walking two levels finds exactly the flat map's word. */
  lemma WalkFinds(mem: Frames1024, dirs: map<nat, nat>, held: map<Holder, nat>, m: map<Site, Word>, x: Site)
    requires Represents(mem, dirs, held, m) && x.a in dirs && x.vpn < UTOP_VPN
    ensures dirs[x.a] < |mem| && mem[dirs[x.a]][x.vpn / ENTRIES] == Entry(held, x.a, x.vpn / ENTRIES)
    ensures Walk(mem, dirs, x) == At(m, x)
  {
    assert mem[dirs[x.a]][x.vpn / ENTRIES] == Entry(held, x.a, x.vpn / ENTRIES);
  }

  function Stored(m: map<Site, Word>, x: Site, w: Word): map<Site, Word> {
    if w == ZERO then m - {x} else m[x := w]
  }

  /** A store through the walk changes one word of one page table: no other page of any
      address space, and no directory. */
  lemma StoreWord(mem: Frames1024, dirs: map<nat, nat>, held: map<Holder, nat>, role: map<nat, Role>, m: map<Site,
    Word>, x: Site, w: Word)
    requires Represents(mem, dirs, held, m) && Placed(held, role) && TableOf(x) in held
    ensures var t := held[TableOf(x)];
      Represents(mem[t := mem[t][x.vpn % ENTRIES := w]], dirs, held, Stored(m, x, w))
  {
    var t := held[TableOf(x)];
    var mem' := mem[t := mem[t][x.vpn % ENTRIES := w]];
    var m' := Stored(m, x, w);
    forall y: Site | TableOf(y) in held
      ensures mem'[held[TableOf(y)]][y.vpn % ENTRIES] == At(m', y)
    {
      assert mem[held[TableOf(y)]][y.vpn % ENTRIES] == At(m, y);
      if TableOf(y) == TableOf(x) && y.vpn % ENTRIES == x.vpn % ENTRIES {
        assert y.vpn == ENTRIES * (y.vpn / ENTRIES) + y.vpn % ENTRIES;
        assert x.vpn == ENTRIES * (x.vpn / ENTRIES) + x.vpn % ENTRIES;
      }
    }
    assert forall a :: a in dirs ==> Dir(a) in held && held[Dir(a)] != t;
  }

  /** Overwriting a frame that is neither directory nor page table moves no translation. */
  lemma FillFrame(mem: Frames1024, dirs: map<nat, nat>, held: map<Holder, nat>, m: map<Site, Word>, f: nat,
    words: seq<Word>)
    requires Represents(mem, dirs, held, m) && f < |mem| && |words| == ENTRIES
    requires forall h :: h in held && held[h] == f ==> h.Vars? || h.Pin?
    ensures Represents(mem[f := words], dirs, held, m)
  {
    assert forall a :: a in dirs ==> Dir(a) in held && dirs[a] != f;
    assert forall x: Site :: TableOf(x) in held ==> held[TableOf(x)] != f;
  }

  function ZeroFrame(): (z: seq<Word>)
    ensures |z| == ENTRIES && forall i :: 0 <= i < ENTRIES ==> z[i] == ZERO
  {
    seq(ENTRIES, _ => ZERO)
  }

  /** Linking a cleared frame as a page table changes no translation. */
  lemma LinkTable(mem: Frames1024, dirs: map<nat, nat>, held: map<Holder, nat>, role: map<nat, Role>, m: map<Site,
    Word>, a: nat, i: nat, f: nat)
    requires Represents(mem, dirs, held, m) && Placed(held, role) && a in dirs && i < UTOP_PDX && Table(a, i) !in held
    requires f < |mem| && mem[f] == ZeroFrame() && forall h :: h in held ==> held[h] != f
    ensures Represents(mem[dirs[a] := mem[dirs[a]][i := Word(f, LINK_PERM)]], dirs, held[Table(a, i) := f], m)
  {
    var mem' := mem[dirs[a] := mem[dirs[a]][i := Word(f, LINK_PERM)]];
    var held' := held[Table(a, i) := f];
    assert Dir(a) in held && dirs[a] == held[Dir(a)];
    forall b, k | b in dirs && 0 <= k < UTOP_PDX ensures mem'[dirs[b]][k] == Entry(held', b, k) {
      assert mem[dirs[b]][k] == Entry(held, b, k);
      assert Dir(b) in held && dirs[b] == held[Dir(b)];
    }
    forall x: Site | TableOf(x) in held' ensures mem'[held'[TableOf(x)]][x.vpn % ENTRIES] == At(m, x) {
      assert held'[TableOf(x)] != dirs[a];
    }
  }

  /** Taking away a page table through which nothing is mapped changes no translation. */
  lemma UnlinkTable(mem: Frames1024, dirs: map<nat, nat>, held: map<Holder, nat>, role: map<nat, Role>, m: map<Site,
    Word>, a: nat, i: nat)
    requires Represents(mem, dirs, held, m) && Placed(held, role) && a in dirs && i < UTOP_PDX
    requires forall x :: x in m ==> TableOf(x) != Table(a, i)
    ensures Represents(mem[dirs[a] := mem[dirs[a]][i := ZERO]], dirs, held - {Table(a, i)}, m)
  {
    var mem' := mem[dirs[a] := mem[dirs[a]][i := ZERO]];
    var held' := held - {Table(a, i)};
    assert Dir(a) in held && dirs[a] == held[Dir(a)];
    forall b, k | b in dirs && 0 <= k < UTOP_PDX ensures mem'[dirs[b]][k] == Entry(held', b, k) {
      assert mem[dirs[b]][k] == Entry(held, b, k);
      assert Dir(b) in held && dirs[b] == held[Dir(b)];
    }
    forall x: Site | TableOf(x) in held' ensures mem'[held'[TableOf(x)]][x.vpn % ENTRIES] == At(m, x) {
      assert held[TableOf(x)] != dirs[a];
    }
  }

  /** A frame held on its own, with zero entries below UTOP, becomes a directory: the new
      space maps nothing. */
  lemma OpenDirectory(mem: Frames1024, dirs: map<nat, nat>, held: map<Holder, nat>, role: map<nat, Role>, m: map<Site,
    Word>, a: nat, d: nat)
    requires Represents(mem, dirs, held, m) && Placed(held, role) && a !in dirs && Pin(d) in held && held[Pin(d)] == d
    requires forall i :: 0 <= i < UTOP_PDX ==> mem[d][i] == ZERO
    ensures Represents(mem, dirs[a := d], (held - {Pin(d)})[Dir(a) := d], m)
  {
    var held' := (held - {Pin(d)})[Dir(a) := d];
    assert Dir(a) !in held;
    forall b, k | b in dirs && 0 <= k < UTOP_PDX ensures mem[dirs[b]][k] == Entry(held', b, k) {
      assert mem[dirs[b]][k] == Entry(held, b, k);
    }
  }

  lemma CloseDirectory(mem: Frames1024, dirs: map<nat, nat>, held: map<Holder, nat>, m: map<Site, Word>, a: nat)
    requires Represents(mem, dirs, held, m) && a in dirs
    requires forall h :: h in held && h.Table? ==> h.a != a
    ensures Represents(mem, dirs - {a}, held - {Dir(a)}, m)
  {
    var held' := held - {Dir(a)};
    forall b, k | b in dirs && b != a && 0 <= k < UTOP_PDX ensures mem[dirs[b]][k] == Entry(held', b, k) {
      assert mem[dirs[b]][k] == Entry(held, b, k);
    }
  }

  /** Variable tables and pinned frames do not enter the translation. */
  lemma OtherHolders(mem: Frames1024, dirs: map<nat, nat>, held: map<Holder, nat>, held': map<Holder, nat>,
    m: map<Site, Word>)
    requires Represents(mem, dirs, held, m) && forall h :: h in held' ==> held'[h] < |mem|
    requires forall h: Holder :: h.Dir? || h.Table? ==>
      (h in held' <==> h in held) && (h in held ==> held'[h] == held[h])
    ensures Represents(mem, dirs, held', m)
  {
    forall b, k | b in dirs && 0 <= k < UTOP_PDX ensures mem[dirs[b]][k] == Entry(held', b, k) {
      assert mem[dirs[b]][k] == Entry(held, b, k);
    }
  }
}
