/** Copy-on-write fork, preempted at any access or system call (user/lib/fork.c), and why
    it behaves like copying every page at once. */
module Cow {
  import opened Common
  import opened Mmu

  datatype Pte = Pte(frame: nat, perm: Perm)

  /** duppage of page vpn for `child`, with the permissions it read; `mapped`: the child
      has its copy-on-write mapping, the caller not yet. */
  datatype Dup = Dup(child: nat, vpn: nat, perm: Perm, mapped: bool)

  /** How far cow_entry has come: permissions read; k bytes copied to UCOW; mapped at va. */
  datatype Stage = Begun | Copying(k: nat) | Placed

  datatype Fault = Fault(vpn: nat, perm: Perm, stage: Stage)

  /** `parent`: children still being built; `dups`, `faults`: the envs that are inside
      duppage or cow_entry. */
  datatype State = State(
    pt: map<Site, Pte>,
    data: seq<Page>,
    live: set<nat>,
    parent: map<nat, nat>,
    dups: map<nat, Dup>,
    faults: map<nat, Fault>)

  datatype Step =
    | Write(x: Site, i: nat, b: Byte)
    | Touch(x: Site, f: nat)
    | Alloc(x: Site, perm: Perm, f: nat)
    | Unmap(x: Site)
    | Share(src: Site, dst: Site, perm: Perm)
    | Exofork(e: nat, c: nat)
    | DupStart(e: nat, c: nat, vpn: nat)
    | DupChild(e: nat)
    | DupSelf(e: nat)
    | SetRunnable(c: nat)
    | Destroy(e: nat)
    | FaultStart(x: Site)
    | FaultAlloc(e: nat, f: nat)
    | FaultCopy(e: nat)
    | FaultMap(e: nat)
    | FaultUnmap(e: nat)

  function ZeroPage(): (p: Page)
    ensures forall i :: 0 <= i < PAGE_SIZE ==> p[i] == 0
  {
    seq(PAGE_SIZE, _ => 0)
  }

  function Ucow(e: nat): Site { Site(e, UCOW_VPN) }

  // ---- What each step needs and does ------------------------------------------------------

  /** e can execute user code: it exists, is not being built and not in its fault handler. */
  predicate Runs(s: State, e: nat) {
    e in s.live && e !in s.parent && e !in s.faults
  }

  /** e runs and is not inside duppage. */
  predicate Idle(s: State, e: nat) {
    Runs(s, e) && e !in s.dups
  }

  /** page_alloc's promise: frame f is mapped nowhere. */
  ghost predicate Fresh(s: State, f: nat) {
    f < |s.data| && forall x :: x in s.pt ==> s.pt[x].frame != f
  }

  /** duppage's second branch: the page is writable, private and not yet copy-on-write. */
  predicate Splits(p: Perm) {
    p.d && !p.lib && !p.cow
  }

  /** A store succeeds: the processor allows it, or cow_entry makes the page writable. */
  predicate CanStore(p: Perm) {
    p.d || p.cow
  }

  function Marked(p: Perm): Perm { WithCV(p.(d := false, cow := true)) }

  function Unmarked(p: Perm): Perm { WithCV(p.(d := true, cow := false)) }

  ghost predicate Enabled(s: State, step: Step) {
    match step
    case Write(x, i, _) =>
      Runs(s, x.a) && x in s.pt && x.vpn != UCOW_VPN && s.pt[x].perm.d && i < PAGE_SIZE && s.pt[x].frame < |s.data|
    case Touch(x, f) => Runs(s, x.a) && x !in s.pt && x.vpn != UCOW_VPN && Fresh(s, f)
    case Alloc(x, perm, f) => Idle(s, x.a) && x.vpn != UCOW_VPN && !perm.cow && Fresh(s, f)
    case Unmap(x) => Idle(s, x.a) && x.vpn != UCOW_VPN
    case Share(src, dst, perm) =>
      && Idle(s, src.a) && Idle(s, dst.a) && src in s.pt && dst.vpn != UCOW_VPN
      && s.pt[src].perm.lib && perm.lib && !perm.cow
    case Exofork(e, c) => Idle(s, e) && c !in s.live
    case DupStart(e, c, vpn) => Idle(s, e) && c in s.parent && s.parent[c] == e && Site(e, vpn) in s.pt
    case DupChild(e) => Runs(s, e) && e in s.dups && !s.dups[e].mapped && Site(e, s.dups[e].vpn) in s.pt
    case DupSelf(e) => Runs(s, e) && e in s.dups && s.dups[e].mapped && Site(e, s.dups[e].vpn) in s.pt
    case SetRunnable(c) => c in s.parent && Idle(s, s.parent[c])
    case Destroy(e) => Idle(s, e) && forall c :: c in s.parent ==> s.parent[c] != e
    case FaultStart(x) => Runs(s, x.a) && x in s.pt && s.pt[x].perm.cow
    case FaultAlloc(e, f) => e in s.faults && s.faults[e].stage == Begun && Fresh(s, f)
    case FaultCopy(e) =>
      && e in s.faults && s.faults[e].stage.Copying? && s.faults[e].stage.k < PAGE_SIZE
      && Ucow(e) in s.pt && s.pt[Ucow(e)].frame < |s.data|
      && Site(e, s.faults[e].vpn) in s.pt && s.pt[Site(e, s.faults[e].vpn)].frame < |s.data|
    case FaultMap(e) => e in s.faults && s.faults[e].stage == Copying(PAGE_SIZE) && Ucow(e) in s.pt
    case FaultUnmap(e) => e in s.faults && s.faults[e].stage == Placed
  }

  function Do(s: State, step: Step): State
    requires Enabled(s, step)
  {
    match step
    case Write(x, i, b) =>
      var f := s.pt[x].frame;
      s.(data := s.data[f := s.data[f][i := b]])
    case Touch(x, f) => s.(pt := s.pt[x := Pte(f, WithCV(PERM_D))], data := s.data[f := ZeroPage()])
    case Alloc(x, perm, f) => s.(pt := s.pt[x := Pte(f, WithCV(perm))], data := s.data[f := ZeroPage()])
    case Unmap(x) => s.(pt := s.pt - {x})
    case Share(src, dst, perm) => s.(pt := s.pt[dst := Pte(s.pt[src].frame, WithCV(perm))])
    case Exofork(e, c) => s.(live := s.live + {c}, parent := s.parent[c := e])
    case DupStart(e, c, vpn) => s.(dups := s.dups[e := Dup(c, vpn, s.pt[Site(e, vpn)].perm, false)])
    case DupChild(e) =>
      var d := s.dups[e];
      var f := s.pt[Site(e, d.vpn)].frame;
      if Splits(d.perm) then
        s.(pt := s.pt[Site(d.child, d.vpn) := Pte(f, Marked(d.perm))], dups := s.dups[e := d.(mapped := true)])
      else
        s.(pt := s.pt[Site(d.child, d.vpn) := Pte(f, WithCV(d.perm))], dups := s.dups - {e})
    case DupSelf(e) =>
      var x := Site(e, s.dups[e].vpn);
      s.(pt := s.pt[x := Pte(s.pt[x].frame, Marked(s.dups[e].perm))], dups := s.dups - {e})
    case SetRunnable(c) => s.(parent := s.parent - {c})
    case Destroy(e) => s.(pt := map x | x in s.pt && x.a != e :: s.pt[x], live := s.live - {e})
    case FaultStart(x) => s.(faults := s.faults[x.a := Fault(x.vpn, s.pt[x].perm, Begun)])
    case FaultAlloc(e, f) =>
      s.(pt := s.pt[Ucow(e) := Pte(f, Unmarked(s.faults[e].perm))], data := s.data[f := ZeroPage()],
         faults := s.faults[e := s.faults[e].(stage := Copying(0))])
    case FaultCopy(e) =>
      var f, g, k := s.pt[Site(e, s.faults[e].vpn)].frame, s.pt[Ucow(e)].frame, s.faults[e].stage.k;
      s.(data := s.data[g := s.data[g][k := s.data[f][k]]],
        faults := s.faults[e := s.faults[e].(stage := Copying(k + 1))])
    case FaultMap(e) =>
      s.(pt := s.pt[Site(e, s.faults[e].vpn) := Pte(s.pt[Ucow(e)].frame, Unmarked(s.faults[e].perm))],
         faults := s.faults[e := s.faults[e].(stage := Placed)])
    case FaultUnmap(e) => s.(pt := s.pt - {Ucow(e)}, faults := s.faults - {e})
  }

  // ---- The eager machine --------------------------------------------------------------------

  /** A page of its own, or a PTE_LIBRARY page: one object seen at several places.  `writable`:
      a store to the page succeeds, at once or after a copy. */
  datatype Cell = Private(page: Page, writable: bool) | Shared(id: nat, page: Page, writable: bool)

  type Eager = map<Site, Cell>

  datatype Event =
    | Stutter | Store(x: Site, i: nat, b: Byte) | New(x: Site, cell: Cell) | Drop(x: Site)
    | Copy(src: Site, dst: Site) | Link(src: Site, dst: Site, writable: bool) | End(e: nat)

  ghost predicate Same(m: Eager, x: Site, y: Site)
    requires x in m && y in m
  {
    x == y || (m[x].Shared? && m[y].Shared? && m[x].id == m[y].id)
  }

  /** Private pages are written alone, and copied when they are copied. */
  ghost function Perform(m: Eager, event: Event): Eager
    requires event.Store? ==> event.x in m && event.i < PAGE_SIZE
    requires event.Copy? || event.Link? ==> event.src in m
  {
    match event
    case Stutter => m
    case Store(x, i, b) => map y | y in m :: if Same(m, x, y) then m[y].(page := m[y].page[i := b]) else m[y]
    case New(x, cell) => m[x := cell]
    case Drop(x) => m - {x}
    case Copy(src, dst) => m[dst := m[src]]
    case Link(src, dst, writable) => m[dst := m[src].(writable := writable)]
    case End(e) => map y | y in m && y.a != e :: m[y]
  }

  // ---- The abstraction ------------------------------------------------------------------------

  /** The child has y, but its duppage is not over. */
  predicate Pending(s: State, y: Site) {
    && y.a in s.parent && s.parent[y.a] in s.dups
    && var d := s.dups[s.parent[y.a]]; d.child == y.a && d.vpn == y.vpn && d.mapped
  }

  predicate Visible(s: State, x: Site) {
    x.vpn != UCOW_VPN && !Pending(s, x)
  }

  function CellAt(s: State, x: Site): Cell
    requires x in s.pt && s.pt[x].frame < |s.data|
  {
    var f := s.pt[x].frame;
    var writable := CanStore(s.pt[x].perm);
    if s.pt[x].perm.lib then Shared(f, s.data[f], writable) else Private(s.data[f], writable)
  }

  ghost function Abs(s: State): Eager
    requires Inv(s)
  {
    map x | x in s.pt && Visible(s, x) :: assert PteOk(s, x); CellAt(s, x)
  }

  /** What a step looks like to the eager machine: duppage copies when it completes. */
  ghost function EventOf(s: State, step: Step): Event
    requires Enabled(s, step)
  {
    match step
    case Write(x, i, b) => Store(x, i, b)
    case Touch(x, _) => New(x, Private(ZeroPage(), true))
    case Alloc(x, perm, f) =>
      New(x, if perm.lib then Shared(f, ZeroPage(), perm.d) else Private(ZeroPage(), perm.d))
    case Unmap(x) => Drop(x)
    case Share(src, dst, perm) => Link(src, dst, perm.d)
    case DupChild(e) =>
      var d := s.dups[e];
      if Splits(d.perm) then Drop(Site(d.child, d.vpn)) else Copy(Site(e, d.vpn), Site(d.child, d.vpn))
    case DupSelf(e) => Copy(Site(e, s.dups[e].vpn), Site(s.dups[e].child, s.dups[e].vpn))
    case Destroy(e) => End(e)
    case _ => Stutter
  }

  // ---- The invariant ----------------------------------------------------------------------------

  /** y is a second, not visible mapping of x's frame. */
  predicate Alias(s: State, x: Site, y: Site) {
    || (y == Ucow(x.a) && x.a in s.faults && s.faults[x.a].vpn == x.vpn && s.faults[x.a].stage == Placed)
    || (Pending(s, y) && x == Site(s.parent[y.a], y.vpn))
  }

  predicate PteOk(s: State, x: Site)
    requires x in s.pt
  {
    var p := s.pt[x].perm;
    && s.pt[x].frame < |s.data| && x.a in s.live && p.v
    && !(p.cow && p.lib) && !(p.cow && p.d)
    && (x.vpn == UCOW_VPN ==> x.a in s.faults && s.faults[x.a].stage != Begun)
  }

  /** Sharing a frame: both as library pages, or neither; and a writable private page
      shares its frame only with its own invisible aliases, a UCOW page with no other. */
  predicate Apart(s: State, x: Site, y: Site)
    requires x in s.pt && y in s.pt
  {
    x != y && s.pt[x].frame == s.pt[y].frame ==>
      && s.pt[x].perm.lib == s.pt[y].perm.lib
      && (Visible(s, x) && s.pt[x].perm.d && !s.pt[x].perm.lib ==> Alias(s, x, y))
      && (x.vpn == UCOW_VPN ==> Alias(s, y, x) && y.vpn != UCOW_VPN)
  }

  predicate ChildOk(s: State, c: nat)
    requires c in s.parent
  {
    c in s.live && s.parent[c] in s.live && s.parent[c] !in s.parent
  }

  predicate DupOk(s: State, e: nat)
    requires e in s.dups
  {
    var d := s.dups[e];
    var x, y := Site(e, d.vpn), Site(d.child, d.vpn);
    && e !in s.parent && d.child in s.parent && s.parent[d.child] == e && d.vpn != UCOW_VPN
    && x in s.pt && s.pt[x].perm == d.perm
    && (d.mapped ==> Splits(d.perm) && y in s.pt && s.pt[y] == Pte(s.pt[x].frame, Marked(d.perm)))
  }

  predicate FaultOk(s: State, e: nat)
    requires e in s.faults
  {
    var t := s.faults[e];
    var x := Site(e, t.vpn);
    && e in s.live && e !in s.parent && t.vpn != UCOW_VPN && x in s.pt && t.perm.cow && !t.perm.lib
    && (!t.stage.Placed? ==> s.pt[x].perm == t.perm && !(e in s.dups && s.dups[e].vpn == t.vpn))
    && (t.stage.Placed? ==> Ucow(e) in s.pt && s.pt[x] == s.pt[Ucow(e)] && s.pt[x].perm == Unmarked(t.perm))
    && (t.stage.Copying? ==>
      && t.stage.k <= PAGE_SIZE && Ucow(e) in s.pt && s.pt[Ucow(e)].perm == Unmarked(t.perm)
      && s.pt[x].frame < |s.data| && s.pt[Ucow(e)].frame < |s.data|
      && s.data[s.pt[Ucow(e)].frame][..t.stage.k] == s.data[s.pt[x].frame][..t.stage.k])
  }

  ghost predicate Inv(s: State) {
    && (forall x {:trigger PteOk(s, x)} :: x in s.pt ==> PteOk(s, x))
    && (forall x, y {:trigger Apart(s, x, y)} :: x in s.pt && y in s.pt ==> Apart(s, x, y))
    && (forall c {:trigger ChildOk(s, c)} :: c in s.parent ==> ChildOk(s, c))
    && (forall e {:trigger DupOk(s, e)} :: e in s.dups ==> DupOk(s, e))
    && (forall e {:trigger FaultOk(s, e)} :: e in s.faults ==> FaultOk(s, e))
  }

  /** fork's caller writes no page whose mapping duppage has read and is about to hand on
      as it is; see GuardIsNeeded. */
  predicate Guard(s: State, step: Step) {
    step.FaultStart? ==> !(step.x.a in s.dups && s.dups[step.x.a].vpn == step.x.vpn)
  }

  ghost predicate Ready(s: State, step: Step) {
    Inv(s) && Enabled(s, step) && Guard(s, step)
  }

  // ---- Every step keeps the invariant, clause by clause -----------------------------------------

  lemma PteKeeps(s: State, step: Step, x: Site)
    requires Ready(s, step) && x in Do(s, step).pt
    ensures PteOk(Do(s, step), x)
  {
    if step.DupChild? || step.DupSelf? {
      PteAfterDup(s, step, x);
    } else if step.FaultStart? || step.FaultAlloc? || step.FaultMap? || step.FaultUnmap? {
      PteAfterHandler(s, step, x);
    } else {
      if x in s.pt { assert PteOk(s, x); }
      if step.Share? { assert PteOk(s, step.src); }
    }
  }

  lemma PteAfterDup(s: State, step: Step, x: Site)
    requires Ready(s, step) && x in Do(s, step).pt && (step.DupChild? || step.DupSelf?)
    ensures PteOk(Do(s, step), x)
  {
    var e := step.e;
    if x in s.pt { assert PteOk(s, x); }
    assert PteOk(s, Site(e, s.dups[e].vpn)) && DupOk(s, e) && ChildOk(s, s.dups[e].child);
  }

  lemma PteAfterHandler(s: State, step: Step, x: Site)
    requires Ready(s, step) && x in Do(s, step).pt
    requires step.FaultStart? || step.FaultAlloc? || step.FaultMap? || step.FaultUnmap?
    ensures PteOk(Do(s, step), x)
  {
    if x in s.pt { assert PteOk(s, x); }
    match step
    case FaultAlloc(e, _) => assert FaultOk(s, e);
    case FaultMap(e) => assert PteOk(s, Ucow(e)) && FaultOk(s, e);
    case FaultStart(y) => assert PteOk(s, y);
    case FaultUnmap(_) =>
  }

  lemma ChildKeeps(s: State, step: Step, c: nat)
    requires Ready(s, step) && c in Do(s, step).parent
    ensures ChildOk(Do(s, step), c)
  {
    if c in s.parent { assert ChildOk(s, c); }
  }

  lemma DupKeeps(s: State, step: Step, e: nat)
    requires Ready(s, step) && e in Do(s, step).dups
    ensures DupOk(Do(s, step), e)
  {
    if e in s.dups {
      assert DupOk(s, e) && PteOk(s, Site(e, s.dups[e].vpn)) && ChildOk(s, s.dups[e].child);
      if s.dups[e].mapped { assert PteOk(s, Site(s.dups[e].child, s.dups[e].vpn)); }
    }
    match step
    case DupStart(e', _, vpn) => assert PteOk(s, Site(e', vpn)) && ChildOk(s, step.c);
    case FaultMap(e') => assert FaultOk(s, e');
    case DupChild(_) => DupAfterDup(s, step, e);
    case DupSelf(_) => DupAfterDup(s, step, e);
    case _ =>
  }

  lemma DupAfterDup(s: State, step: Step, e: nat)
    requires Ready(s, step) && (step.DupChild? || step.DupSelf?) && e in Do(s, step).dups
    ensures DupOk(Do(s, step), e)
  {
    assert DupOk(s, e) && PteOk(s, Site(e, s.dups[e].vpn)) && ChildOk(s, s.dups[e].child);
    assert DupOk(s, step.e) && ChildOk(s, s.dups[step.e].child);
  }

  lemma PendingIsOk(s: State, y: Site)
    requires Inv(s) && Pending(s, y)
    ensures y.vpn != UCOW_VPN && y in s.pt && !s.pt[y].perm.d && s.parent[y.a] !in s.parent
  {
    assert DupOk(s, s.parent[y.a]);
  }

  /** A frame whose page is visible at src and not a writable private page there may be
      given to z as well. */
  lemma ApartOnSharing(s: State, src: Site, x: Site)
    requires Inv(s) && src in s.pt && x in s.pt && x != src && s.pt[x].frame == s.pt[src].frame
    requires Idle(s, src.a) || (Runs(s, src.a) && src.vpn != UCOW_VPN && !s.dups[src.a].mapped)
    ensures x.vpn != UCOW_VPN && src.vpn != UCOW_VPN && s.pt[x].perm.lib == s.pt[src].perm.lib
    ensures s.pt[src].perm.lib || (!(Visible(s, x) && s.pt[x].perm.d) && !s.pt[src].perm.d)
  {
    assert PteOk(s, src) && PteOk(s, x) && Apart(s, src, x) && Apart(s, x, src);
    if Pending(s, x) { PendingIsOk(s, x); }
    if Pending(s, src) { PendingIsOk(s, src); }
    if src.a in s.dups { assert DupOk(s, src.a); }
  }

  lemma ApartKeeps(s: State, step: Step, x: Site, y: Site)
    requires Ready(s, step) && x in Do(s, step).pt && y in Do(s, step).pt
    ensures Apart(Do(s, step), x, y)
  {
    match step
    case Share(src, dst, perm) => ApartAfterShare(s, src, dst, perm, x, y);
    case DupChild(e) => ApartAfterDupChild(s, e, x, y);
    case DupSelf(e) => ApartAfterDupSelf(s, e, x, y);
    case FaultMap(e) => ApartAfterFaultMap(s, e, x, y);
    case FaultStart(_) => ApartAfterHandler(s, step, x, y);
    case FaultAlloc(_, _) => ApartAfterHandler(s, step, x, y);
    case FaultUnmap(_) => ApartAfterHandler(s, step, x, y);
    case Exofork(_, c) => assert Apart(s, x, y) && (c in s.parent ==> ChildOk(s, c));
    case _ => if x in s.pt && y in s.pt { assert Apart(s, x, y); }
  }

  lemma ApartAfterShare(s: State, src: Site, dst: Site, perm: Perm, x: Site, y: Site)
    requires Ready(s, Share(src, dst, perm))
    requires x in Do(s, Share(src, dst, perm)).pt && y in Do(s, Share(src, dst, perm)).pt
    ensures Apart(Do(s, Share(src, dst, perm)), x, y)
  {
    assert PteOk(s, src);
    if x in s.pt && y in s.pt { assert Apart(s, x, y); }
    if y in s.pt && y != src && s.pt[y].frame == s.pt[src].frame { ApartOnSharing(s, src, y); }
    if x in s.pt && x != src && s.pt[x].frame == s.pt[src].frame { ApartOnSharing(s, src, x); }
  }

  lemma ApartAfterHandler(s: State, step: Step, x: Site, y: Site)
    requires Ready(s, step) && (step.FaultStart? || step.FaultAlloc? || step.FaultUnmap?)
    requires x in Do(s, step).pt && y in Do(s, step).pt
    ensures Apart(Do(s, step), x, y)
  {
    if x in s.pt && y in s.pt { assert Apart(s, x, y); }
    if !step.FaultStart? { assert FaultOk(s, step.e); }
  }

  lemma ApartAfterDupSelf(s: State, e: nat, x: Site, y: Site)
    requires Ready(s, DupSelf(e)) && x in Do(s, DupSelf(e)).pt && y in Do(s, DupSelf(e)).pt
    ensures Apart(Do(s, DupSelf(e)), x, y)
  {
    assert DupOk(s, e) && Apart(s, x, y);
  }

  lemma ApartAfterDupChild(s: State, e: nat, x: Site, y: Site)
    requires Ready(s, DupChild(e)) && x in Do(s, DupChild(e)).pt && y in Do(s, DupChild(e)).pt
    ensures Apart(Do(s, DupChild(e)), x, y)
  {
    var src := Site(e, s.dups[e].vpn);
    assert DupOk(s, e) && PteOk(s, src);
    if x in s.pt && y in s.pt { assert Apart(s, x, y); }
    if y in s.pt && y != src && s.pt[y].frame == s.pt[src].frame { ApartOnSharing(s, src, y); }
    if x in s.pt && x != src && s.pt[x].frame == s.pt[src].frame { ApartOnSharing(s, src, x); }
  }

  lemma ApartAfterFaultMap(s: State, e: nat, x: Site, y: Site)
    requires Ready(s, FaultMap(e)) && x in Do(s, FaultMap(e)).pt && y in Do(s, FaultMap(e)).pt
    ensures Apart(Do(s, FaultMap(e)), x, y)
  {
    var u := Ucow(e);
    assert FaultOk(s, e);
    if Pending(s, u) { PendingIsOk(s, u); }
    if y in s.pt { assert Apart(s, u, y); }
    if x in s.pt { assert Apart(s, u, x); }
    if x in s.pt && y in s.pt { assert Apart(s, x, y); }
  }

  // ---- The bytes already copied stay equal -------------------------------------------------------

  /** While e copies, nobody else can write the page it copies from or the one it fills. */
  lemma CopyIsUndisturbed(s: State, e: nat, x: Site)
    requires Inv(s) && e in s.faults && s.faults[e].stage.Copying? && x in s.pt
    requires (Runs(s, x.a) && x.vpn != UCOW_VPN && s.pt[x].perm.d) || (x.vpn == UCOW_VPN && x.a != e)
    ensures Ucow(e) in s.pt && s.pt[x].frame != s.pt[Ucow(e)].frame
    ensures Site(e, s.faults[e].vpn) in s.pt && s.pt[x].frame != s.pt[Site(e, s.faults[e].vpn)].frame
  {
    var y, u := Site(e, s.faults[e].vpn), Ucow(e);
    assert FaultOk(s, e) && PteOk(s, y);
    assert Apart(s, x, u) && Apart(s, u, x) && Apart(s, x, y);
    if Pending(s, x) { PendingIsOk(s, x); }
    if Pending(s, y) { PendingIsOk(s, y); }
    if Pending(s, u) { PendingIsOk(s, u); }
  }

  lemma FaultAfterWrite(s: State, step: Step, e: nat)
    requires Ready(s, step) && (step.Write? || step.FaultCopy?) && e in s.faults
    ensures FaultOk(Do(s, step), e)
  {
    assert FaultOk(s, e);
    if s.faults[e].stage.Copying? {
      if step.Write? {
        CopyIsUndisturbed(s, e, step.x);
      } else if step.e != e {
        CopyIsUndisturbed(s, e, Ucow(step.e));
      }
    }
  }

  lemma FaultAfterHandler(s: State, step: Step, e: nat)
    requires Ready(s, step) && (step.FaultStart? || step.FaultAlloc? || step.FaultMap? || step.FaultUnmap?)
    requires e in Do(s, step).faults
    ensures FaultOk(Do(s, step), e)
  {
    if e in s.faults { assert FaultOk(s, e) && PteOk(s, Site(e, s.faults[e].vpn)); }
    if step.FaultStart? { assert PteOk(s, step.x); }
  }

  lemma FaultAfterDup(s: State, step: Step, e: nat)
    requires Ready(s, step) && (step.DupChild? || step.DupSelf?) && e in s.faults
    ensures FaultOk(Do(s, step), e)
  {
    assert FaultOk(s, e) && PteOk(s, Site(e, s.faults[e].vpn)) && DupOk(s, step.e);
    if step.DupChild? { assert ChildOk(s, s.dups[step.e].child); }
  }

  lemma FaultAfterSyscall(s: State, step: Step, e: nat)
    requires Ready(s, step) && e in s.faults
    requires step.Touch? || step.Alloc? || step.Unmap? || step.Share? || step.Exofork? || step.DupStart?
      || step.SetRunnable? || step.Destroy?
    ensures FaultOk(Do(s, step), e)
  {
    assert FaultOk(s, e) && PteOk(s, Site(e, s.faults[e].vpn));
  }

  lemma FaultKeeps(s: State, step: Step, e: nat)
    requires Ready(s, step) && e in Do(s, step).faults
    ensures FaultOk(Do(s, step), e)
  {
    match step
    case Write(_, _, _) => FaultAfterWrite(s, step, e);
    case FaultCopy(_) => FaultAfterWrite(s, step, e);
    case FaultStart(_) => FaultAfterHandler(s, step, e);
    case FaultAlloc(_, _) => FaultAfterHandler(s, step, e);
    case FaultMap(_) => FaultAfterHandler(s, step, e);
    case FaultUnmap(_) => FaultAfterHandler(s, step, e);
    case DupChild(_) => FaultAfterDup(s, step, e);
    case DupSelf(_) => FaultAfterDup(s, step, e);
    case _ => FaultAfterSyscall(s, step, e);
  }

  lemma StepKeeps(s: State, step: Step)
    requires Ready(s, step)
    ensures Inv(Do(s, step))
  {
    var t := Do(s, step);
    forall x | x in t.pt ensures PteOk(t, x) { PteKeeps(s, step, x); }
    forall x, y | x in t.pt && y in t.pt ensures Apart(t, x, y) { ApartKeeps(s, step, x, y); }
    forall c | c in t.parent ensures ChildOk(t, c) { ChildKeeps(s, step, c); }
    forall e | e in t.dups ensures DupOk(t, e) { DupKeeps(s, step, e); }
    forall e | e in t.faults ensures FaultOk(t, e) { FaultKeeps(s, step, e); }
  }

  // ---- Every step is the eager machine's event ------------------------------------------------

  /** The event is possible, and a new object's name is not in use. */
  ghost predicate Possible(m: Eager, event: Event) {
    match event
    case Store(x, i, _) => x in m && m[x].writable && i < PAGE_SIZE
    case Copy(src, _) => src in m
    case Link(src, _, _) => src in m && m[src].Shared?
    case New(x, Shared(id, _, _)) => forall y :: y in m && m[y].Shared? ==> m[y].id != id
    case _ => true
  }

  lemma EventIsPossible(s: State, step: Step)
    requires Ready(s, step)
    ensures Possible(Abs(s), EventOf(s, step))
  {
    match step
    case Share(src, _, _) => assert PteOk(s, src);
    case DupChild(e) => assert DupOk(s, e);
    case DupSelf(e) => assert DupOk(s, e);
    case _ =>
  }

  /** Abs and the performed event agree at x. */
  ghost predicate AgreeAt(m: Eager, k: Eager, x: Site) {
    (x in m <==> x in k) && (x in m ==> m[x] == k[x])
  }

  ghost predicate Steps(s: State, step: Step) {
    Ready(s, step) && Inv(Do(s, step)) && Possible(Abs(s), EventOf(s, step))
  }

  ghost predicate Agrees(s: State, step: Step, x: Site)
    requires Steps(s, step)
  {
    AgreeAt(Abs(Do(s, step)), Perform(Abs(s), EventOf(s, step)), x)
  }

  lemma WriteAgrees(s: State, w: Site, i: nat, b: Byte, x: Site)
    requires Steps(s, Write(w, i, b))
    ensures Agrees(s, Write(w, i, b), x)
  {
    if x in s.pt && Visible(s, x) {
      assert PteOk(s, x) && PteOk(s, w) && Apart(s, w, x) && Apart(s, x, w);
      if Pending(s, w) { PendingIsOk(s, w); }
    }
  }

  lemma FaultMapAgrees(s: State, e: nat, x: Site)
    requires Steps(s, FaultMap(e))
    ensures Agrees(s, FaultMap(e), x)
  {
    var y := Site(e, s.faults[e].vpn);
    assert FaultOk(s, e) && PteOk(s, y) && PteOk(s, Ucow(e));
    if x in s.pt { assert PteOk(s, x); }
    var p, q := s.data[s.pt[y].frame], s.data[s.pt[Ucow(e)].frame];
    assert p == p[..PAGE_SIZE] && q == q[..PAGE_SIZE];
  }

  lemma FaultCopyAgrees(s: State, e: nat, x: Site)
    requires Steps(s, FaultCopy(e))
    ensures Agrees(s, FaultCopy(e), x)
  {
    if x in s.pt && Visible(s, x) {
      assert PteOk(s, x) && FaultOk(s, e) && Apart(s, Ucow(e), x);
      if Pending(s, Ucow(e)) { PendingIsOk(s, Ucow(e)); }
    }
  }

  lemma DuppageAgrees(s: State, step: Step, x: Site)
    requires Steps(s, step) && (step.DupChild? || step.DupSelf?)
    ensures Agrees(s, step, x)
  {
    if step.DupChild? { DupChildAgrees(s, step.e, x); } else { DupSelfAgrees(s, step.e, x); }
  }

  lemma DupChildAgrees(s: State, e: nat, x: Site)
    requires Steps(s, DupChild(e))
    ensures Agrees(s, DupChild(e), x)
  {
    assert DupOk(s, e) && PteOk(s, Site(e, s.dups[e].vpn));
    if x in s.pt { assert PteOk(s, x); }
  }

  lemma DupSelfAgrees(s: State, e: nat, x: Site)
    requires Steps(s, DupSelf(e))
    ensures Agrees(s, DupSelf(e), x)
  {
    assert DupOk(s, e) && PteOk(s, Site(e, s.dups[e].vpn));
    if x in s.pt { assert PteOk(s, x); }
  }

  lemma HandlerAgrees(s: State, step: Step, x: Site)
    requires Steps(s, step) &&
      (step.FaultStart? || step.FaultAlloc? || step.FaultCopy? || step.FaultMap? || step.FaultUnmap?)
    ensures Agrees(s, step, x)
  {
    if step.FaultMap? { FaultMapAgrees(s, step.e, x); }
    else if step.FaultCopy? { FaultCopyAgrees(s, step.e, x); }
    else if x in s.pt { assert PteOk(s, x); }
  }

  lemma SyscallAgrees(s: State, step: Step, x: Site)
    requires Steps(s, step) && (step.Touch? || step.Alloc? || step.Unmap? || step.Share?)
    ensures Agrees(s, step, x)
  {
    if x in s.pt { assert PteOk(s, x); }
    if step.Share? { assert PteOk(s, step.src); }
  }

  lemma EnvAgrees(s: State, step: Step, x: Site)
    requires Steps(s, step) && (step.Exofork? || step.DupStart? || step.SetRunnable? || step.Destroy?)
    ensures Agrees(s, step, x)
  {
    if x in s.pt { assert PteOk(s, x); }
    if step.Exofork? { assert step.c in s.parent ==> ChildOk(s, step.c); }
  }

  lemma StepAgrees(s: State, step: Step, x: Site)
    requires Steps(s, step)
    ensures Agrees(s, step, x)
  {
    if step.Write? { WriteAgrees(s, step.x, step.i, step.b, x); }
    else if step.DupChild? || step.DupSelf? { DuppageAgrees(s, step, x); }
    else if step.Touch? || step.Alloc? || step.Unmap? || step.Share? { SyscallAgrees(s, step, x); }
    else if step.Exofork? || step.DupStart? || step.SetRunnable? || step.Destroy? { EnvAgrees(s, step, x); }
    else { HandlerAgrees(s, step, x); }
  }

  lemma EqualMaps(m: Eager, k: Eager)
    requires forall x :: AgreeAt(m, k, x)
    ensures m == k
  {
    assert forall x :: (x in m <==> x in k) && (x in m ==> m[x] == k[x]) by {
      forall x ensures (x in m <==> x in k) && (x in m ==> m[x] == k[x]) { assert AgreeAt(m, k, x); }
    }
  }

  /** Copy-on-write refines eager copying: whatever step is taken, every visible page of
      every env changes as if duppage had made a private copy when it completed. */
  lemma CowRefinesEagerCopy(s: State, step: Step)
    requires Ready(s, step)
    ensures Inv(Do(s, step)) && Possible(Abs(s), EventOf(s, step))
    ensures Abs(Do(s, step)) == Perform(Abs(s), EventOf(s, step))
  {
    StepKeeps(s, step);
    EventIsPossible(s, step);
    var m, k := Abs(Do(s, step)), Perform(Abs(s), EventOf(s, step));
    forall x ensures AgreeAt(m, k, x) {
      StepAgrees(s, step, x);
      assert Agrees(s, step, x);
    }
    EqualMaps(m, k);
  }

  // ---- Runs ---------------------------------------------------------------------------------------

  ghost predicate Legal(s: State, steps: seq<Step>)
    decreases |steps|
  {
    steps != [] ==> Enabled(s, steps[0]) && Guard(s, steps[0]) && Legal(Do(s, steps[0]), steps[1..])
  }

  ghost function Run(s: State, steps: seq<Step>): State
    requires Legal(s, steps)
    decreases |steps|
  {
    if steps == [] then s else Run(Do(s, steps[0]), steps[1..])
  }

  /** The events of a run, as the eager machine sees them. */
  ghost function Events(s: State, steps: seq<Step>): (events: seq<Event>)
    requires Legal(s, steps)
    ensures |events| == |steps|
    decreases |steps|
  {
    if steps == [] then [] else [EventOf(s, steps[0])] + Events(Do(s, steps[0]), steps[1..])
  }

  /** m becomes k by the given events, all of them possible. */
  ghost predicate Performs(m: Eager, events: seq<Event>, k: Eager)
    decreases |events|
  {
    if events == [] then m == k
    else Possible(m, events[0]) && Performs(Perform(m, events[0]), events[1..], k)
  }

  /** Over a whole run, at any interleaving, the memory seen by every env is the eager
      machine's. */
  lemma {:induction false} RunRefinesEagerCopy(s: State, steps: seq<Step>)
    requires Inv(s) && Legal(s, steps)
    ensures Inv(Run(s, steps)) && Performs(Abs(s), Events(s, steps), Abs(Run(s, steps)))
    decreases |steps|
  {
    if steps != [] {
      CowRefinesEagerCopy(s, steps[0]);
      RunRefinesEagerCopy(Do(s, steps[0]), steps[1..]);
    }
  }

  /** A running env reads from its page table what the eager machine holds. */
  lemma ReadsAgree(s: State, x: Site, i: nat)
    requires Inv(s) && Runs(s, x.a) && x in s.pt && x.vpn != UCOW_VPN && i < PAGE_SIZE
    ensures s.pt[x].frame < |s.data| && x in Abs(s) && s.data[s.pt[x].frame][i] == Abs(s)[x].page[i]
  {
    assert PteOk(s, x);
  }

  /** A running env can store to a page, or is let into cow_entry by its store, exactly if the
      eager machine has the page writable. */
  lemma StoresAgree(s: State, x: Site, i: nat, b: Byte)
    requires Inv(s) && Runs(s, x.a) && x in s.pt && x.vpn != UCOW_VPN && i < PAGE_SIZE
    ensures x in Abs(s) && (Abs(s)[x].writable <==> Enabled(s, Write(x, i, b)) || Enabled(s, FaultStart(x)))
  {
    ReadsAgree(s, x, i);
  }

  /** Of a destroyed env nothing is mapped, it runs no more, and its number can be a child's. */
  lemma DestroyedIsGone(s: State, e: nat, p: nat)
    requires Ready(s, Destroy(e)) && Idle(s, p) && p != e
    ensures var t := Do(s, Destroy(e));
      && !Runs(t, e) && (forall x :: x in t.pt ==> x.a != e)
      && Ready(t, Exofork(p, e)) && Idle(Do(t, Exofork(p, e)), p) && !Runs(Do(t, Exofork(p, e)), e)
  {
    StepKeeps(s, Destroy(e));
  }

  predicate Targets(event: Event, x: Site) {
    match event
    case Stutter => false
    case Store(y, _, _) => y == x
    case New(y, _) => y == x
    case Drop(y) => y == x
    case Copy(_, y) => y == x
    case Link(_, y, _) => y == x
    case End(e) => e == x.a
  }

  lemma PrivatePageStays(s: State, step: Step, x: Site)
    requires Inv(s) && Enabled(s, step) && Guard(s, step) && x in Abs(s) && Abs(s)[x].Private?
    requires !Targets(EventOf(s, step), x)
    ensures var t := Do(s, step); Inv(t) && x in Abs(t) && Abs(t)[x] == Abs(s)[x]
  {
    CowRefinesEagerCopy(s, step);
  }

  /** A private page keeps its bytes through everything that is not done to that very page:
      writes of parents, children and siblings never show. */
  lemma {:induction false} PrivatePagesAreIsolated(s: State, steps: seq<Step>, x: Site)
    requires Inv(s) && Legal(s, steps) && x in Abs(s) && Abs(s)[x].Private?
    requires forall i :: 0 <= i < |steps| ==> !Targets(Events(s, steps)[i], x)
    ensures Inv(Run(s, steps)) && x in Abs(Run(s, steps)) && Abs(Run(s, steps))[x] == Abs(s)[x]
    decreases |steps|
  {
    if steps != [] {
      var t := Do(s, steps[0]);
      assert Events(s, steps) == [EventOf(s, steps[0])] + Events(t, steps[1..]);
      assert Events(s, steps)[0] == EventOf(s, steps[0]) && !Targets(Events(s, steps)[0], x);
      PrivatePageStays(s, steps[0], x);
      forall i | 0 <= i < |steps[1..]| ensures !Targets(Events(t, steps[1..])[i], x) {
        assert Events(t, steps[1..])[i] == Events(s, steps)[i + 1];
      }
      PrivatePagesAreIsolated(t, steps[1..], x);
    }
  }

  // ---- The guard is needed --------------------------------------------------------------------------

  ghost predicate Hop(path: seq<State>, acts: seq<Step>, i: nat)
    requires i < |acts| && |path| == |acts| + 1
  {
    Enabled(path[i], acts[i]) && path[i + 1] == Do(path[i], acts[i])
  }

  /** A run that need not respect the guard. */
  ghost predicate IsPath(path: seq<State>, acts: seq<Step>) {
    |path| == |acts| + 1 && forall i {:trigger Hop(path, acts, i)} :: 0 <= i < |acts| ==> Hop(path, acts, i)
  }

  lemma Extend(path: seq<State>, acts: seq<Step>, step: Step) returns (path': seq<State>, acts': seq<Step>)
    requires IsPath(path, acts) && Enabled(path[|acts|], step)
    ensures IsPath(path', acts') && path'[0] == path[0] && path'[|acts'|] == Do(path[|acts|], step)
  {
    path', acts' := path + [Do(path[|acts|], step)], acts + [step];
    forall i: nat | i < |acts'| ensures Hop(path', acts', i) {
      if i < |acts| { assert Hop(path, acts, i); }
    }
  }

  /** When duppage hands on permissions that are out of date, a store of the caller shows in
      the child if and only if the caller's page is writable by now. */
  lemma StaleDuppage(s: State, e: nat)
    requires Enabled(s, DupChild(e)) && !Splits(s.dups[e].perm)
    requires forall y :: y in s.pt ==> s.pt[y].frame < |s.data|
    requires s.dups[e].vpn != UCOW_VPN && s.dups[e].child != e && !s.pt[Site(e, s.dups[e].vpn)].perm.lib
    ensures var x, y, t := Site(e, s.dups[e].vpn), Site(s.dups[e].child, s.dups[e].vpn), Do(s, DupChild(e));
      t.pt[y].frame < |t.data| &&
      (s.pt[x].perm.d <==>
        exists i, b :: Enabled(t, Write(x, i, b)) &&
          Do(t, Write(x, i, b)).data[t.pt[y].frame] != t.data[t.pt[y].frame])
  {
    var x, t := Site(e, s.dups[e].vpn), Do(s, DupChild(e));
    if s.pt[x].perm.d {
      var old0 := t.data[t.pt[x].frame][0];
      var b: Byte := if old0 == 0 then 1 else 0;
      assert Enabled(t, Write(x, 0, b));
      assert Do(t, Write(x, 0, b)).data[t.pt[x].frame][0] == b;
    }
  }

  /** Env 1 runs duppage of a copy-on-write page for its child 2 and is inside cow_entry
      for the same page. */
  ghost predicate InWindow(t: State, k: nat) {
    var x, u := Site(1, 2048), Ucow(1);
    && 1 in t.live && 1 !in t.parent && 2 in t.parent && t.parent[2] == 1
    && x in t.pt && t.pt[x] == Pte(0, Marked(PERM_D)) && u in t.pt && t.pt[u].frame == 1 && |t.data| == 2
    && 1 in t.dups && t.dups[1] == Dup(2, 2048, Marked(PERM_D), false)
    && 1 in t.faults && t.faults[1] == Fault(2048, Marked(PERM_D), Copying(k))
  }

  function BeforeWindow(): State {
    State(map[Site(1, 2048) := Pte(0, Marked(PERM_D))], [ZeroPage(), ZeroPage()], {1, 2}, map[2 := 1], map[], map[])
  }

  lemma BeforeIsOk()
    ensures Inv(BeforeWindow())
  {
  }

  lemma EnterWindow() returns (s1: State, s2: State, t: State)
    ensures Enabled(BeforeWindow(), DupStart(1, 2, 2048)) && s1 == Do(BeforeWindow(), DupStart(1, 2, 2048))
    ensures Enabled(s1, FaultStart(Site(1, 2048))) && s2 == Do(s1, FaultStart(Site(1, 2048)))
    ensures Enabled(s2, FaultAlloc(1, 1)) && t == Do(s2, FaultAlloc(1, 1)) && InWindow(t, 0)
  {
    s1 := Do(BeforeWindow(), DupStart(1, 2, 2048));
    s2 := Do(s1, FaultStart(Site(1, 2048)));
    t := Do(s2, FaultAlloc(1, 1));
  }

  lemma CopyInWindow(t: State, k: nat)
    requires InWindow(t, k) && k < PAGE_SIZE
    ensures Enabled(t, FaultCopy(1)) && InWindow(Do(t, FaultCopy(1)), k + 1)
  {
  }

  lemma LeaveWindow(t: State) returns (t1: State, t2: State, t3: State)
    requires InWindow(t, PAGE_SIZE)
    ensures Enabled(t, FaultMap(1)) && t1 == Do(t, FaultMap(1))
    ensures Enabled(t1, FaultUnmap(1)) && t2 == Do(t1, FaultUnmap(1))
    ensures Enabled(t2, DupChild(1)) && t3 == Do(t2, DupChild(1)) && Leaks(t3, Site(1, 2048), Site(2, 2048))
  {
    t1 := Do(t, FaultMap(1));
    t2 := Do(t1, FaultUnmap(1));
    t3 := Do(t2, DupChild(1));
  }

  /** Two envs map one frame, the first may write it, and neither as a library page. */
  ghost predicate Leaks(t: State, x: Site, y: Site) {
    && x in t.pt && y in t.pt && x.a != y.a && Visible(t, y) && Idle(t, x.a)
    && t.pt[x].frame == t.pt[y].frame && t.pt[x].perm.d && !t.pt[x].perm.lib
  }

  /** While the guard is respected there is no such pair. */
  lemma NoLeakUnderGuard(t: State, x: Site, y: Site)
    requires Inv(t)
    ensures !Leaks(t, x, y)
  {
    if x in t.pt && y in t.pt { assert PteOk(t, x) && Apart(t, x, y); }
  }

  /** e's duppage is about to hand on out-of-date permissions of its page: the page is being
      copied by e's handler, or has its writable copy already. */
  ghost predicate Doomed(s: State, e: nat) {
    && e in s.live && e !in s.parent && e in s.dups
    && (forall a :: a in s.dups ==> s.dups[a].child in s.parent && s.parent[s.dups[a].child] == a)
    && (forall c :: c in s.parent ==> c in s.live)
    && var d := s.dups[e]; var x := Site(e, d.vpn);
    && !d.mapped && d.perm.cow && d.vpn != UCOW_VPN && x in s.pt
    && if e in s.faults && s.faults[e].vpn == d.vpn && !s.faults[e].stage.Placed? then !s.faults[e].perm.lib
       else s.pt[x].perm.d && !s.pt[x].perm.lib && !s.pt[x].perm.cow
  }

  lemma BreakingDooms(s: State, x: Site)
    requires Inv(s) && Enabled(s, FaultStart(x)) && !Guard(s, FaultStart(x))
    ensures Doomed(Do(s, FaultStart(x)), x.a)
  {
    assert DupOk(s, x.a) && PteOk(s, x);
    forall a | a in s.dups ensures s.dups[a].child in s.parent && s.parent[s.dups[a].child] == a { assert DupOk(s, a); }
    forall c | c in s.parent ensures c in s.live { assert ChildOk(s, c); }
  }

  /** Whatever anyone does, e's duppage stays doomed until it maps the page to the child, and
      then parent and child share a page that the parent may write. */
  lemma DoomedToLeak(s: State, step: Step, e: nat)
    requires Doomed(s, e) && Enabled(s, step)
    ensures var x, y, t := Site(e, s.dups[e].vpn), Site(s.dups[e].child, s.dups[e].vpn), Do(s, step);
      if step == DupChild(e) then Leaks(t, x, y) else Doomed(t, e)
  {
    if step.FaultStart? || step.FaultAlloc? || step.FaultCopy? || step.FaultMap? || step.FaultUnmap? {
      DoomedInHandler(s, step, e);
    } else if step != DupChild(e) {
      DoomedByOthers(s, step, e);
    }
  }

  lemma DoomedInHandler(s: State, step: Step, e: nat)
    requires Doomed(s, e) && Enabled(s, step)
    requires step.FaultStart? || step.FaultAlloc? || step.FaultCopy? || step.FaultMap? || step.FaultUnmap?
    ensures Doomed(Do(s, step), e)
  {
  }

  lemma DoomedByOthers(s: State, step: Step, e: nat)
    requires Doomed(s, e) && Enabled(s, step) && step != DupChild(e)
    requires !(step.FaultStart? || step.FaultAlloc? || step.FaultCopy? || step.FaultMap? || step.FaultUnmap?)
    ensures Doomed(Do(s, step), e)
  {
  }

  /** A run that need not respect the guard, before e's duppage maps its page. */
  ghost predicate Waits(s: State, steps: seq<Step>, e: nat)
    decreases |steps|
  {
    steps != [] ==> Enabled(s, steps[0]) && steps[0] != DupChild(e) && Waits(Do(s, steps[0]), steps[1..], e)
  }

  ghost function Waited(s: State, steps: seq<Step>, e: nat): State
    requires Waits(s, steps, e)
    decreases |steps|
  {
    if steps == [] then s else Waited(Do(s, steps[0]), steps[1..], e)
  }

  lemma {:induction false} DoomedWaits(s: State, steps: seq<Step>, e: nat)
    requires Doomed(s, e) && Waits(s, steps, e)
    ensures Doomed(Waited(s, steps, e), e)
    decreases |steps|
  {
    if steps != [] {
      DoomedToLeak(s, steps[0], e);
      DoomedWaits(Do(s, steps[0]), steps[1..], e);
    }
  }

  /** The guard is needed in every run: once e takes a write fault on the page whose
      permissions its duppage has read, then whatever happens in between, and whether it
      respects the guard or not, when e's duppage maps the page, parent and child share a
      page that the parent may write. */
  lemma BrokenGuardLeaks(s: State, before: seq<Step>, x: Site, after: seq<Step>)
    requires Inv(s) && Legal(s, before)
    requires Enabled(Run(s, before), FaultStart(x)) && !Guard(Run(s, before), FaultStart(x))
    requires Waits(Do(Run(s, before), FaultStart(x)), after, x.a)
    requires Enabled(Waited(Do(Run(s, before), FaultStart(x)), after, x.a), DupChild(x.a))
    ensures var u := Waited(Do(Run(s, before), FaultStart(x)), after, x.a);
      Leaks(Do(u, DupChild(x.a)), Site(x.a, u.dups[x.a].vpn), Site(u.dups[x.a].child, u.dups[x.a].vpn))
  {
    RunRefinesEagerCopy(s, before);
    var t := Run(s, before);
    BreakingDooms(t, x);
    DoomedWaits(Do(t, FaultStart(x)), after, x.a);
    DoomedToLeak(Waited(Do(t, FaultStart(x)), after, x.a), DupChild(x.a), x.a);
  }

  /** And it is enough: a run that respects it leads to no such state. */
  lemma GuardedRunsDoNotLeak(s: State, steps: seq<Step>, x: Site, y: Site)
    requires Inv(s) && Legal(s, steps)
    ensures !Leaks(Run(s, steps), x, y)
  {
    RunRefinesEagerCopy(s, steps);
    NoLeakUnderGuard(Run(s, steps), x, y);
  }

  /** One write fault inside the window is enough: from a correct state, without the guard,
      a state is reached where parent and child share a page that the parent may write. */
  lemma GuardIsNeeded()
    ensures exists path, acts, x, y :: IsPath(path, acts) && Inv(path[0]) && Leaks(path[|acts|], x, y)
  {
    BeforeIsOk();
    var s1, s2, s3 := EnterWindow();
    var path, acts := [BeforeWindow()], [];
    path, acts := Extend(path, acts, DupStart(1, 2, 2048));
    path, acts := Extend(path, acts, FaultStart(Site(1, 2048)));
    path, acts := Extend(path, acts, FaultAlloc(1, 1));
    for k := 0 to PAGE_SIZE
      invariant IsPath(path, acts) && path[0] == BeforeWindow() && InWindow(path[|acts|], k)
    {
      CopyInWindow(path[|acts|], k);
      path, acts := Extend(path, acts, FaultCopy(1));
    }
    var t1, t2, t3 := LeaveWindow(path[|acts|]);
    path, acts := Extend(path, acts, FaultMap(1));
    path, acts := Extend(path, acts, FaultUnmap(1));
    path, acts := Extend(path, acts, DupChild(1));
  }
}
