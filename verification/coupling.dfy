/** The copy-on-write machine on the kernel: each of its page-table changes is one system
    call or one TLB refill, on the page tables, counts and TLB of Pmap. */
module Coupling {
  import opened Mmu
  import opened Spaces
  import opened Machine
  import opened Pmap
  import Cow

  /** The machine's page tables are the kernel's flat map, and its frames the kernel's. */
  predicate Matches(m: map<Site, Word>, npage: nat, s: Cow.State) {
    && m.Keys == s.pt.Keys && |s.data| == npage
    && forall x :: x in m ==> s.pt[x] == Cow.Pte(m[x].ppn, m[x].perm)
  }

  /** What the user asks of the kernel. */
  datatype Call =
    | MemAlloc(x: Site, perm: Perm)
    | MemMap(src: Site, dst: Site, perm: Perm)
    | MemUnmap(x: Site)
    | Refill(x: Site)
    | Free(a: nat)
    | Nothing

  function CowPerm(p: Perm): Perm { p.(d := false, cow := true) }

  function OwnPerm(p: Perm): Perm { p.(d := true, cow := false) }

  /** The call behind each step of duppage, cow_entry and the other users of memory. */
  ghost function CallOf(s: Cow.State, step: Cow.Step): Call
    requires Cow.Enabled(s, step)
  {
    match step
    case Touch(x, _) => Refill(x)
    case Alloc(x, perm, _) => MemAlloc(x, perm)
    case Unmap(x) => MemUnmap(x)
    case Share(src, dst, perm) => MemMap(src, dst, perm)
    case DupChild(e) =>
      var d := s.dups[e];
      MemMap(Site(e, d.vpn), Site(d.child, d.vpn), if Cow.Splits(d.perm) then CowPerm(d.perm) else d.perm)
    case DupSelf(e) => MemMap(Site(e, s.dups[e].vpn), Site(e, s.dups[e].vpn), CowPerm(s.dups[e].perm))
    case FaultAlloc(e, _) => MemAlloc(Cow.Ucow(e), OwnPerm(s.faults[e].perm))
    case FaultMap(e) => MemMap(Cow.Ucow(e), Site(e, s.faults[e].vpn), OwnPerm(s.faults[e].perm))
    case FaultUnmap(e) => MemUnmap(Cow.Ucow(e))
    case Destroy(e) => Free(e)
    case _ => Nothing
  }

  /** The frame the step takes, if it takes one. */
  predicate Takes(step: Cow.Step, f: nat) {
    match step
    case Touch(_, g) => g == f
    case Alloc(_, _, g) => g == f
    case FaultAlloc(_, g) => g == f
    case _ => true
  }

  /** What a successful call makes of the map, frame f being the head of the free list. */
  ghost function Effect(m: map<Site, Word>, call: Call, f: nat): map<Site, Word>
    requires call.MemMap? ==> call.src in m
  {
    match call
    case MemAlloc(x, perm) => m[x := Word(f, WithCV(perm))]
    case MemMap(src, dst, perm) => m[dst := Word(m[src].ppn, WithCV(perm))]
    case MemUnmap(x) => m - {x}
    case Refill(x) => m[x := Word(f, WithCV(PERM_D))]
    case Free(a) => map x | x in m && x.a != a :: m[x]
    case Nothing => m
  }

  /** A step of the machine changes its page tables as its call changes the kernel's. */
  lemma StepIsCall(m: map<Site, Word>, npage: nat, s: Cow.State, step: Cow.Step, f: nat)
    requires Matches(m, npage, s) && Cow.Enabled(s, step) && Takes(step, f)
    ensures var call := CallOf(s, step);
      (call.MemMap? ==> call.src in m) && Matches(Effect(m, call, f), npage, Cow.Do(s, step))
  {
  }

  /** The head of the kernel's free list is a frame the machine may take: mapped nowhere. */
  lemma FreeIsFresh(v: View, s: Cow.State)
    requires Inv(v) && Matches(v.t.m, v.t.npage, s) && v.t.free != []
    ensures Cow.Fresh(s, v.t.free[0])
  {
    AllocatedKeeps(v);
  }

  /** What a call needs: spaces that exist, and a count that fits its 16 bits. */
  ghost predicate CanCall(v: View, call: Call) {
    match call
    case MemAlloc(x, _) => x.a in v.dirs
    case MemMap(src, dst, _) =>
      && src.a in v.dirs && dst.a in v.dirs && src in v.t.m
      && (v.t.m[src].ppn < |v.t.ref| ==> CountFits(v.t, dst, v.t.m[src].ppn))
    case MemUnmap(x) => x.a in v.dirs
    case Refill(x) => InRange(v, x) && x !in v.t.m
    case Free(a) => a in v.dirs
    case Nothing => true
  }

  /** When the kernel cannot do it: an illegal address, or no frame for the page or for its page
      table; for a refill, what makes passive_alloc panic. */
  predicate Fails(t: Spaces, call: Call) {
    match call
    case MemAlloc(x, _) => IsIllegal(x.vpn) || t.free == [] || (|t.free| == 1 && TableOf(x) !in t.held)
    case MemMap(src, dst, _) =>
      IsIllegal(src.vpn) || IsIllegal(dst.vpn) || (t.free == [] && TableOf(dst) !in t.held)
    case MemUnmap(x) => IsIllegal(x.vpn)
    case Refill(x) => AllocFails(t, x)
    case Free(_) => false
    case Nothing => false
  }

  /** The call, done by the kernel.  False: it failed, and maps what it mapped before, or the
      kernel panicked. */
  method Perform(k: Kernel, call: Call, victim: Pair) returns (ok: bool)
    requires k.Valid() && CanCall(k.Now(), call)
    modifies k
    ensures k.Valid() && (call.MemMap? ==> call.src in old(k.m)) && k.npage == old(k.npage)
    ensures ok <==> !Fails(old(k.Now()).t, call)
    ensures ok && (call.MemAlloc? || call.Refill?) ==> old(k.free) != []
    ensures ok ==> k.m == Effect(old(k.m), call, if old(k.free) == [] then 0 else old(k.free)[0])
    ensures !ok && !call.Refill? ==> k.m == old(k.m)
  {
    match call
    case MemAlloc(x, perm) =>
      var r := k.SysMemAlloc(x, perm);
      ok := r.Done?;
    case MemMap(src, dst, perm) =>
      var r := k.SysMemMap(src, dst, perm);
      ok := r.Done?;
    case MemUnmap(x) =>
      var r := k.SysMemUnmap(x);
      ok := r.Done?;
    case Refill(x) =>
      var r := k.DoTlbRefill(x, victim);
      ok := r.Done?;
    case Free(a) =>
      k.EnvFree(a);
      ok := true;
    case Nothing => ok := true;
  }

  /** Every TLB pair has the frames and hardware bits of the machine's page tables, and is
      invalid where these have nothing. */
  ghost predicate Coherent(tlb: map<Pair, (Word, Word)>, s: Cow.State) {
    forall x :: PairOf(x) in tlb && x.vpn < UTOP_VPN ==>
      if x in s.pt then Caches(Translate(tlb, x), Word(s.pt[x].frame, s.pt[x].perm)) else !Translate(tlb, x).perm.v
  }

  /** What the envs see changes as in the eagerly copying machine. */
  ghost predicate Refined(s: Cow.State, step: Cow.Step)
    requires Cow.Enabled(s, step)
  {
    Cow.Ready(s, step) ==>
      && Cow.Inv(Cow.Do(s, step)) && Cow.Possible(Cow.Abs(s), Cow.EventOf(s, step))
      && Cow.Abs(Cow.Do(s, step)) == Cow.Perform(Cow.Abs(s), Cow.EventOf(s, step))
  }

  /** One step of the machine, carried out by the kernel: when the call succeeds, page tables
      match again, every TLB pair agrees with them, and what the envs see is what the eagerly
      copying machine makes of it. */
  method Simulate(k: Kernel, ghost s: Cow.State, ghost step: Cow.Step, ghost t: Cow.State, call: Call, victim: Pair)
    returns (ok: bool)
    requires k.Valid() && Matches(k.m, k.npage, s) && Cow.Enabled(s, step) && t == Cow.Do(s, step)
    requires call == CallOf(s, step) && CanCall(k.Now(), call) && (k.free != [] ==> Takes(step, k.free[0]))
    modifies k
    ensures k.Valid() && Refined(s, step) && (ok <==> !Fails(old(k.Now()).t, call))
    ensures ok ==> Matches(k.m, k.npage, t) && Coherent(k.tlb, t)
    ensures !ok && !call.Refill? ==> Matches(k.m, k.npage, s)
  {
    ghost var f := if k.free == [] then 0 else k.free[0];
    ghost var m, npage := k.m, k.npage;
    IsRefined(s, step);
    ok := Perform(k, call, victim);
    if ok {
      if Takes(step, f) { StepIsCall(m, npage, s, step, f); }
      IsCoherent(k.Now(), t);
    }
  }

  lemma IsRefined(s: Cow.State, step: Cow.Step)
    requires Cow.Enabled(s, step)
    ensures Refined(s, step)
  {
    if Cow.Ready(s, step) { Cow.CowRefinesEagerCopy(s, step); }
  }

  lemma IsCoherent(v: View, s: Cow.State)
    requires Inv(v) && Matches(v.t.m, v.t.npage, s)
    ensures Coherent(v.t.tlb, s)
  {
    assert Holds(v, Accounts);
    forall x | PairOf(x) in v.t.tlb && x.vpn < UTOP_VPN
      ensures if x in s.pt then Caches(Translate(v.t.tlb, x), Word(s.pt[x].frame, s.pt[x].perm))
        else !Translate(v.t.tlb, x).perm.v
    {
      TlbAgreesWithWalk(v.t, x);
    }
  }
}
