/** cow_entry, duppage and fork as the program text has them, run without interruption
    (user/lib/fork.c). */
module Fork {
  import opened Common
  import opened Mmu
  import opened Cow

  /** m2 is m with the pages of e below page number n copied to c. */
  ghost predicate Cloned(m2: Eager, m: Eager, e: nat, c: nat, n: nat) {
    forall x {:trigger CloneAt(m2, m, e, c, n, x)} :: CloneAt(m2, m, e, c, n, x)
  }

  predicate CloneAt(m2: Eager, m: Eager, e: nat, c: nat, n: nat, x: Site) {
    if x.a == c && x.vpn < n && Site(e, x.vpn) in m then x in m2 && m2[x] == m[Site(e, x.vpn)]
    else (x in m2 <==> x in m) && (x in m ==> m2[x] == m[x])
  }

  /** Of duppage's two mappings of a page with permissions p: a store succeeds on both exactly if
      it did before, directly only on a library page, and the other bits are as before. */
  predicate Handed(q: Perm, p: Perm) {
    && (CanStore(q) <==> CanStore(p)) && (q.d <==> p.d && p.lib)
    && q.v && q.lib == p.lib && q.soft == p.soft && q.g == p.g
  }

  /** fork has come to page number n: parent and child have each page below it on the parent's old
      frame and as duppage hands it on, and nothing else is mapped otherwise. */
  ghost predicate Shares(pt2: map<Site, Pte>, pt: map<Site, Pte>, e: nat, c: nat, n: nat) {
    forall x {:trigger ShareAt(pt2, pt, e, c, n, x)} :: ShareAt(pt2, pt, e, c, n, x)
  }

  predicate ShareAt(pt2: map<Site, Pte>, pt: map<Site, Pte>, e: nat, c: nat, n: nat, x: Site) {
    if (x.a == c || x.a == e) && x.vpn < n && Site(e, x.vpn) in pt then
      x in pt2 && pt2[x].frame == pt[Site(e, x.vpn)].frame && Handed(pt2[x].perm, pt[Site(e, x.vpn)].perm)
    else (x in pt2 <==> x in pt) && (x in pt ==> pt2[x] == pt[x])
  }

  /** duppage's new mappings at x and y, of the page that x had. */
  predicate Passed(pt2: map<Site, Pte>, pt: map<Site, Pte>, x: Site, y: Site) {
    && x in pt && x in pt2 && y in pt2 && pt2.Keys == pt.Keys + {y}
    && pt2[x].frame == pt2[y].frame == pt[x].frame
    && Handed(pt2[x].perm, pt[x].perm) && Handed(pt2[y].perm, pt[x].perm)
    && forall z :: z in pt && z != x && z != y ==> pt2[z] == pt[z]
  }

  lemma BothPassed(pt: map<Site, Pte>, x: Site, y: Site)
    requires x in pt && x != y && Splits(pt[x].perm)
    ensures Passed(pt[y := Pte(pt[x].frame, Marked(pt[x].perm))][x := Pte(pt[x].frame, Marked(pt[x].perm))], pt, x, y)
  {
  }

  lemma ShareOneMore(pt3: map<Site, Pte>, pt2: map<Site, Pte>, pt: map<Site, Pte>, e: nat, c: nat, n: nat)
    requires Shares(pt2, pt, e, c, n) && e != c
    requires if Site(e, n) in pt2 then Passed(pt3, pt2, Site(e, n), Site(c, n)) else pt3 == pt2
    ensures Shares(pt3, pt, e, c, n + 1)
  {
    assert ShareAt(pt2, pt, e, c, n, Site(e, n));
    var n' := n + 1;
    forall x ensures ShareAt(pt3, pt, e, c, n', x) { assert ShareAt(pt2, pt, e, c, n, x); }
  }

  lemma ShareNoTable(pt2: map<Site, Pte>, pt: map<Site, Pte>, e: nat, c: nat, i: nat)
    requires Shares(pt2, pt, e, c, Bound(i * ENTRIES)) && e != c
    requires forall x :: x in pt && x.a == e ==> x.vpn / ENTRIES != i
    ensures Shares(pt2, pt, e, c, Bound((i + 1) * ENTRIES))
  {
    var n' := Bound((i + 1) * ENTRIES);
    forall x ensures ShareAt(pt2, pt, e, c, n', x) {
      assert ShareAt(pt2, pt, e, c, Bound(i * ENTRIES), x);
      if Site(e, x.vpn) in pt { assert x.vpn / ENTRIES != i; }
    }
  }

  /** One more page: copied if there is one. */
  lemma CloneOneMore(m2: Eager, m: Eager, e: nat, c: nat, n: nat)
    requires Cloned(m2, m, e, c, n) && e != c && n < USTACKTOP_VPN
    ensures Site(e, n) in m <==> Site(e, n) in m2
    ensures Site(e, n) in m ==> Cloned(m2[Site(c, n) := m2[Site(e, n)]], m, e, c, n + 1)
    ensures Site(e, n) !in m ==> Cloned(m2, m, e, c, n + 1)
  {
    assert CloneAt(m2, m, e, c, n, Site(e, n));
    var m3 := if Site(e, n) in m then m2[Site(c, n) := m2[Site(e, n)]] else m2;
    var n' := n + 1;
    forall x ensures CloneAt(m3, m, e, c, n', x) { assert CloneAt(m2, m, e, c, n, x); }
  }

  /** The pages of a page table that is not there need no copying. */
  lemma CloneNoTable(m2: Eager, m: Eager, e: nat, c: nat, i: nat)
    requires Cloned(m2, m, e, c, Bound(i * ENTRIES)) && e != c
    requires forall x :: x in m && x.a == e ==> x.vpn / ENTRIES != i
    ensures Cloned(m2, m, e, c, Bound((i + 1) * ENTRIES))
  {
    var n' := Bound((i + 1) * ENTRIES);
    forall x ensures CloneAt(m2, m, e, c, n', x) {
      assert CloneAt(m2, m, e, c, Bound(i * ENTRIES), x);
      if x.a == c && Site(e, x.vpn) in m { assert x.vpn / ENTRIES != i; }
    }
  }

  /** fork stops at USTACKTOP. */
  function Bound(vpn: nat): nat {
    if vpn < USTACKTOP_VPN then vpn else USTACKTOP_VPN
  }

  /** All pages of an idle env are visible, and none is at UCOW. */
  lemma OwnPagesAreVisible(s: State, x: Site)
    requires Inv(s) && Idle(s, x.a)
    ensures x in s.pt <==> x in Abs(s)
    ensures x in s.pt ==> x.vpn != UCOW_VPN
  {
    if x in s.pt { assert PteOk(s, x); }
  }

  /** An env that does not exist has no pages and is inside nothing. */
  lemma AbsentEnv(s: State, c: nat)
    requires Inv(s) && c !in s.live
    ensures c !in s.dups && c !in s.faults && c !in s.parent && forall x :: x in s.pt ==> x.a != c
  {
    forall x | x in s.pt ensures x.a != c { assert PteOk(s, x); }
    assert c in s.dups ==> DupOk(s, c);
    assert c in s.faults ==> FaultOk(s, c);
    assert c in s.parent ==> ChildOk(s, c);
  }

  lemma PutTwice<K, V>(m: map<K, V>, k: K, v: V, w: V)
    ensures m[k := v][k := w] == m[k := w]
  {
  }

  lemma DropPut<K, V>(m: map<K, V>, k: K, v: V)
    ensures (m - {k})[k := v] == m[k := v]
  {
  }

  lemma PutTake<K, V>(m: map<K, V>, k: K, v: V)
    requires k !in m
    ensures m[k := v] - {k} == m
  {
  }

  lemma PutPutTake<K, V>(m: map<K, V>, k: K, v: V, j: K, w: V)
    requires k !in m && j != k
    ensures m[k := v][j := w] - {k} == m[j := w]
  {
  }

  /** Outside its fault handler an env has nothing at UCOW. */
  lemma OwnUcowIsFree(s: State, x: Site)
    requires Inv(s) && x in s.pt && x.a !in s.faults
    ensures Ucow(x.a) !in s.pt && x.vpn != UCOW_VPN
  {
    assert PteOk(s, x);
    assert Ucow(x.a) in s.pt ==> PteOk(s, Ucow(x.a));
  }

  class System {
    var s: State

    constructor (s: State)
      requires Inv(s)
      ensures this.s == s
    {
      this.s := s;
    }

    /** A step that no env can see. */
    method TakeUnseen(step: Step)
      requires Ready(s, step) && EventOf(s, step) == Stutter
      modifies this
      ensures s == Do(old(s), step) && Inv(s) && Abs(s) == old(Abs(s))
    {
      CowRefinesEagerCopy(s, step);
      s := Do(s, step);
    }

    /** A step that the eager machine sees as one page copied. */
    method TakeCopy(step: Step, ghost src: Site, ghost dst: Site)
      requires Ready(s, step) && EventOf(s, step) == Copy(src, dst)
      modifies this
      ensures s == Do(old(s), step) && Inv(s)
      ensures src in old(Abs(s)) && Abs(s) == old(Abs(s))[dst := old(Abs(s))[src]]
    {
      CowRefinesEagerCopy(s, step);
      s := Do(s, step);
    }

    method TakeDrop(step: Step, ghost x: Site)
      requires Ready(s, step) && EventOf(s, step) == Drop(x)
      modifies this
      ensures s == Do(old(s), step) && Inv(s) && Abs(s) == old(Abs(s)) - {x}
    {
      CowRefinesEagerCopy(s, step);
      s := Do(s, step);
    }

    /** cow_entry up to its memcpy: permissions read, a page at UCOW. */
    method CowBegin(x: Site, f: nat)
      requires Ready(s, FaultStart(x)) && Fresh(s, f)
      modifies this
      ensures Inv(s) && Abs(s) == old(Abs(s)) && x in old(s).pt
      ensures s.pt == old(s).pt[Ucow(x.a) := Pte(f, Unmarked(old(s).pt[x].perm))]
      ensures s.faults == old(s).faults[x.a := Fault(x.vpn, old(s).pt[x].perm, Copying(0))]
      ensures s.live == old(s).live && s.parent == old(s).parent && s.dups == old(s).dups
    {
      TakeUnseen(FaultStart(x));
      PutTwice(old(s).faults, x.a, s.faults[x.a], s.faults[x.a].(stage := Copying(0)));
      TakeUnseen(FaultAlloc(x.a, f));
    }

    /** cow_entry after its memcpy: the copy goes to va, and UCOW is unmapped. */
    method CowEnd(x: Site, ghost pt: map<Site, Pte>, ghost faults: map<nat, Fault>)
      requires Inv(s) && x.a !in faults && Ucow(x.a) !in pt && x != Ucow(x.a)
      requires Ucow(x.a) in s.pt && s.pt == pt[Ucow(x.a) := s.pt[Ucow(x.a)]]
      requires x.a in s.faults && s.faults == faults[x.a := s.faults[x.a]]
      requires s.faults[x.a].vpn == x.vpn && s.faults[x.a].stage == Copying(PAGE_SIZE)
      modifies this
      ensures Inv(s) && Abs(s) == old(Abs(s))
      ensures s.pt == pt[x := Pte(old(s).pt[Ucow(x.a)].frame, Unmarked(old(s).faults[x.a].perm))] && s.faults == faults
      ensures s.live == old(s).live && s.parent == old(s).parent && s.dups == old(s).dups
    {
      ghost var u, t := s.pt[Ucow(x.a)], s.faults[x.a];
      TakeUnseen(FaultMap(x.a));
      PutTwice(faults, x.a, t, t.(stage := Placed));
      PutTake(faults, x.a, t.(stage := Placed));
      PutPutTake(pt, Ucow(x.a), u, x, Pte(u.frame, Unmarked(t.perm)));
      TakeUnseen(FaultUnmap(x.a));
    }

    /** cow_entry gives the page a writable frame of its own and changes nothing any env
        can see. */
    method CowEntry(x: Site, f: nat)
      requires Ready(s, FaultStart(x)) && Fresh(s, f)
      modifies this
      ensures Inv(s) && Abs(s) == old(Abs(s))
      ensures x in old(s).pt && s.pt == old(s).pt[x := Pte(f, Unmarked(old(s).pt[x].perm))]
      ensures Grants(s.pt[x].perm, old(s).pt[x].perm.(d := true, cow := false))
      ensures s.live == old(s).live && s.parent == old(s).parent && s.dups == old(s).dups && s.faults == old(s).faults
    {
      OwnUcowIsFree(s, x);
      CowBegin(x, f);
      ghost var s1 := s;
      for k := 0 to PAGE_SIZE
        invariant Inv(s) && Abs(s) == old(Abs(s)) && s.pt == s1.pt
        invariant s.live == s1.live && s.parent == s1.parent && s.dups == s1.dups
        invariant s.faults == old(s).faults[x.a := Fault(x.vpn, old(s).pt[x].perm, Copying(k))]
      {
        assert FaultOk(s, x.a);
        PutTwice(old(s).faults, x.a, s.faults[x.a], s.faults[x.a].(stage := Copying(k + 1)));
        TakeUnseen(FaultCopy(x.a));
      }
      CowEnd(x, old(s).pt, old(s).faults);
    }

    /** duppage: whatever kind of page vpn is, the child gets a copy of it. */
    method Duppage(e: nat, c: nat, vpn: nat)
      requires Inv(s) && Idle(s, e) && c in s.parent && s.parent[c] == e && e != c && Site(e, vpn) in s.pt
      modifies this
      ensures Inv(s) && s.live == old(s).live && s.parent == old(s).parent && s.dups == old(s).dups &&
        s.faults == old(s).faults
      ensures Passed(s.pt, old(s).pt, Site(e, vpn), Site(c, vpn))
      ensures Site(e, vpn) in old(Abs(s)) && Abs(s) == old(Abs(s))[Site(c, vpn) := old(Abs(s))[Site(e, vpn)]]
    {
      ghost var m, x, y := Abs(s), Site(e, vpn), Site(c, vpn);
      var perm := s.pt[Site(e, vpn)].perm;
      assert PteOk(s, x);
      TakeUnseen(DupStart(e, c, vpn));
      PutTake(old(s).dups, e, Dup(c, vpn, perm, false));
      if !perm.d || perm.lib || perm.cow {
        TakeCopy(DupChild(e), x, y);
      } else {
        Split(e, x, y, perm, old(s).dups);
        DropPut(m, y, m[x]);
      }
    }

    /** duppage's second branch: both mappings become copy-on-write. */
    method Split(e: nat, ghost x: Site, ghost y: Site, ghost perm: Perm, ghost dups: map<nat, Dup>)
      requires Ready(s, DupChild(e)) && s.dups == dups[e := Dup(y.a, y.vpn, perm, false)] && e !in dups
      requires x == Site(e, y.vpn) && x != y && perm == s.pt[x].perm && Splits(perm)
      modifies this
      ensures Inv(s) && s.live == old(s).live && s.parent == old(s).parent && s.dups == dups
      ensures s.faults == old(s).faults
      ensures Passed(s.pt, old(s).pt, x, y)
      ensures x in old(Abs(s)) && Abs(s) == (old(Abs(s)) - {y})[y := old(Abs(s))[x]]
    {
      assert DupOk(s, e);
      BothPassed(s.pt, x, y);
      PutTwice(dups, e, Dup(y.a, y.vpn, perm, false), Dup(y.a, y.vpn, perm, true));
      PutTake(dups, e, Dup(y.a, y.vpn, perm, true));
      TakeDrop(DupChild(e), y);
      TakeCopy(DupSelf(e), x, y);
    }

    ghost predicate Building(e: nat, c: nat)
      reads this
    {
      Inv(s) && Idle(s, e) && c in s.parent && s.parent[c] == e && c in s.live && c !in s.dups && c !in s.faults
    }

    /** fork's inner loop: the pages of the i-th page table. */
    method DupTable(e: nat, c: nat, i: nat, ghost m: Eager, ghost pt: map<Site, Pte>)
      requires Building(e, c) && Cloned(Abs(s), m, e, c, Bound(i * ENTRIES)) && i < UTOP_PDX
      requires Shares(s.pt, pt, e, c, Bound(i * ENTRIES))
      modifies this
      ensures Building(e, c) && Cloned(Abs(s), m, e, c, Bound((i + 1) * ENTRIES))
      ensures Shares(s.pt, pt, e, c, Bound((i + 1) * ENTRIES))
    {
      var j := 0;
      while j < ENTRIES
        invariant 0 <= j <= ENTRIES && Building(e, c)
        invariant Cloned(Abs(s), m, e, c, Bound(i * ENTRIES + j)) && Shares(s.pt, pt, e, c, Bound(i * ENTRIES + j))
      {
        var vpn := i * ENTRIES + j;
        if vpn >= USTACKTOP_VPN {
          break;
        }
        CloneOneMore(Abs(s), m, e, c, vpn);
        OwnPagesAreVisible(s, Site(e, vpn));
        ghost var pt2 := s.pt;
        if Site(e, vpn) in s.pt {
          Duppage(e, c, vpn);
        }
        ShareOneMore(s.pt, pt2, pt, e, c, vpn);
        j := j + 1;
      }
    }

    /** fork: afterwards the child sees a copy of every page of its parent below
        USTACKTOP, the parent and all others see what they saw before, and both run.
        `vpd`: the page tables the parent has. */
    method Fork(e: nat, c: nat, vpd: set<nat>)
      requires Inv(s) && Idle(s, e) && c !in s.live
      requires forall x :: x in s.pt && x.a == e ==> x.vpn / ENTRIES in vpd
      modifies this
      ensures Inv(s) && Idle(s, e) && Idle(s, c)
      ensures Cloned(Abs(s), old(Abs(s)), e, c, USTACKTOP_VPN) && Shares(s.pt, old(s).pt, e, c, USTACKTOP_VPN)
    {
      ghost var m, pt := Abs(s), s.pt;
      assert forall x :: x in m && x.a == e ==> x.vpn / ENTRIES in vpd;
      AbsentEnv(s, c);
      TakeUnseen(Exofork(e, c));
      for i := 0 to UTOP_PDX
        invariant Building(e, c) && Cloned(Abs(s), m, e, c, Bound(i * ENTRIES))
        invariant Shares(s.pt, pt, e, c, Bound(i * ENTRIES))
      {
        if i in vpd {
          DupTable(e, c, i, m, pt);
        } else {
          CloneNoTable(Abs(s), m, e, c, i);
          ShareNoTable(s.pt, pt, e, c, i);
        }
      }
      TakeUnseen(SetRunnable(c));
    }
  }
}
