/** Directories and path names of the file server (fs/fs.c). */
module Dirs {
  import opened Common
  import opened Names

  /** A struct File: no name, not in use.  `places`: the struct Files in its blocks, for a
      directory, in order. */
  datatype Node = Node(name: string, isDir: bool, places: seq<nat>)

  /** The directory and the position in it of a struct File. */
  datatype Place = Place(d: nat, i: nat)

  datatype Fs = Fs(nodes: map<nat, Node>, home: map<nat, Place>)

  /** What walk_path returns: the file, and its directory unless it is the root; or that only
      the last component is missing from dir; or -E_NOT_FOUND otherwise; or -E_BAD_PATH. */
  datatype Walked = Found(dir: Option<nat>, file: nat) | Missing(parent: nat, name: string) | Lost | BadPath

  /** Every place is one struct File, in one directory only; the root is in none. */
  ghost predicate Ok(fs: Fs) {
    && ROOT in fs.nodes && fs.nodes[ROOT].isDir && ROOT !in fs.home
    && (forall d :: d in fs.nodes ==> |fs.nodes[d].places| % FILE2BLK == 0)
    && (forall d, i {:trigger PlaceOk(fs, d, i)} :: d in fs.nodes && 0 <= i < |fs.nodes[d].places| ==>
      PlaceOk(fs, d, i))
  }

  predicate PlaceOk(fs: Fs, d: nat, i: nat)
    requires d in fs.nodes && i < |fs.nodes[d].places|
  {
    var f := fs.nodes[d].places[i];
    f in fs.nodes && f in fs.home && fs.home[f] == Place(d, i)
  }

  /** The first place with that name from place i on. */
  function LookupFrom(fs: Fs, d: nat, name: string, i: nat): Option<nat>
    requires Ok(fs) && d in fs.nodes && i <= |fs.nodes[d].places|
    decreases |fs.nodes[d].places| - i
  {
    if i == |fs.nodes[d].places| then None
    else
      assert PlaceOk(fs, d, i);
      if fs.nodes[fs.nodes[d].places[i]].name == name then Some(fs.nodes[d].places[i])
      else LookupFrom(fs, d, name, i + 1)
  }

  function Lookup(fs: Fs, d: nat, name: string): Option<nat>
    requires Ok(fs) && d in fs.nodes
  {
    LookupFrom(fs, d, name, 0)
  }

  // ---- Walking path names ------------------------------------------------------------------

  function Walk(fs: Fs, dir: Option<nat>, file: nat, comps: seq<string>): Walked
    requires Ok(fs) && file in fs.nodes
    decreases |comps|
  {
    if comps == [] then Found(dir, file)
    else if |comps[0]| >= MAXNAMELEN then BadPath
    else if !fs.nodes[file].isDir then Lost
    else
      match Lookup(fs, file, comps[0])
      case Some(g) =>
        LookupFinds(fs, file, comps[0], 0);
        Walk(fs, Some(file), g, comps[1..])
      case None => if |comps| == 1 then Missing(file, comps[0]) else Lost
  }

  /** A found file is at a place of the directory and has the name; if none is found, no
      place has it. */
  lemma {:induction false} LookupFinds(fs: Fs, d: nat, name: string, i: nat)
    requires Ok(fs) && d in fs.nodes && i <= |fs.nodes[d].places|
    ensures LookupFrom(fs, d, name, i).Some? ==> IsNamed(fs, d, LookupFrom(fs, d, name, i).value, name)
    ensures LookupFrom(fs, d, name, i).None? ==> forall f :: IsNamed(fs, d, f, name) ==> fs.home[f].i < i
    decreases |fs.nodes[d].places| - i
  {
    if i < |fs.nodes[d].places| {
      assert PlaceOk(fs, d, i);
      if fs.nodes[fs.nodes[d].places[i]].name != name { LookupFinds(fs, d, name, i + 1); }
    }
  }

  /** f is in directory d under that name. */
  ghost predicate IsNamed(fs: Fs, d: nat, f: nat, name: string) {
    && f in fs.nodes && f in fs.home && fs.home[f].d == d && d in fs.nodes && fs.home[f].i < |fs.nodes[d].places|
    && fs.nodes[d].places[fs.home[f].i] == f && fs.nodes[f].name == name
  }

  // ---- file_create -----------------------------------------------------------------------

  /** A struct File gets a name. */
  function Named(fs: Fs, f: nat, name: string): Fs
    requires f in fs.nodes
  {
    fs.(nodes := fs.nodes[f := fs.nodes[f].(name := name)])
  }

  lemma NamedOk(fs: Fs, f: nat, name: string)
    requires Ok(fs) && f in fs.nodes
    ensures Ok(Named(fs, f, name))
  {
    var t := Named(fs, f, name);
    forall d, i | d in t.nodes && 0 <= i < |t.nodes[d].places| ensures PlaceOk(t, d, i) { assert PlaceOk(fs, d, i); }
  }

  predicate Unused(fs: Fs, d: nat, f: nat) {
    && f in fs.nodes && f in fs.home && fs.home[f].d == d && d in fs.nodes && fs.home[f].i < |fs.nodes[d].places|
    && fs.nodes[d].places[fs.home[f].i] == f && fs.nodes[f].name == ""
  }

  /** Naming an unused file changes the lookup of that name in that directory only. */
  lemma {:induction false} LookupAfterNaming(fs: Fs, dir: nat, f: nat, name: string, d: nat, n: string, i: nat)
    requires Ok(fs) && Unused(fs, dir, f) && Ok(Named(fs, f, name)) && name != "" && n != ""
    requires d in fs.nodes && i <= |fs.nodes[d].places|
    requires Lookup(fs, dir, name) == None
    ensures LookupFrom(Named(fs, f, name), d, n, i) ==
      if d == dir && n == name then if i <= fs.home[f].i then Some(f) else None else LookupFrom(fs, d, n, i)
    decreases |fs.nodes[d].places| - i
  {
    var t := Named(fs, f, name);
    LookupFinds(fs, dir, name, 0);
    if i < |fs.nodes[d].places| {
      var g := fs.nodes[d].places[i];
      assert PlaceOk(fs, d, i) && PlaceOk(t, d, i);
      if d == dir && n == name && g != f { assert IsNamed(fs, d, g, fs.nodes[g].name); }
      LookupAfterNaming(fs, dir, f, name, d, n, i + 1);
    }
  }

  predicate Nonempty(comps: seq<string>) {
    forall i :: 0 <= i < |comps| ==> comps[i] != ""
  }

  /** After a missing last component has been created, the same walk finds it. */
  lemma {:induction false} CreatedIsFound(fs: Fs, dir: nat, f: nat, name: string, d: Option<nat>, file: nat,
    comps: seq<string>)
    requires Ok(fs) && Unused(fs, dir, f) && Ok(Named(fs, f, name)) && name != "" && file in fs.nodes
    requires Nonempty(comps) && Walk(fs, d, file, comps) == Missing(dir, name)
    ensures Walk(Named(fs, f, name), d, file, comps) == Found(Some(dir), f)
    decreases |comps|
  {
    WalkMissing(fs, d, file, comps);
    LookupAfterNaming(fs, dir, f, name, file, comps[0], 0);
    LookupFinds(fs, file, comps[0], 0);
    if Lookup(fs, file, comps[0]).Some? {
      CreatedIsFound(fs, dir, f, name, Some(file), Lookup(fs, file, comps[0]).value, comps[1..]);
    } else {
      assert Walk(Named(fs, f, name), Some(file), f, comps[1..]) == Found(Some(file), f);
    }
  }

  /** Every path that led somewhere still leads there. */
  lemma {:induction false} CreatingHidesNothing(fs: Fs, dir: nat, f: nat, name: string, d: Option<nat>, file: nat,
    comps: seq<string>)
    requires Ok(fs) && Unused(fs, dir, f) && Ok(Named(fs, f, name)) && name != "" && file in fs.nodes
    requires Lookup(fs, dir, name) == None && Nonempty(comps) && Walk(fs, d, file, comps).Found?
    ensures Walk(Named(fs, f, name), d, file, comps) == Walk(fs, d, file, comps)
    decreases |comps|
  {
    if comps != [] {
      LookupAfterNaming(fs, dir, f, name, file, comps[0], 0);
      LookupFinds(fs, file, comps[0], 0);
      CreatingHidesNothing(fs, dir, f, name, Some(file), Lookup(fs, file, comps[0]).value, comps[1..]);
    }
  }

  /** A walk that misses only its last component has looked for it in the directory. */
  lemma {:induction false} WalkMissing(fs: Fs, d: Option<nat>, file: nat, comps: seq<string>)
    requires Ok(fs) && file in fs.nodes && Walk(fs, d, file, comps).Missing?
    ensures var w := Walk(fs, d, file, comps);
      && w.parent in fs.nodes && fs.nodes[w.parent].isDir && Lookup(fs, w.parent, w.name) == None
      && comps != [] && w.name == comps[|comps| - 1] && |w.name| < MAXNAMELEN
    decreases |comps|
  {
    LookupFinds(fs, file, comps[0], 0);
    if Lookup(fs, file, comps[0]).Some? {
      WalkMissing(fs, Some(file), Lookup(fs, file, comps[0]).value, comps[1..]);
    }
  }

  function GrownNode(fs: Fs, dir: nat, base: nat, g: nat): Node
    requires g in fs.nodes || base <= g < base + FILE2BLK
  {
    if base <= g < base + FILE2BLK then Node("", false, [])
    else if g == dir then fs.nodes[g].(places := fs.nodes[g].places + seq(FILE2BLK, j requires j >= 0 => base + j))
    else fs.nodes[g]
  }

  /** A directory gets a block of unused struct Files, numbered from base. */
  ghost predicate Grown(fs: Fs, t: Fs, dir: nat, base: nat) {
    && dir in fs.nodes && (forall j :: base <= j < base + FILE2BLK ==> j !in fs.nodes && j !in fs.home && j != ROOT)
    && GrownBy(fs, t, dir, base, FILE2BLK)
  }

  /** The directory has its new places, and the first n of the struct Files are there. */
  ghost predicate GrownBy(fs: Fs, t: Fs, dir: nat, base: nat, n: nat)
    requires dir in fs.nodes && n <= FILE2BLK
  {
    && (forall g :: g in t.nodes <==> g in fs.nodes || base <= g < base + n)
    && (forall g :: g in t.nodes ==> t.nodes[g] == GrownNode(fs, dir, base, g))
    && (forall g :: g in t.home <==> g in fs.home || base <= g < base + n)
    && (forall g :: g in fs.home ==> t.home[g] == fs.home[g])
    && (forall g :: base <= g < base + n ==> t.home[g] == Place(dir, |fs.nodes[dir].places| + g - base))
  }

  lemma GrownByOneMore(fs: Fs, t: Fs, dir: nat, base: nat, n: nat)
    requires dir in fs.nodes && n < FILE2BLK && GrownBy(fs, t, dir, base, n)
    requires base + n !in fs.nodes && base + n !in fs.home
    ensures var u := Fs(t.nodes[base + n := Node("", false, [])],
      t.home[base + n := Place(dir, |fs.nodes[dir].places| + n)]);
      GrownBy(fs, u, dir, base, n + 1)
  {
  }

  lemma GrownOk(fs: Fs, t: Fs, dir: nat, base: nat)
    requires Ok(fs) && Grown(fs, t, dir, base)
    ensures Ok(t) && Unused(t, dir, base)
  {
    forall d, i | d in t.nodes && 0 <= i < |t.nodes[d].places| ensures PlaceOk(t, d, i) {
      if d in fs.nodes && i < |fs.nodes[d].places| { assert PlaceOk(fs, d, i); }
    }
  }

  /** New unused struct Files are not seen by any lookup. */
  lemma {:induction false} LookupAfterGrowth(fs: Fs, t: Fs, dir: nat, base: nat, d: nat, n: string, i: nat)
    requires Ok(fs) && Ok(t) && Grown(fs, t, dir, base) && n != "" && d in fs.nodes && i <= |t.nodes[d].places|
    ensures LookupFrom(t, d, n, i) == if i <= |fs.nodes[d].places| then LookupFrom(fs, d, n, i) else None
    decreases |t.nodes[d].places| - i
  {
    if i < |t.nodes[d].places| {
      assert PlaceOk(t, d, i);
      if i < |fs.nodes[d].places| { assert PlaceOk(fs, d, i); }
      LookupAfterGrowth(fs, t, dir, base, d, n, i + 1);
    }
  }

  lemma {:induction false} WalkAfterGrowth(fs: Fs, t: Fs, dir: nat, base: nat, d: Option<nat>, file: nat,
    comps: seq<string>)
    requires Ok(fs) && Ok(t) && Grown(fs, t, dir, base) && file in fs.nodes && Nonempty(comps)
    ensures Walk(t, d, file, comps) == Walk(fs, d, file, comps)
    decreases |comps|
  {
    if comps != [] {
      LookupAfterGrowth(fs, t, dir, base, file, comps[0], 0);
      LookupFinds(fs, file, comps[0], 0);
      if Lookup(fs, file, comps[0]).Some? {
        WalkAfterGrowth(fs, t, dir, base, Some(file), Lookup(fs, file, comps[0]).value, comps[1..]);
      }
    }
  }

  // ---- file_remove -------------------------------------------------------------------------

  /** A file truncated to nothing, its name cleared. */
  function Removed(fs: Fs, f: nat): Fs
    requires f in fs.nodes
  {
    fs.(nodes := fs.nodes[f := fs.nodes[f].(name := "", places := [])])
  }

  lemma RemovedOk(fs: Fs, f: nat)
    requires Ok(fs) && f in fs.nodes
    ensures Ok(Removed(fs, f))
  {
    var t := Removed(fs, f);
    forall d, i | d in t.nodes && 0 <= i < |t.nodes[d].places| ensures PlaceOk(t, d, i) { assert PlaceOk(fs, d, i); }
  }

  /** A lookup that found f goes on to the next place with the name; others are as before. */
  lemma {:induction false} LookupAfterRemoval(fs: Fs, f: nat, d: nat, n: string, i: nat)
    requires Ok(fs) && f in fs.nodes && Ok(Removed(fs, f)) && d in fs.nodes && d != f && n != "" &&
      i <= |fs.nodes[d].places|
    ensures LookupFrom(fs, d, n, i) == Some(f) ==> f in fs.home && fs.home[f].i < |fs.nodes[d].places|
    ensures LookupFrom(Removed(fs, f), d, n, i) ==
      if LookupFrom(fs, d, n, i) == Some(f) then LookupFrom(fs, d, n, fs.home[f].i + 1) else LookupFrom(fs, d, n, i)
    decreases |fs.nodes[d].places| - i
  {
    if i < |fs.nodes[d].places| {
      assert PlaceOk(fs, d, i) && PlaceOk(Removed(fs, f), d, i);
      LookupFinds(fs, d, n, i + 1);
      LookupAfterRemoval(fs, f, d, n, i + 1);
    }
  }

  /** The files a walk goes through, from `file` to the one found. */
  ghost function Trace(fs: Fs, file: nat, comps: seq<string>): (r: seq<nat>)
    requires Ok(fs) && file in fs.nodes
    ensures r != [] && r[0] == file && forall i :: 0 <= i < |r| ==> r[i] in fs.nodes
    ensures forall i :: 0 < i < |r| ==> r[i] in fs.home && fs.home[r[i]].d == r[i - 1]
    decreases |comps|
  {
    if comps == [] || Lookup(fs, file, comps[0]).None? then [file]
    else
      LookupFinds(fs, file, comps[0], 0);
      [file] + Trace(fs, Lookup(fs, file, comps[0]).value, comps[1..])
  }

  /** A walk from the root never comes to the same file twice. */
  lemma {:induction false} NoWayBack(fs: Fs, comps: seq<string>, i: nat, j: nat)
    requires Ok(fs) && i < j < |Trace(fs, ROOT, comps)|
    ensures Trace(fs, ROOT, comps)[i] != Trace(fs, ROOT, comps)[j]
    decreases i
  {
    if i > 0 { NoWayBack(fs, comps, i - 1, j - 1); }
  }

  lemma {:induction false} FoundIsLast(fs: Fs, d: Option<nat>, file: nat, comps: seq<string>)
    requires Ok(fs) && file in fs.nodes && Walk(fs, d, file, comps).Found?
    ensures var w, r := Walk(fs, d, file, comps), Trace(fs, file, comps);
      && |r| == |comps| + 1 && r[|comps|] == w.file
      && (comps != [] ==> w.dir == Some(r[|comps| - 1]) && fs.nodes[w.file].name == comps[|comps| - 1])
    decreases |comps|
  {
    if comps != [] {
      LookupFinds(fs, file, comps[0], 0);
      FoundIsLast(fs, Some(file), Lookup(fs, file, comps[0]).value, comps[1..]);
    }
  }

  /** The walk that found f, after f was removed: it finds the next file of that name in the
      same directory, or misses exactly the last component. */
  ghost function AfterRemoval(fs: Fs, f: nat, dir: nat, name: string): Walked
    requires Ok(fs) && dir in fs.nodes && f in fs.home && fs.home[f].i < |fs.nodes[dir].places|
  {
    match LookupFrom(fs, dir, name, fs.home[f].i + 1)
    case Some(g) => Found(Some(dir), g)
    case None => Missing(dir, name)
  }

  lemma {:induction false} WalkAfterRemoval(fs: Fs, f: nat, d: Option<nat>, file: nat, comps: seq<string>)
    requires Ok(fs) && f in fs.nodes && Ok(Removed(fs, f)) && file in fs.nodes && Nonempty(comps)
    requires Walk(fs, d, file, comps).Found? && forall i :: 0 <= i < |comps| && i < |Trace(fs, file, comps)| ==>
      Trace(fs, file, comps)[i] != f
    ensures var w := Walk(fs, d, file, comps);
      if w.file == f && comps != [] then
        w.dir.Some? && w.dir.value in fs.nodes && f in fs.home && fs.home[f].i < |fs.nodes[w.dir.value].places|
        && Walk(Removed(fs, f), d, file, comps) == AfterRemoval(fs, f, w.dir.value, comps[|comps| - 1])
      else Walk(Removed(fs, f), d, file, comps) == w
    decreases |comps|
  {
    if comps != [] {
      FoundIsLast(fs, d, file, comps);
      LookupFinds(fs, file, comps[0], 0);
      LookupAfterRemoval(fs, f, file, comps[0], 0);
      var g := Lookup(fs, file, comps[0]).value;
      var r := Trace(fs, file, comps);
      assert Trace(fs, g, comps[1..]) == r[1..];
      if |comps| > 1 {
        assert r[1] == g && r[1] != f;
        assert forall i :: 0 <= i < |comps[1..]| ==> r[1..][i] == r[i + 1];
        WalkAfterRemoval(fs, f, Some(file), g, comps[1..]);
      } else if g == f {
        var next := LookupFrom(fs, file, comps[0], fs.home[f].i + 1);
        LookupFinds(fs, file, comps[0], fs.home[f].i + 1);
        assert comps[1..] == [];
      }
    }
  }

  /** A path that does not lead through f leads where it led. */
  lemma RemovingHidesNothingElse(fs: Fs, f: nat, comps: seq<string>)
    requires Ok(fs) && f in fs.nodes && Ok(Removed(fs, f)) && Nonempty(comps)
    requires Walk(fs, None, ROOT, comps).Found? && f !in Trace(fs, ROOT, comps)
    ensures Walk(Removed(fs, f), None, ROOT, comps) == Walk(fs, None, ROOT, comps)
  {
    FoundIsLast(fs, None, ROOT, comps);
    WalkAfterRemoval(fs, f, None, ROOT, comps);
  }

  /** A removed directory is empty, also when its struct File is used again. */
  lemma RemovedIsEmpty(fs: Fs, f: nat, name: string)
    requires f in fs.nodes && Ok(Removed(fs, f))
    ensures Lookup(Removed(fs, f), f, name) == None
  {
  }

  /** Names in a directory are unique: no later place repeats the name of f. */
  ghost predicate UniqueName(fs: Fs, f: nat) {
    forall g :: f in fs.home && f in fs.nodes && g != f ==> !IsNamed(fs, fs.home[f].d, g, fs.nodes[f].name)
  }

  /** After file_remove of a path that is not the root's, walking it fails with exactly its
      last component missing, if and only if no other file there has the name. */
  lemma RemovedIsGone(fs: Fs, comps: seq<string>)
    requires Ok(fs) && comps != [] && Nonempty(comps) && Walk(fs, None, ROOT, comps).Found?
    ensures var w := Walk(fs, None, ROOT, comps);
      && w.file in fs.nodes && w.file != ROOT && Ok(Removed(fs, w.file))
      && (UniqueName(fs, w.file) <==> Walk(Removed(fs, w.file), None, ROOT, comps).Missing?)
      && (!UniqueName(fs, w.file) ==> Walk(Removed(fs, w.file), None, ROOT, comps).Found?)
  {
    var w, r := Walk(fs, None, ROOT, comps), Trace(fs, ROOT, comps);
    FoundIsLast(fs, None, ROOT, comps);
    RemovedOk(fs, w.file);
    forall i | 0 <= i < |comps| ensures r[i] != w.file { NoWayBack(fs, comps, i, |comps|); }
    WalkAfterRemoval(fs, w.file, None, ROOT, comps);
    RemovedAlone(fs, w.file, w.dir.value, comps);
  }

  /** A lookup finds the first place from i on that has the name. */
  lemma {:induction false} LookupIsFirst(fs: Fs, d: nat, name: string, i: nat)
    requires Ok(fs) && d in fs.nodes && i <= |fs.nodes[d].places|
    ensures LookupFrom(fs, d, name, i).Some? ==>
      var f := LookupFrom(fs, d, name, i).value;
      f in fs.home && fs.home[f].i >= i && forall g :: IsNamed(fs, d, g, name) && fs.home[g].i >= i ==>
        fs.home[g].i >= fs.home[f].i
    decreases |fs.nodes[d].places| - i
  {
    if i < |fs.nodes[d].places| {
      assert PlaceOk(fs, d, i);
      LookupIsFirst(fs, d, name, i + 1);
    }
  }

  lemma {:induction false} FoundByLookup(fs: Fs, d: Option<nat>, file: nat, comps: seq<string>)
    requires Ok(fs) && file in fs.nodes && comps != [] && Walk(fs, d, file, comps).Found?
    ensures var w := Walk(fs, d, file, comps);
      w.dir.Some? && w.dir.value in fs.nodes && Lookup(fs, w.dir.value, comps[|comps| - 1]) == Some(w.file)
    decreases |comps|
  {
    LookupFinds(fs, file, comps[0], 0);
    if |comps| > 1 { FoundByLookup(fs, Some(file), Lookup(fs, file, comps[0]).value, comps[1..]); }
  }

  lemma RemovedAlone(fs: Fs, f: nat, dir: nat, comps: seq<string>)
    requires Ok(fs) && comps != [] && Nonempty(comps) && Walk(fs, None, ROOT, comps) == Found(Some(dir), f)
    ensures dir in fs.nodes && f in fs.nodes && f in fs.home && fs.home[f].d == dir &&
      fs.home[f].i < |fs.nodes[dir].places|
    ensures UniqueName(fs, f) <==> LookupFrom(fs, dir, comps[|comps| - 1], fs.home[f].i + 1) == None
  {
    FoundByLookup(fs, None, ROOT, comps);
    var name := comps[|comps| - 1];
    LookupFinds(fs, dir, name, 0);
    LookupIsFirst(fs, dir, name, 0);
    assert IsNamed(fs, dir, f, name);
    if LookupFrom(fs, dir, name, fs.home[f].i + 1) == None {
      forall g | IsNamed(fs, dir, g, name) ensures g == f { NamedOnce(fs, dir, f, name, g); }
    } else {
      NamedTwice(fs, dir, f, name);
    }
  }

  lemma NamedTwice(fs: Fs, dir: nat, f: nat, name: string)
    requires Ok(fs) && dir in fs.nodes && f in fs.nodes && f in fs.home && fs.home[f].d == dir &&
      fs.nodes[f].name == name
    requires fs.home[f].i < |fs.nodes[dir].places| && LookupFrom(fs, dir, name, fs.home[f].i + 1) != None
    ensures !UniqueName(fs, f)
  {
    var k := fs.home[f].i + 1;
    LookupFinds(fs, dir, name, k);
    LookupIsFirst(fs, dir, name, k);
    assert IsNamed(fs, dir, LookupFrom(fs, dir, name, k).value, name);
  }

  lemma NamedOnce(fs: Fs, dir: nat, f: nat, name: string, g: nat)
    requires Ok(fs) && dir in fs.nodes && Lookup(fs, dir, name) == Some(f) && IsNamed(fs, dir, g, name)
    requires f in fs.home && fs.home[f].i < |fs.nodes[dir].places| &&
      LookupFrom(fs, dir, name, fs.home[f].i + 1) == None
    ensures g == f
  {
    LookupIsFirst(fs, dir, name, 0);
    LookupFinds(fs, dir, name, 0);
    LookupFinds(fs, dir, name, fs.home[f].i + 1);
    assert fs.home[g].i == fs.home[f].i;
  }

  // ---- The loops of fs.c --------------------------------------------------------------------

  datatype Code = Success(f: nat) | FileExists | ENotFound | EBadPath

  class DirServer {
    var nodes: map<nat, Node>
    ghost var home: map<nat, Place>

    ghost function Now(): Fs
      reads this
    {
      Fs(nodes, home)
    }

    /** An empty root directory. */
    constructor ()
      ensures Ok(Now()) && NoTwins(Now()) && nodes == map[ROOT := Node("/", true, [])] && home == map[]
    {
      nodes, home := map[ROOT := Node("/", true, [])], map[];
    }

    method DirLookup(dir: nat, name: string) returns (r: Option<nat>)
      requires Ok(Now()) && dir in nodes
      ensures r == Lookup(Now(), dir, name)
    {
      var nblock := |nodes[dir].places| / FILE2BLK;
      for i := 0 to nblock
        invariant LookupFrom(Now(), dir, name, i * FILE2BLK) == Lookup(Now(), dir, name)
      {
        for j := 0 to FILE2BLK
          invariant LookupFrom(Now(), dir, name, i * FILE2BLK + j) == Lookup(Now(), dir, name)
        {
          assert PlaceOk(Now(), dir, i * FILE2BLK + j);
          var f := nodes[dir].places[i * FILE2BLK + j];
          if name == nodes[f].name {
            return Some(f);
          }
        }
      }
      r := None;
    }

    /** skip_slash, on a position in the path. */
    method SkipSlash(path: string, k: nat) returns (r: nat)
      requires k <= |path|
      ensures r == Skip(path, k)
    {
      r := k;
      while r < |path| && path[r] == '/'
        invariant k <= r <= |path| && Skip(path, r) == Skip(path, k)
      {
        r := r + 1;
      }
    }

    /** walk_path, on a path without a zero byte: it looks up exactly the nonempty
        components, in order. */
    method WalkPath(path: string) returns (r: Walked)
      requires Ok(Now())
      ensures r == Walk(Now(), None, ROOT, Components(path, 0))
    {
      var at := SkipSlash(path, 0);
      var file: nat, dir: Option<nat> := ROOT, None;
      while at < |path|
        invariant at <= |path| && file in nodes && Skip(path, at) == at
        invariant Walk(Now(), dir, file, Components(path, at)) == Walk(Now(), None, ROOT, Components(path, 0))
        decreases |path| - at
      {
        var p := at;
        while at < |path| && path[at] != '/'
          invariant p <= at <= |path| && End(path, at) == End(path, p)
        {
          at := at + 1;
        }
        var name := path[p..at];
        if at - p >= MAXNAMELEN {
          return BadPath;
        }
        ghost var rest := Components(path, at);
        at := SkipSlash(path, at);
        assert Components(path, at) == rest;
        if !nodes[file].isDir {
          return Lost;
        }
        var g := DirLookup(file, name);
        if g == None {
          if at == |path| {
            return Missing(file, name);
          }
          return Lost;
        }
        LookupFinds(Now(), file, name, 0);
        dir, file := Some(file), g.value;
      }
      r := Found(dir, file);
    }

    /** dir_alloc_file: the first unused struct File of the directory, or the first of a new
        block whose struct Files get the numbers from base. */
    method DirAllocFile(dir: nat, base: nat) returns (f: nat)
      requires Ok(Now()) && dir in nodes
      requires forall j :: base <= j < base + FILE2BLK ==> j !in nodes && j !in home && j != ROOT
      modifies this
      ensures Ok(Now()) && Unused(Now(), dir, f)
      ensures Now() == old(Now()) || (Grown(old(Now()), Now(), dir, base) && f == base && forall i ::
        0 <= i < |old(nodes)[dir].places| ==>
          old(nodes)[dir].places[i] in old(nodes) && old(nodes)[old(nodes)[dir].places[i]].name != "")
    {
      var nblock := |nodes[dir].places| / FILE2BLK;
      for i := 0 to nblock
        invariant Now() == old(Now())
        invariant forall k :: 0 <= k < i * FILE2BLK ==>
          nodes[dir].places[k] in nodes && nodes[nodes[dir].places[k]].name != ""
      {
        for j := 0 to FILE2BLK
          invariant Now() == old(Now())
          invariant forall k :: 0 <= k < i * FILE2BLK + j ==>
            nodes[dir].places[k] in nodes && nodes[nodes[dir].places[k]].name != ""
        {
          assert PlaceOk(Now(), dir, i * FILE2BLK + j);
          if nodes[nodes[dir].places[i * FILE2BLK + j]].name == "" {
            return nodes[dir].places[i * FILE2BLK + j];
          }
        }
      }
      ghost var fs := Now();
      Grow(dir, base);
      GrownOk(fs, Now(), dir, base);
      f := base;
    }

    /** The directory's size grows by a block, and the struct Files of that block are there. */
    method Grow(dir: nat, base: nat)
      requires Ok(Now()) && dir in nodes
      requires forall j :: base <= j < base + FILE2BLK ==> j !in nodes && j !in home && j != ROOT
      modifies this
      ensures Grown(old(Now()), Now(), dir, base)
    {
      ghost var fs := Now();
      var n := |nodes[dir].places|;
      nodes := nodes[dir := nodes[dir].(places := nodes[dir].places + seq(FILE2BLK, j requires j >= 0 => base + j))];
      for j := 0 to FILE2BLK
        invariant GrownBy(fs, Now(), dir, base, j)
      {
        GrownByOneMore(fs, Now(), dir, base, j);
        nodes, home := nodes[base + j := Node("", false, [])], home[base + j := Place(dir, n + j)];
      }
    }

    /** file_create: on success walking the same path finds the new file, and every path that
        led somewhere still leads there. */
    method FileCreate(path: string, base: nat) returns (r: Code)
      requires Ok(Now())
      requires forall j :: base <= j < base + FILE2BLK ==> j !in nodes && j !in home && j != ROOT
      modifies this
      ensures Ok(Now()) && (r.Success? || Now() == old(Now()))
      ensures old(NoTwins(Now())) ==> NoTwins(Now())
      ensures r == FileExists <==> old(Walk(Now(), None, ROOT, Components(path, 0)).Found?)
      ensures r.Success? <==> old(Walk(Now(), None, ROOT, Components(path, 0)).Missing?)
      ensures r == EBadPath <==> old(Walk(Now(), None, ROOT, Components(path, 0)) == BadPath)
      ensures r.Success? ==>
        Walk(Now(), None, ROOT, Components(path, 0)) ==
          Found(Some(old(Walk(Now(), None, ROOT, Components(path, 0)).parent)), r.f)
      ensures r.Success? ==> forall comps :: Nonempty(comps) && old(Walk(Now(), None, ROOT, comps)).Found? ==>
        Walk(Now(), None, ROOT, comps) == old(Walk(Now(), None, ROOT, comps))
    {
      var w := WalkPath(path);
      match w
      case Found(_, _) => return FileExists;
      case Lost => return ENotFound;
      case BadPath => return EBadPath;
      case Missing(dir, name) =>
        ghost var fs, comps := Now(), Components(path, 0);
        WalkMissing(fs, None, ROOT, comps);
        ComponentsAreNames(path, 0);
        var f := DirAllocFile(dir, base);
        ghost var t := Now();
        AllocatingIsUnseen(fs, t, dir, base, name);
        NamedOk(t, f, name);
        nodes := nodes[f := nodes[f].(name := name)];
        if NoTwins(fs) { NoTwinsAfterCreation(fs, t, dir, base, f, name); }
        CreatedIsFound(t, dir, f, name, None, ROOT, comps);
        forall c | Nonempty(c) && Walk(fs, None, ROOT, c).Found?
          ensures Walk(Now(), None, ROOT, c) == Walk(fs, None, ROOT, c) {
          CreatingHidesNothing(t, dir, f, name, None, ROOT, c);
        }
        r := Success(f);
    }

    /** file_remove: walking the path then misses exactly the last component if and only if no
        other file of the directory has the name.  The root keeps its path, but nothing in it
        is found any more. */
    method FileRemove(path: string) returns (r: Code)
      requires Ok(Now())
      modifies this
      ensures Ok(Now()) && (r.Success? || Now() == old(Now()))
      ensures r.Success? <==> old(Walk(Now(), None, ROOT, Components(path, 0)).Found?)
      ensures r.Success? ==> r.f == old(Walk(Now(), None, ROOT, Components(path, 0)).file)
      ensures r.Success? ==> (r.f == ROOT <==> Components(path, 0) == [])
      ensures old(NoTwins(Now())) ==> NoTwins(Now())
      ensures r.Success? && r.f != ROOT && old(NoTwins(Now())) ==> Walk(Now(), None, ROOT, Components(path, 0)).Missing?
      ensures r.Success? && r.f != ROOT ==> (
        old(UniqueName(Now(), Walk(Now(), None, ROOT, Components(path, 0)).file)) ||
          Walk(Now(), None, ROOT, Components(path, 0)).Found?)
      ensures r.Success? && r.f != ROOT ==> (
        old(UniqueName(Now(), Walk(Now(), None, ROOT, Components(path, 0)).file)) <==>
          Walk(Now(), None, ROOT, Components(path, 0)).Missing?)
      ensures r == Success(ROOT) ==> forall comps :: comps != [] ==> !Walk(Now(), None, ROOT, comps).Found?
      ensures r.Success? ==> r.f in nodes && forall name :: Lookup(Now(), r.f, name) == None
      ensures r.Success? ==> forall comps ::
        Nonempty(comps) && old(Walk(Now(), None, ROOT, comps)).Found? && r.f !in old(Trace(Now(), ROOT, comps)) ==>
          Walk(Now(), None, ROOT, comps) == old(Walk(Now(), None, ROOT, comps))
    {
      var w := WalkPath(path);
      match w
      case Lost => return ENotFound;
      case Missing(_, _) => return ENotFound;
      case BadPath => return EBadPath;
      case Found(_, f) =>
        ghost var fs := Now();
        ComponentsAreNames(path, 0);
        if Components(path, 0) != [] {
          RemovedIsGone(fs, Components(path, 0));
          if NoTwins(fs) { UniqueIfNoTwins(fs, Components(path, 0)); }
        }
        RemovedOk(fs, f);
        if NoTwins(fs) { NoTwinsAfterRemoval(fs, f); }
        nodes := nodes[f := nodes[f].(places := [])];
        nodes := nodes[f := nodes[f].(name := "")];
        assert Now() == Removed(fs, f);
        forall name ensures Lookup(Now(), f, name) == None { RemovedIsEmpty(fs, f, name); }
        forall c | Nonempty(c) && Walk(fs, None, ROOT, c).Found? && f !in Trace(fs, ROOT, c)
          ensures Walk(Now(), None, ROOT, c) == Walk(fs, None, ROOT, c) {
          RemovingHidesNothingElse(fs, f, c);
        }
        r := Success(f);
    }
  }

  // ---- Names that are twice in a directory ------------------------------------------------------

  /** No directory has two files of one name. */
  ghost predicate NoTwins(fs: Fs) {
    forall d, f, g, name {:trigger IsNamed(fs, d, f, name), IsNamed(fs, d, g, name)} ::
      name != "" && IsNamed(fs, d, f, name) && IsNamed(fs, d, g, name) ==> f == g
  }

  lemma UniqueIfNoTwins(fs: Fs, comps: seq<string>)
    requires Ok(fs) && NoTwins(fs) && comps != [] && Nonempty(comps) && Walk(fs, None, ROOT, comps).Found?
    ensures UniqueName(fs, Walk(fs, None, ROOT, comps).file)
  {
    var w, name := Walk(fs, None, ROOT, comps), comps[|comps| - 1];
    FoundByLookup(fs, None, ROOT, comps);
    LookupFinds(fs, w.dir.value, name, 0);
    assert IsNamed(fs, w.dir.value, w.file, name) && name != "";
  }

  lemma NoTwinsAfterRemoval(fs: Fs, f: nat)
    requires Ok(fs) && f in fs.nodes && NoTwins(fs)
    ensures NoTwins(Removed(fs, f))
  {
    var t := Removed(fs, f);
    forall d, g, h, name | name != "" && IsNamed(t, d, g, name) && IsNamed(t, d, h, name) ensures g == h {
      assert IsNamed(fs, d, g, name) && IsNamed(fs, d, h, name);
    }
  }

  /** Creation looks first, and so makes no twins. */
  lemma NoTwinsAfterCreation(fs: Fs, t: Fs, dir: nat, base: nat, f: nat, name: string)
    requires Ok(fs) && Ok(t) && NoTwins(fs) && (t == fs || Grown(fs, t, dir, base)) && Unused(t, dir, f)
    requires dir in fs.nodes && name != "" && Lookup(t, dir, name) == None
    ensures NoTwins(Named(t, f, name))
  {
    var u := Named(t, f, name);
    LookupFinds(t, dir, name, 0);
    forall d, g, h, n | n != "" && IsNamed(u, d, g, n) && IsNamed(u, d, h, n) ensures g == h {
      assert g != f ==> IsNamed(t, d, g, n);
      assert h != f ==> IsNamed(t, d, h, n);
      if g != f && h != f {
        NamedBefore(fs, t, dir, base, d, g, n);
        NamedBefore(fs, t, dir, base, d, h, n);
      }
    }
  }

  /** The struct Files of a new block have no names, and the others are named as before. */
  lemma NamedBefore(fs: Fs, t: Fs, dir: nat, base: nat, d: nat, g: nat, n: string)
    requires Ok(fs) && Ok(t) && (t == fs || Grown(fs, t, dir, base)) && n != ""
    ensures IsNamed(t, d, g, n) <==> IsNamed(fs, d, g, n)
  {
  }

  /** The formatter's way to a new file: like creation, but without looking for the name. */
  method AddUnchecked(server: DirServer, name: string, base: nat) returns (f: nat)
    requires Ok(server.Now()) && name != ""
    requires forall j :: base <= j < base + FILE2BLK ==> j !in server.nodes && j !in server.home && j != ROOT
    modifies server
    ensures Ok(server.Now()) && f !in old(WithName(server.Now(), name)) && f in WithName(server.Now(), name)
    ensures old(WithName(server.Now(), name)) <= WithName(server.Now(), name)
    ensures forall j :: j in server.nodes || j in server.home ==>
      j in old(server.nodes) || j in old(server.home) || j < base + FILE2BLK
  {
    ghost var fs := server.Now();
    f := server.DirAllocFile(ROOT, base);
    ghost var t := server.Now();
    NamedOk(t, f, name);
    server.nodes := server.nodes[f := server.nodes[f].(name := name)];
    forall g | g in WithName(fs, name) ensures g in WithName(server.Now(), name) {
      NamedBefore(fs, t, ROOT, base, ROOT, g, name);
    }
    if f in WithName(fs, name) { NamedBefore(fs, t, ROOT, base, ROOT, f, name); }
  }

  /** The root directory's files of that name. */
  ghost function WithName(fs: Fs, name: string): set<nat> {
    set f | f in fs.nodes && IsNamed(fs, ROOT, f, name)
  }

  /** A disk formatted with the same name twice: after a successful file_remove the path is
      still there. */
  method TwinSurvives() returns (server: DirServer, r: Code)
    ensures fresh(server) && r.Success? && Ok(server.Now())
    ensures Walk(server.Now(), None, ROOT, Components("/a", 0)).Found?
  {
    server := new DirServer();
    var f := AddUnchecked(server, "a", 1);
    var g := AddUnchecked(server, "a", 17);
    assert IsNamed(server.Now(), ROOT, f, "a") && IsNamed(server.Now(), ROOT, g, "a") && f != g;
    TwinsAreFound(server.Now(), f, g);
    r := server.FileRemove("/a");
  }

  lemma TwinsAreFound(fs: Fs, f: nat, g: nat)
    requires Ok(fs) && IsNamed(fs, ROOT, f, "a") && IsNamed(fs, ROOT, g, "a") && f != g
    ensures Components("/a", 0) == ["a"]
    ensures Walk(fs, None, ROOT, ["a"]).Found?
    ensures var f := Walk(fs, None, ROOT, ["a"]).file; f != ROOT && f in fs.nodes && !UniqueName(fs, f)
  {
    assert Skip("/a", 0) == 1 && End("/a", 1) == 2 && "/a"[1..2] == "a";
    LookupFinds(fs, ROOT, "a", 0);
    FoundByLookup(fs, None, ROOT, ["a"]);
    var w := Walk(fs, None, ROOT, ["a"]);
    assert IsNamed(fs, ROOT, w.file, "a");
  }

  /** A struct File found or made for a new name leaves every walk as it was. */
  lemma AllocatingIsUnseen(fs: Fs, t: Fs, dir: nat, base: nat, name: string)
    requires Ok(fs) && Ok(t) && dir in fs.nodes && (t == fs || Grown(fs, t, dir, base)) && name != ""
    ensures Lookup(t, dir, name) == Lookup(fs, dir, name)
    ensures forall comps :: Nonempty(comps) ==> Walk(t, None, ROOT, comps) == Walk(fs, None, ROOT, comps)
  {
    if t != fs {
      LookupAfterGrowth(fs, t, dir, base, dir, name, 0);
      forall comps | Nonempty(comps) ensures Walk(t, None, ROOT, comps) == Walk(fs, None, ROOT, comps) {
        WalkAfterGrowth(fs, t, dir, base, None, ROOT, comps);
      }
    }
  }
}
