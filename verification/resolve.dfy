/** Resolving path names in place (user/lib/path.c; the same function again in user/sh.c). */
module Resolve {
  import opened Common
  import opened Names

  // ---- Canonical path names --------------------------------------------------------------

  /** A component of a canonical path name. */
  predicate IsPlain(c: string) {
    IsComponent(c) && c != "." && c != ".." && '\0' !in c && |c| < MAXNAMELEN
  }

  predicate Plain(stack: seq<string>) {
    forall i :: 0 <= i < |stack| ==> IsPlain(stack[i])
  }

  function Body(stack: seq<string>): string {
    if stack == [] then "" else Body(stack[..|stack| - 1]) + "/" + stack[|stack| - 1]
  }

  /** The canonical path name: no empty, `.` or `..` component, no slash at the end except in
      the root's. */
  function Join(stack: seq<string>): string {
    if stack == [] then "/" else Body(stack)
  }

  /** What the components make of the directory reached so far; None: too long a component,
      or a result that does not fit with its terminator into max characters. */
  function Apply(stack: seq<string>, comps: seq<string>, max: nat): Option<seq<string>>
    decreases |comps|
  {
    if comps == [] then Some(stack)
    else if |comps[0]| >= MAXNAMELEN then None
    else if comps[0] == "." then Apply(stack, comps[1..], max)
    else if comps[0] == ".." then Apply(if stack == [] then [] else stack[..|stack| - 1], comps[1..], max)
    else if |Join(stack + [comps[0]])| >= max then None
    else Apply(stack + [comps[0]], comps[1..], max)
  }

  /** The components an absolute path name, or one relative to cwd, stands for. */
  function Resolved(cwd: seq<string>, path: string, max: nat): Option<seq<string>> {
    if path != "" && path[0] == '/' then if max < 2 then None else Apply([], Components(path, 0), max)
    else if |Join(cwd)| >= max then None
    else Apply(cwd, Components(path, 0), max)
  }

  lemma {:induction false} BodyShape(stack: seq<string>)
    requires Plain(stack)
    ensures |stack| > 0 ==> |Body(stack)| > 1 && Body(stack)[0] == '/'
    ensures '\0' !in Body(stack)
    decreases |stack|
  {
    if stack != [] { BodyShape(stack[..|stack| - 1]); }
  }

  /** Behind a slash, a component ends where the next slash or the end comes. */
  lemma {:induction false} EndIsAt(p: string, k: nat, e: nat)
    requires k <= e <= |p| && (forall i :: k <= i < e ==> p[i] != '/') && (e < |p| ==> p[e] == '/')
    ensures End(p, k) == e
    decreases e - k
  {
    if k < e { EndIsAt(p, k + 1, e); }
  }

  lemma {:induction false} SkipShift(a: string, t: string, j: nat)
    requires j <= |t|
    ensures Skip(a + t, |a| + j) == |a| + Skip(t, j)
    decreases |t| - j
  {
    if j < |t| && t[j] == '/' { SkipShift(a, t, j + 1); }
  }

  lemma {:induction false} EndShift(a: string, t: string, j: nat)
    requires j <= |t|
    ensures End(a + t, |a| + j) == |a| + End(t, j)
    decreases |t| - j
  {
    if j < |t| && t[j] != '/' { EndShift(a, t, j + 1); }
  }

  lemma SliceShift(a: string, t: string, q: nat, e: nat)
    requires q <= e <= |t|
    ensures (a + t)[|a| + q..|a| + e] == t[q..e]
  {
  }

  lemma {:induction false} ComponentsShift(a: string, t: string, j: nat)
    requires j <= |t|
    ensures Components(a + t, |a| + j) == Components(t, j)
    decreases |t| - j
  {
    var q := Skip(t, j);
    SkipShift(a, t, j);
    if q < |t| {
      var e := End(t, q);
      EndShift(a, t, q);
      SliceShift(a, t, q, e);
      assert Components(a + t, |a| + j) == [(a + t)[|a| + q..|a| + e]] + Components(a + t, |a| + e);
      ComponentsShift(a, t, e);
    }
  }

  /** The components of two paths with a slash between are those of the one and then those of
      the other. */
  lemma {:induction false} ComponentsConcat(p: string, t: string, k: nat)
    requires k <= |p|
    ensures Components(p + "/" + t, k) == Components(p, k) + Components(t, 0)
    decreases |p| - k
  {
    var s := p + "/" + t;
    var q := Skip(p, k);
    SkipSame(p, s, k);
    if q == |p| {
      ComponentsShift(p + "/", t, 0);
      assert Skip(s, |p|) == Skip(s, |p| + 1);
    } else {
      var e := End(p, q);
      forall i | q <= i < e ensures s[i] != '/' { NoSlashBefore(p, q, i); }
      EndIsAt(s, q, e);
      assert s[q..e] == p[q..e];
      ComponentsConcat(p, t, e);
    }
  }

  /** Appending a component to a path appends it to the components. */
  lemma ComponentsAppend(p: string, c: string, k: nat)
    requires IsComponent(c) && k <= |p|
    ensures Components(p + "/" + c, k) == Components(p, k) + [c]
  {
    ComponentsConcat(p, c, k);
    EndIsAt(c, 0, |c|);
    assert c[0..|c|] == c;
  }

  lemma {:induction false} SkipSame(p: string, s: string, k: nat)
    requires k <= |p| < |s| && (forall i :: 0 <= i < |p| ==> s[i] == p[i]) && s[|p|] == '/'
    ensures Skip(p, k) < |p| ==> Skip(s, k) == Skip(p, k)
    ensures Skip(p, k) == |p| ==> Skip(s, k) == Skip(s, |p|)
    decreases |p| - k
  {
    if k < |p| && p[k] == '/' { SkipSame(p, s, k + 1); }
  }

  /** Splitting a canonical path name gives back its components. */
  lemma {:induction false} ComponentsOfJoin(stack: seq<string>)
    requires Plain(stack)
    ensures Components(Join(stack), 0) == stack
    decreases |stack|
  {
    if stack == [] {
      assert Skip("/", 0) == 1;
    } else {
      var init := stack[..|stack| - 1];
      if init == [] {
        ComponentsAppend("", stack[0], 0);
        assert "" + "/" + stack[0] == Body(stack);
      } else {
        ComponentsOfJoin(init);
        ComponentsAppend(Body(init), stack[|stack| - 1], 0);
      }
    }
  }

  predicate NoZero(comps: seq<string>) {
    forall i :: 0 <= i < |comps| ==> IsComponent(comps[i]) && '\0' !in comps[i]
  }

  lemma PlainSteps(stack: seq<string>, c: string)
    requires Plain(stack)
    ensures IsPlain(c) ==> Plain(stack + [c])
    ensures stack != [] ==> Plain(stack[..|stack| - 1])
  {
  }

  /** What one component makes of the directory. */
  function Step(stack: seq<string>, c: string): seq<string> {
    if c == "." then stack else if c == ".." then if stack == [] then [] else stack[..|stack| - 1] else stack + [c]
  }

  lemma StepIsPlain(stack: seq<string>, c: string, max: nat)
    requires Plain(stack) && IsComponent(c) && '\0' !in c && |c| < MAXNAMELEN && |Join(stack)| < max
    ensures Plain(Step(stack, c)) && (c == "." || c == ".." ==> |Join(Step(stack, c))| < max)
  {
    PlainSteps(stack, c);
    UpIsShorter(stack);
  }

  /** The result is canonical and fits. */
  lemma {:induction false} ApplyIsPlain(stack: seq<string>, comps: seq<string>, max: nat)
    requires Plain(stack) && NoZero(comps) && |Join(stack)| < max
    ensures var r := Apply(stack, comps, max); r.Some? ==> Plain(r.value) && |Join(r.value)| < max
    decreases |comps|
  {
    if comps != [] && |comps[0]| < MAXNAMELEN {
      var after := Step(stack, comps[0]);
      StepIsPlain(stack, comps[0], max);
      if |Join(after)| < max { ApplyIsPlain(after, comps[1..], max); }
    }
  }

  // ---- When a path resolves, and to what -----------------------------------------------------

  /** The directory reached, whatever its name's length: of the last component, `.` stays, `..`
      goes to the parent, and any other goes down. */
  function Reached(stack: seq<string>, comps: seq<string>): seq<string> {
    if comps == [] then stack
    else
      var before, last := Reached(stack, comps[..|comps| - 1]), comps[|comps| - 1];
      if last == "." then before
      else if last == ".." then if before == [] then [] else before[..|before| - 1]
      else before + [last]
  }

  /** No component is too long, and wherever the path goes down, the name of the directory
      reached there fits. */
  predicate Fits(stack: seq<string>, comps: seq<string>, max: nat) {
    comps == [] ||
    var init, last := comps[..|comps| - 1], comps[|comps| - 1];
    && Fits(stack, init, max) && |last| < MAXNAMELEN
    && (last == "." || last == ".." || |Join(Reached(stack, comps))| < max)
  }

  lemma {:induction false} ApplyLast(stack: seq<string>, comps: seq<string>, last: string, max: nat)
    ensures var t := Apply(stack, comps, max);
      Apply(stack, comps + [last], max) == if t.None? then None else Apply(t.value, [last], max)
    decreases |comps|
  {
    if comps == [] {
      assert comps + [last] == [last];
    } else {
      assert (comps + [last])[1..] == comps[1..] + [last];
      if |comps[0]| < MAXNAMELEN { ApplyLast(Step(stack, comps[0]), comps[1..], last, max); }
    }
  }

  /** Components resolve if and only if they fit, and then to the directory they reach. */
  lemma {:induction false} ResolvesIff(stack: seq<string>, comps: seq<string>, max: nat)
    ensures Apply(stack, comps, max) == if Fits(stack, comps, max) then Some(Reached(stack, comps)) else None
    decreases |comps|
  {
    if comps != [] {
      var init, last := comps[..|comps| - 1], comps[|comps| - 1];
      assert comps == init + [last];
      ResolvesIff(stack, init, max);
      ApplyLast(stack, init, last, max);
    }
  }

  /** A `.` component changes nothing, wherever it stands in a path name. */
  lemma DotChangesNothing(cwd: seq<string>, p: string, t: string, max: nat)
    requires p != ""
    ensures Resolved(cwd, p + "/./" + t, max) == Resolved(cwd, p + "/" + t, max)
  {
    var a, b := Components(p, 0), Components(t, 0);
    assert p + "/./" + t == p + "/" + ("." + "/" + t);
    ComponentsConcat(p, "." + "/" + t, 0);
    ComponentsConcat(".", t, 0);
    ComponentsConcat(p, t, 0);
    assert Components(".", 0) == ["."] by {
      EndIsAt(".", 0, 1);
      assert "."[0..1] == ".";
    }
    assert Components(p + "/./" + t, 0) == a + (["."] + b);
    DotStays(cwd, a, b, max);
    DotStays([], a, b, max);
  }

  lemma {:induction false} DotStays(stack: seq<string>, a: seq<string>, b: seq<string>, max: nat)
    ensures Apply(stack, a + (["."] + b), max) == Apply(stack, a + b, max)
    decreases |a|
  {
    if a == [] {
      assert a + (["."] + b) == ["."] + b && a + b == b;
    } else {
      assert (a + (["."] + b))[1..] == a[1..] + (["."] + b) && (a + b)[1..] == a[1..] + b;
      if |a[0]| < MAXNAMELEN { DotStays(Step(stack, a[0]), a[1..], b, max); }
    }
  }

  /** Plain components are pushed one by one. */
  lemma {:induction false} ApplyPlain(stack: seq<string>, comps: seq<string>, max: nat)
    requires Plain(stack) && Plain(comps) && |Join(stack + comps)| < max
    ensures Apply(stack, comps, max) == Some(stack + comps)
    decreases |comps|
  {
    if comps == [] {
      assert stack + comps == stack;
    } else {
      assert stack + [comps[0]] + comps[1..] == stack + comps;
      JoinGrows(stack + [comps[0]], comps[1..]);
      ApplyPlain(stack + [comps[0]], comps[1..], max);
    }
  }

  lemma {:induction false} JoinGrows(stack: seq<string>, more: seq<string>)
    requires Plain(stack) && Plain(more)
    ensures |Join(stack)| <= |Join(stack + more)|
    decreases |more|
  {
    if more == [] {
      assert stack + more == stack;
    } else {
      var init := more[..|more| - 1];
      assert (stack + more)[..|stack + more| - 1] == stack + init;
      JoinGrows(stack, init);
      BodyShape(stack + init);
    }
  }

  /** A canonical path name stands for its own components. */
  lemma CanonicalResolves(r: seq<string>, max: nat, cwd: seq<string>)
    requires Plain(r) && |Join(r)| < max
    ensures Resolved(cwd, Join(r), max) == Some(r)
  {
    BodyShape(r);
    ComponentsOfJoin(r);
    ApplyPlain([], r, max) by { assert [] + r == r; }
    assert [] + r == r;
  }

  lemma ResolvedIsPlain(cwd: seq<string>, path: string, max: nat)
    requires Plain(cwd) && '\0' !in path && Resolved(cwd, path, max).Some?
    ensures Plain(Resolved(cwd, path, max).value) && |Join(Resolved(cwd, path, max).value)| < max
  {
    PathComponents(path, 0);
    ApplyIsPlain(if path != "" && path[0] == '/' then [] else cwd, Components(path, 0), max);
  }

  /** Resolving a result again, from any directory, gives it back, and the file server
      splits it into the same components. */
  lemma ResolveIsIdempotent(cwd: seq<string>, path: string, max: nat, cwd2: seq<string>)
    requires Plain(cwd) && '\0' !in path && Resolved(cwd, path, max).Some?
    ensures var r := Resolved(cwd, path, max).value;
      Plain(r) && |Join(r)| < max && Resolved(cwd2, Join(r), max) == Some(r) && Components(Join(r), 0) == r
  {
    var r := Resolved(cwd, path, max).value;
    ResolvedIsPlain(cwd, path, max);
    CanonicalResolves(r, max, cwd2);
    ComponentsOfJoin(r);
  }

  /** Plain components are pushed, if the path name they make fits. */
  lemma {:induction false} PlainArePushed(stack: seq<string>, plain: seq<string>, comps: seq<string>, max: nat)
    requires Plain(stack) && Plain(plain) && |Join(stack)| < max
    ensures Apply(stack, plain + comps, max) == if |Join(stack + plain)| < max then Apply(stack + plain, comps, max)
      else None
    decreases |plain|
  {
    if plain == [] {
      assert plain + comps == comps && stack + plain == stack;
    } else {
      var first, rest := plain[0], plain[1..];
      assert (plain + comps)[0] == first && (plain + comps)[1..] == rest + comps;
      assert stack + [first] + rest == stack + plain;
      JoinGrows(stack + [first], rest);
      if |Join(stack + [first])| < max { PlainArePushed(stack + [first], rest, comps, max); }
    }
  }

  /** A relative path means what it means behind the name of the current directory. */
  lemma RelativeIsBelowCwd(cwd: seq<string>, path: string, max: nat, other: seq<string>)
    requires Plain(cwd) && (path == "" || path[0] != '/')
    ensures Resolved(cwd, path, max) == Resolved(other, Join(cwd) + "/" + path, max)
  {
    var comps := Components(path, 0);
    BodyShape(cwd);
    ComponentsConcat(Join(cwd), path, 0);
    ComponentsOfJoin(cwd);
    if max >= 2 {
      PlainArePushed([], cwd, comps, max);
      assert [] + cwd == cwd;
    }
  }

  /** Going down to c and up again is staying, and the root is its own parent. */
  lemma ParentUndoesChild(stack: seq<string>, c: string, rest: seq<string>, max: nat)
    requires Plain(stack) && IsPlain(c) && |Join(stack + [c])| < max
    ensures Apply(stack, [c, ".."] + rest, max) == Apply(stack, rest, max)
    ensures Apply([], [".."] + rest, max) == Apply([], rest, max)
  {
    assert ([c, ".."] + rest)[1..] == [".."] + rest && ([".."] + rest)[1..] == rest;
    assert (stack + [c])[..|stack + [c]| - 1] == stack;
  }

  lemma {:induction false} PathComponents(path: string, k: nat)
    requires '\0' !in path && k <= |path|
    ensures NoZero(Components(path, k))
    decreases |path| - k
  {
    ComponentsAreNames(path, k);
    var q := Skip(path, k);
    if q < |path| { PathComponents(path, End(path, q)); }
  }

  // ---- The buffer ---------------------------------------------------------------------------

  /** buf holds the C string s. */
  ghost predicate Holds(buf: array<char>, s: string)
    reads buf
  {
    |s| < buf.Length && buf[..|s|] == s && buf[|s|] == '\0' && '\0' !in s
  }

  method StrLen(buf: array<char>, ghost s: string) returns (n: nat)
    requires Holds(buf, s)
    ensures n == |s|
  {
    assert forall i :: 0 <= i < |s| ==> buf[i] == s[i] && s[i] in s;
    n := 0;
    while buf[n] != '\0'
      invariant n <= |s|
      decreases |s| - n
    {
      assert buf[n] == buf[..|s|][n];
      n := n + 1;
    }
  }

  /** strcpy to buf + at. */
  method StrCpy(buf: array<char>, at: nat, c: string)
    requires at + |c| < buf.Length && '\0' !in c
    modifies buf
    ensures buf[..at] == old(buf[..at]) && buf[at..at + |c|] == c && buf[at + |c|] == '\0'
    ensures buf[at + |c| + 1..] == old(buf[at + |c| + 1..])
  {
    var i := 0;
    while i < |c|
      invariant 0 <= i <= |c| && buf[..at] == old(buf[..at]) && buf[at..at + i] == c[..i]
      invariant buf[at + |c| + 1..] == old(buf[at + |c| + 1..])
    {
      buf[at + i] := c[i];
      i := i + 1;
      assert c[..i] == c[..i - 1] + [c[i - 1]];
    }
    buf[at + |c|] := '\0';
  }

  /** Only the slash before it lies at or behind the end of the parent's path name. */
  lemma CutsAtSlash(stack: seq<string>, i: nat)
    requires Plain(stack) && stack != [] && |Body(stack[..|stack| - 1])| <= i < |Body(stack)| && Body(stack)[i] == '/'
    ensures i == |Body(stack[..|stack| - 1])|
  {
    var n, last := |Body(stack[..|stack| - 1])|, stack[|stack| - 1];
    assert forall k :: n < k < |Body(stack)| ==> Body(stack)[k] == last[k - n - 1] && last[k - n - 1] in last;
  }

  /** One directory up: cut at the last slash, but never the root's. */
  method GoUp(buf: array<char>, ghost stack: seq<string>)
    requires Plain(stack) && Holds(buf, Join(stack))
    modifies buf
    ensures Holds(buf, Join(if stack == [] then [] else stack[..|stack| - 1]))
    ensures buf[|Join(stack)| + 1..] == old(buf[|Join(stack)| + 1..])
  {
    BodyShape(stack);
    var len := StrLen(buf, Join(stack));
    if len > 1 {
      ghost var init, last := stack[..|stack| - 1], stack[|stack| - 1];
      ghost var s := Body(stack);
      BodyShape(init);
      var i: int := len - 1;
      assert buf[i] == s[i] == last[|last| - 1];
      if buf[i] == '/' {
        i := i - 1;
      }
      while i > 0 && buf[i] != '/'
        invariant |Body(init)| <= i < len && buf[..] == old(buf[..])
      {
        assert buf[i - 1] == s[i - 1];
        i := i - 1;
      }
      assert buf[i] == s[i];
      CutsAtSlash(stack, i);
      buf[if i > 0 then i else 1] := '\0';
      assert s[..i] == Body(init);
      if init == [] { assert s[..1] == "/"; }
    }
  }

  /** The separator behind the path name, unless it is the root's. */
  method Separate(buf: array<char>, max: nat, ghost stack: seq<string>) returns (ok: bool, len: nat)
    requires Plain(stack) && Holds(buf, Join(stack)) && max <= buf.Length && |Join(stack)| < max
    modifies buf
    ensures ok <==> |Body(stack)| + 1 < max
    ensures ok ==> len == |Body(stack)| + 1 && buf[..len] == Body(stack) + "/" && '\0' !in Body(stack)
    ensures buf[max..] == old(buf[max..])
  {
    BodyShape(stack);
    len := StrLen(buf, Join(stack));
    if len > 1 {
      if len + 1 >= max {
        return false, len;
      }
      buf[len] := '/';
      len := len + 1;
      buf[len] := '\0';
    }
    ok := true;
  }

  /** Append a component, with a separator unless at the root; false if it does not fit. */
  method Append(buf: array<char>, component: string, max: nat, ghost stack: seq<string>) returns (ok: bool)
    requires Plain(stack) && Holds(buf, Join(stack)) && max <= buf.Length && '\0' !in component && |Join(stack)| < max
    modifies buf
    ensures ok <==> |Join(stack + [component])| < max
    ensures ok ==> Holds(buf, Join(stack + [component]))
    ensures buf[max..] == old(buf[max..])
  {
    assert (stack + [component])[..|stack|] == stack;
    assert Join(stack + [component]) == Body(stack) + "/" + component;
    var len;
    ok, len := Separate(buf, max, stack);
    if !ok {
      return;
    }
    if len + |component| >= max {
      return false;
    }
    StrCpy(buf, len, component);
    assert forall k :: max <= k < buf.Length ==> buf[k] == buf[len + |component| + 1..][k - len - |component| - 1];
    assert buf[..len + |component|] == buf[..len] + buf[len..len + |component|];
    ok := true;
  }

  lemma UpIsShorter(stack: seq<string>)
    requires Plain(stack)
    ensures |Join(if stack == [] then [] else stack[..|stack| - 1])| <= |Join(stack)|
  {
    BodyShape(stack);
    if stack != [] { BodyShape(stack[..|stack| - 1]); }
  }

  /** What one component does to the path name in the buffer. */
  method Enter(buf: array<char>, component: string, max: nat, ghost stack: seq<string>, ghost rest: seq<string>)
    returns (ok: bool, ghost after: seq<string>)
    requires Plain(stack) && Holds(buf, Join(stack)) && max <= buf.Length && |Join(stack)| < max
    requires NoZero([component] + rest) && |component| < MAXNAMELEN
    modifies buf
    ensures ok ==> Plain(after) && Holds(buf, Join(after)) && |Join(after)| < max
    ensures Apply(stack, [component] + rest, max) == if ok then Apply(after, rest, max) else None
    ensures buf[max..] == old(buf[max..])
  {
    assert ([component] + rest)[0] == component && ([component] + rest)[1..] == rest;
    after := stack;
    if component == "." {
      return true, stack;
    }
    if component == ".." {
      var n := |Join(stack)| + 1;
      GoUp(buf, stack);
      assert buf[max..] == buf[n..][max - n..];
      UpIsShorter(stack);
      after := if stack == [] then [] else stack[..|stack| - 1];
      ok := true;
    } else {
      ok := Append(buf, component, max, stack);
      after := stack + [component];
    }
  }

  /** The next component of the path lies at [begin, end); there is none at its end. */
  method NextComponent(path: string, at: nat) returns (begin: nat, end: nat)
    requires at <= |path|
    ensures begin == Skip(path, at) <= end <= |path| && end == End(path, begin)
  {
    begin := at;
    while begin < |path| && path[begin] == '/'
      invariant at <= begin <= |path| && Skip(path, begin) == Skip(path, at)
    {
      begin := begin + 1;
    }
    end := begin;
    while end < |path| && path[end] != '/'
      invariant begin <= end <= |path| && End(path, end) == End(path, begin)
    {
      end := end + 1;
    }
  }

  /** The loop over the path from position p: buf goes from one canonical path name to the
      one the components make of it. */
  method WalkComponents(path: string, p: nat, buf: array<char>, max: nat, ghost stack: seq<string>) returns (ok: bool)
    requires Plain(stack) && Holds(buf, Join(stack)) && max <= buf.Length && |Join(stack)| < max && '\0' !in path &&
      p <= |path|
    modifies buf
    ensures ok <==> Apply(stack, Components(path, p), max).Some?
    ensures ok ==> Holds(buf, Join(Apply(stack, Components(path, p), max).value))
    ensures buf[max..] == old(buf[max..])
  {
    ghost var goal, st := Apply(stack, Components(path, p), max), stack;
    var at := p;
    while at < |path|
      invariant p <= at <= |path| && Plain(st) && Holds(buf, Join(st)) && |Join(st)| < max
      invariant Apply(st, Components(path, at), max) == goal && buf[max..] == old(buf[max..])
      decreases |path| - at
    {
      PathComponents(path, at);
      var begin, end := NextComponent(path, at);
      if begin == |path| {
        break;
      }
      ghost var rest := Components(path, end);
      assert Components(path, at) == [path[begin..end]] + rest;
      if end - begin >= MAXNAMELEN {
        return false;
      }
      ok, st := Enter(buf, path[begin..end], max, st, rest);
      if !ok {
        return;
      }
      at := end;
    }
    ok := true;
  }

  /** strcpy of "/". */
  method StartAtRoot(buf: array<char>)
    requires buf.Length >= 2
    modifies buf
    ensures Holds(buf, "/") && buf[2..] == old(buf[2..])
  {
    StrCpy(buf, 0, "/");
    assert buf[..1] == buf[0..0 + 1];
  }

  /** resolve_path of user/lib/path.c, from a canonical current directory.  Success is
      exactly that the components resolve within max characters, and the buffer then holds
      the canonical result.  `buf` is the memory from resolved_path on, of which the caller
      gave max characters. */
  method ResolvePath(path: string, cwd: string, ghost dirs: seq<string>, buf: array<char>, max: nat) returns (ok: bool)
    requires Plain(dirs) && cwd == Join(dirs) && '\0' !in path && max <= buf.Length && (path == "" ==> buf.Length >= 2)
    modifies buf
    ensures ok <==> path == "" || Resolved(dirs, path, max).Some?
    ensures ok ==> Holds(buf, Join(if path == "" then [] else Resolved(dirs, path, max).value))
    ensures buf[max..] == old(buf[max..]) <==> path != "" || max >= 2 || old(buf[max..2]) == "/\0"[max..]
  {
    BodyShape(dirs);
    if path == "" {
      ghost var was := buf[..];
      StartAtRoot(buf);
      RootFits(was, buf[..], max);
      return true;
    }
    if path[0] == '/' {
      if max < 2 {
        return false;
      }
      StartAtRoot(buf);
      assert buf[max..] == buf[2..][max - 2..];
      ok := WalkComponents(path, 1, buf, max, []);
    } else {
      if |cwd| >= max {
        return false;
      }
      StrCpy(buf, 0, cwd);
      assert buf[..|cwd|] == buf[0..0 + |cwd|];
      assert buf[max..] == buf[0 + |cwd| + 1..][max - |cwd| - 1..];
      ok := WalkComponents(path, 0, buf, max, dirs);
    }
  }

  /** Writing "/" and its terminator leaves what follows max alone. */
  lemma RootFits(before: seq<char>, after: seq<char>, max: nat)
    requires |before| == |after| >= 2 && max <= |before| && after[..2] == "/\0" && after[2..] == before[2..]
    ensures after[max..] == before[max..] <==> max >= 2 || before[max..2] == "/\0"[max..]
  {
    if max < 2 {
      assert after[max..] == "/\0"[max..] + after[2..];
      assert before[max..] == before[max..2] + before[2..];
    } else {
      assert after[max..] == after[2..][max - 2..] && before[max..] == before[2..][max - 2..];
    }
  }

  /** resolve_path of user/sh.c differs in its check for an empty path. */
  method ResolvePathSh(path: string, cwd: string, ghost dirs: seq<string>, buf: array<char>, max: nat)
    returns (ok: bool)
    requires Plain(dirs) && cwd == Join(dirs) && '\0' !in path && max <= buf.Length
    modifies buf
    ensures ok <==> (if path == "" then max >= 2 else Resolved(dirs, path, max).Some?)
    ensures ok ==> Holds(buf, Join(if path == "" then [] else Resolved(dirs, path, max).value))
  {
    BodyShape(dirs);
    if path == "" {
      if max < 2 {
        return false;
      }
      StrCpy(buf, 0, "/");
      assert buf[..1] == buf[0..0 + 1];
      return true;
    }
    if path[0] == '/' {
      if max < 2 {
        return false;
      }
      StrCpy(buf, 0, "/");
      assert buf[..1] == buf[0..0 + 1];
      ok := WalkComponents(path, 1, buf, max, []);
    } else {
      if |cwd| >= max {
        return false;
      }
      StrCpy(buf, 0, cwd);
      assert buf[..|cwd|] == buf[0..0 + |cwd|];
      ok := WalkComponents(path, 0, buf, max, dirs);
    }
  }
}
