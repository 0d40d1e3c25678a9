/** Path names as components: what fs/fs.c, user/lib/path.c and user/sh.c split at slashes. */
module Names {
  /** The first position from k on without a slash. */
  function Skip(p: string, k: nat): (r: nat)
    requires k <= |p|
    ensures k <= r <= |p| && (r < |p| ==> p[r] != '/')
    decreases |p| - k
  {
    if k < |p| && p[k] == '/' then Skip(p, k + 1) else k
  }

  /** The first position from k on with a slash, or the end. */
  function End(p: string, k: nat): (r: nat)
    requires k <= |p|
    ensures k <= r <= |p| && (r < |p| ==> p[r] == '/')
    decreases |p| - k
  {
    if k < |p| && p[k] != '/' then End(p, k + 1) else k
  }

  /** The components of p from position k on: the parts between slashes, without the empty
      ones. */
  function Components(p: string, k: nat): seq<string>
    requires k <= |p|
    decreases |p| - k
  {
    var q := Skip(p, k);
    if q == |p| then [] else [p[q..End(p, q)]] + Components(p, End(p, q))
  }

  lemma {:induction false} NoSlashBefore(p: string, k: nat, i: nat)
    requires k <= |p| && k <= i < End(p, k)
    ensures p[i] != '/'
    decreases i - k
  {
    if k < i { NoSlashBefore(p, k + 1, i); }
  }

  predicate IsComponent(c: string) {
    c != "" && '/' !in c
  }

  /** No component is empty or holds a slash. */
  lemma {:induction false} ComponentsAreNames(p: string, k: nat)
    requires k <= |p|
    ensures forall i :: 0 <= i < |Components(p, k)| ==> IsComponent(Components(p, k)[i])
    decreases |p| - k
  {
    var q := Skip(p, k);
    if q < |p| {
      forall i | q <= i < End(p, q) ensures p[i] != '/' { NoSlashBefore(p, q, i); }
      ComponentsAreNames(p, End(p, q));
    }
  }
}
