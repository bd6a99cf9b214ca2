/** Component resolution in the kernel (src/builtin/kernel.cc): deploying,
    installing in dependency order, and the fixpoint that drives it. */
module Kernel {
  import opened Basics

  type Name = nat

  const NOT_INSTALLED := 0
  const INSTALLED := 6
  const ERROR := 7

  /** What the deployers know of the components: the dependencies of each, and
      which install actions end in an error. */
  datatype World = World(deps: map<Name, seq<Name>>, fails: set<(Name, int)>)

  /** `states` gives each context's state; `uninstalled` the components that
      deployers hold; `perState` the contexts in each state. */
  datatype Contexts = Contexts(states: map<Name, int>, uninstalled: set<Name>, perState: seq<seq<Name>>)

  // ----- What it should come to

  predicate Sound(w: World, n: Name) { forall s | 1 <= s <= INSTALLED :: (n, s) !in w.fails }

  /** In the well-founded part of the dependency graph, at a depth below `k`:
      no action of its own fails, and neither do those of its dependencies. */
  ghost predicate Grounded(w: World, n: Name, k: nat)
    decreases k
  {
    k > 0 && Sound(w, n) && n in w.deps && forall i | 0 <= i < |w.deps[n]| :: Grounded(w, w.deps[n][i], k - 1)
  }

  ghost predicate WellFounded(w: World, n: Name) { exists k :: Grounded(w, n, k) }

  // ----- The invariant

  predicate Installed(c: Contexts, n: Name) { n in c.states && c.states[n] == INSTALLED }

  ghost predicate DepsInstalled(w: World, c: Contexts, n: Name) {
    n in w.deps && forall d | d in w.deps[n] :: Installed(c, d)
  }

  ghost predicate NoDup(s: seq<Name>) { forall i, j | 0 <= i < j < |s| :: s[i] != s[j] }

  /** Each context is in exactly one vector, the one for its state. */
  ghost predicate Filed(c: Contexts) {
    && |c.perState| == 8
    && (forall s, n | 0 <= s < 8 && n in c.perState[s] :: n in c.states && c.states[n] == s)
    && (forall n | n in c.states :: 0 <= c.states[n] < 8 && n in c.perState[c.states[n]])
    && (forall s | 0 <= s < 8 :: NoDup(c.perState[s]))
  }

  /** A context past NOT_INSTALLED has its dependencies installed, and none of
      the actions it went through failed. */
  ghost predicate Progressed(w: World, c: Contexts) {
    forall n | n in c.states && c.states[n] != NOT_INSTALLED ::
      DepsInstalled(w, c, n) && (c.states[n] != ERROR ==> forall s | 1 <= s <= c.states[n] :: (n, s) !in w.fails)
                             && (c.states[n] == ERROR ==> !Sound(w, n))
  }

  ghost predicate Inv(w: World, c: Contexts) {
    && Filed(c) && Progressed(w, c)
    && (forall n | n in c.states :: n in w.deps && WellFoundedIfInstalled(w, c, n))
    && (forall n | n in c.uninstalled :: n in w.deps && n !in c.states)
  }

  ghost predicate WellFoundedIfInstalled(w: World, c: Contexts, n: Name) {
    Installed(c, n) ==> WellFounded(w, n)
  }

  predicate Known(c: Contexts, n: Name) { n in c.states || n in c.uninstalled }

  /** Every named dependency can be found. */
  ghost predicate Closed(w: World, c: Contexts) {
    forall n, d | Known(c, n) && n in w.deps && d in w.deps[n] :: Known(c, d)
  }

  // ----- Steps on the contexts

  function Deployed(c: Contexts, n: Name): Contexts
    requires |c.perState| == 8
  {
    Contexts(c.states[n := NOT_INSTALLED], c.uninstalled - {n}, c.perState[0 := c.perState[0] + [n]])
  }

  function Remove(s: seq<Name>, n: Name): seq<Name> {
    if s == [] then [] else if s[0] == n then s[1..] else [s[0]] + Remove(s[1..], n)
  }

  /** The state after an install action. */
  function Reached(w: World, n: Name, to: int): int { if (n, to) in w.fails then ERROR else to }

  function Moved(c: Contexts, n: Name, from: int, to: int): Contexts
    requires |c.perState| == 8 && 0 <= from < 8 && 0 <= to < 8
  {
    var ps := c.perState[from := Remove(c.perState[from], n)];
    Contexts(c.states[n := to], c.uninstalled, ps[to := ps[to] + [n]])
  }

  lemma {:induction false} RemoveIn(s: seq<Name>, n: Name, x: Name)
    requires NoDup(s)
    ensures x in Remove(s, n) <==> x in s && x != n
  {
    if s != [] {
      RemoveIn(s[1..], n, x);
      assert x in s <==> x == s[0] || x in s[1..];
    }
  }

  lemma {:induction false} RemoveNoDup(s: seq<Name>, n: Name)
    requires NoDup(s)
    ensures NoDup(Remove(s, n)) && |Remove(s, n)| == |s| - if n in s then 1 else 0
  {
    if s != [] && s[0] != n {
      RemoveNoDup(s[1..], n);
      RemoveIn(s[1..], n, s[0]);
    }
  }

  lemma DeployedInv(w: World, c: Contexts, n: Name)
    requires Inv(w, c) && n in c.uninstalled
    ensures Inv(w, Deployed(c, n))
  {
    DeployedFiled(c, n);
    var e := Deployed(c, n);
    forall m | m in e.states && e.states[m] != NOT_INSTALLED ensures DepsInstalled(w, e, m) {
      assert DepsInstalled(w, c, m);
    }
    forall m | Installed(e, m) ensures WellFounded(w, m) { assert WellFoundedIfInstalled(w, c, m); }
  }

  lemma DeployedFiled(c: Contexts, n: Name)
    requires Filed(c) && n !in c.states
    ensures Filed(Deployed(c, n))
  {
    assert n !in c.perState[0];
  }

  lemma {:induction false} GroundedMore(w: World, n: Name, k: nat, m: nat)
    requires Grounded(w, n, k) && k <= m
    ensures Grounded(w, n, m)
    decreases k
  {
    forall i | 0 <= i < |w.deps[n]| ensures Grounded(w, w.deps[n][i], m - 1) {
      GroundedMore(w, w.deps[n][i], k - 1, m - 1);
    }
  }

  /** One depth for several. */
  lemma {:induction false} GroundedAll(w: World, ds: seq<Name>) returns (k: nat)
    requires forall d | d in ds :: WellFounded(w, d)
    ensures forall d | d in ds :: Grounded(w, d, k)
  {
    if ds == [] {
      k := 0;
    } else {
      var k' := GroundedAll(w, ds[1..]);
      assert ds[0] in ds;
      var k0 :| Grounded(w, ds[0], k0);
      k := if k' < k0 then k0 else k';
      GroundedMore(w, ds[0], k0, k);
      forall d | d in ds[1..] ensures Grounded(w, d, k) { GroundedMore(w, d, k', k); }
    }
  }

  /** A component with installed dependencies, none of whose actions fail, is
      well-founded. */
  lemma InstalledIsFounded(w: World, c: Contexts, n: Name)
    requires Inv(w, c) && DepsInstalled(w, c, n) && Sound(w, n)
    ensures WellFounded(w, n)
  {
    forall d | d in w.deps[n] ensures WellFounded(w, d) { assert Installed(c, d) && WellFoundedIfInstalled(w, c, d); }
    var k := GroundedAll(w, w.deps[n]);
    assert Grounded(w, n, k + 1);
  }

  lemma FiledOnce(c: Contexts, n: Name, s: int, t: int)
    requires Filed(c) && 0 <= s < 8 && 0 <= t < 8 && s != t && n in c.perState[s]
    ensures n !in c.perState[t]
  {
    assert c.states[n] == s;
  }

  lemma MovedFiled(c: Contexts, n: Name, from: int, to: int)
    requires Filed(c) && 0 <= from < 8 && 0 <= to < 8 && from != to && n in c.perState[from]
    ensures Filed(Moved(c, n, from, to))
    ensures |Moved(c, n, from, to).perState[from]| == |c.perState[from]| - 1
    ensures |Moved(c, n, from, to).perState[to]| == |c.perState[to]| + 1 && n !in Moved(c, n, from, to).perState[from]
  {
    RemoveNoDup(c.perState[from], n);
    forall x ensures x in Remove(c.perState[from], n) <==> x in c.perState[from] && x != n {
      RemoveIn(c.perState[from], n, x);
    }
    FiledOnce(c, n, from, to);
  }

  /** An install action, taken when the dependencies are installed. */
  lemma MovedInv(w: World, c: Contexts, n: Name, from: int)
    requires Inv(w, c) && 0 <= from < INSTALLED && n in c.perState[from] && DepsInstalled(w, c, n)
    ensures Inv(w, Moved(c, n, from, Reached(w, n, from + 1)))
  {
    var to := Reached(w, n, from + 1);
    var e := Moved(c, n, from, to);
    MovedFiled(c, n, from, to);
    MovedProgressed(w, c, n, from, to);
    if to == INSTALLED { InstalledIsFounded(w, c, n); }
    forall m | m in e.states ensures m in w.deps && WellFoundedIfInstalled(w, e, m) {
      if m != n { assert WellFoundedIfInstalled(w, c, m); }
    }
  }

  lemma MovedProgressed(w: World, c: Contexts, n: Name, from: int, to: int)
    requires Progressed(w, c) && n in c.states && c.states[n] == from && 0 <= from < INSTALLED && DepsInstalled(w, c, n)
    requires to == Reached(w, n, from + 1)
    ensures forall s | 1 <= s <= from :: (n, s) !in w.fails
    ensures |c.perState| == 8 ==> Progressed(w, Moved(c, n, from, to))
  {
  }

  // ----- The fixpoint

  ghost predicate AllInstalled(c: Contexts, ds: seq<Name>) { forall d | d in ds :: Installed(c, d) }

  /** Dependency number `i` is the first that is not installed, and is a context. */
  ghost predicate HeldUpAt(w: World, c: Contexts, n: Name, i: nat) {
    && n in w.deps && i < |w.deps[n]| && AllInstalled(c, w.deps[n][..i])
    && w.deps[n][i] in c.states && !Installed(c, w.deps[n][i])
  }

  ghost predicate HeldUp(w: World, c: Contexts, n: Name) { exists i: nat :: HeldUpAt(w, c, n, i) }

  ghost predicate Settled(w: World, c: Contexts) {
    forall n | n in c.states && c.states[n] < INSTALLED :: HeldUp(w, c, n)
  }

  /** Where nothing moves any more, the installed contexts are exactly the
      well-founded ones. */
  lemma {:induction false} SettledInstalls(w: World, c: Contexts, n: Name, k: nat)
    requires Inv(w, c) && Settled(w, c) && n in c.states && Grounded(w, n, k)
    ensures Installed(c, n)
    decreases k
  {
    assert c.states[n] != ERROR;
    if c.states[n] < INSTALLED {
      assert HeldUp(w, c, n);
      var i: nat :| HeldUpAt(w, c, n, i);
      SettledInstalls(w, c, w.deps[n][i], k - 1);
    }
  }

  lemma InstalledIffFounded(w: World, c: Contexts, n: Name)
    requires Inv(w, c) && Settled(w, c) && n in c.states
    ensures Installed(c, n) <==> WellFounded(w, n)
  {
    assert WellFoundedIfInstalled(w, c, n);
    if WellFounded(w, n) {
      var k :| Grounded(w, n, k);
      SettledInstalls(w, c, n, k);
    }
  }

  /** What is left to do. */
  function Work(c: Contexts): nat {
    if |c.perState| != 8 then 0
    else 6 * |c.perState[0]| + 5 * |c.perState[1]| + 4 * |c.perState[2]| + 3 * |c.perState[3]| + 2 * |c.perState[4]| + |c.perState[5]|
  }

  lemma MovedWork(c: Contexts, n: Name, from: int, to: int)
    requires Filed(c) && 0 <= from < INSTALLED && (to == from + 1 || to == ERROR) && n in c.perState[from]
    ensures Work(Moved(c, n, from, to)) < Work(c)
  {
    MovedFiled(c, n, from, to);
  }

  /** From `c` to `e` only deployments happened, if anything. */
  ghost predicate Grew(c: Contexts, e: Contexts) {
    && e.uninstalled <= c.uninstalled
    && (forall n :: Known(e, n) <==> Known(c, n))
    && (forall n | n in c.states :: n in e.states && e.states[n] == c.states[n])
    && (forall n | n in e.states && n !in c.states :: e.states[n] == NOT_INSTALLED)
    && |c.perState| == |e.perState| == 8
    && c.perState[0] <= e.perState[0]
    && (forall s | 1 <= s < 8 :: e.perState[s] == c.perState[s])
    && (e.uninstalled == c.uninstalled ==> e == c)
  }

  lemma GrewDeployed(c: Contexts, n: Name)
    requires Filed(c) && n in c.uninstalled && n !in c.states
    ensures Grew(c, Deployed(c, n))
  {
  }

  lemma GrewOn(c: Contexts, d: Contexts, e: Contexts)
    requires Grew(c, d) && Grew(d, e)
    ensures Grew(c, e)
  {
  }

  lemma StillHeldUp(w: World, c: Contexts, e: Contexts, n: Name)
    requires Grew(c, e) && HeldUp(w, c, n)
    ensures HeldUp(w, e, n)
  {
    var i: nat :| HeldUpAt(w, c, n, i);
    assert HeldUpAt(w, e, n, i);
  }

  lemma StillInstalled(c: Contexts, e: Contexts, ds: seq<Name>)
    requires Grew(c, e) && AllInstalled(c, ds)
    ensures AllInstalled(e, ds)
  {
  }

  // ----- When resolving throws

  /** Where resolving starts: the contexts that are on their way, and the
      components that are known. */
  datatype Start = Start(open: set<Name>, known: set<Name>)

  ghost function StartOf(c: Contexts): Start {
    Start((set n | n in c.states && c.states[n] < INSTALLED), c.states.Keys + c.uninstalled)
  }

  /** The dependencies of `n` before number `j` are well-founded. */
  ghost predicate FoundedBefore(w: World, n: Name, j: nat) {
    n in w.deps && j < |w.deps[n]| && forall i | 0 <= i < j :: WellFounded(w, w.deps[n][i])
  }

  /** Known components are come to from those whose earlier dependencies are all
      well-founded, in at most `k` steps. */
  ghost predicate ComesTo(w: World, s: Start, n: Name, k: nat)
    decreases k
  {
    n in s.open ||
    (k > 0 && n in s.known &&
     exists m, j: nat :: ComesTo(w, s, m, k - 1) && FoundedBefore(w, m, j) && w.deps[m][j] == n)
  }

  ghost predicate Reaches(w: World, s: Start, n: Name) { exists k: nat :: ComesTo(w, s, n, k) }

  /** Resolution comes to a component whose next dependency nobody knows. */
  ghost predicate Stuck(w: World, s: Start) {
    exists n, j: nat :: Reaches(w, s, n) && FoundedBefore(w, n, j) && w.deps[n][j] !in s.known
  }

  /** What resolution, started from `s`, keeps. */
  ghost predicate Traced(w: World, c: Contexts, s: Start) {
    && (forall n :: Known(c, n) <==> n in s.known)
    && (forall n | n in c.states && c.states[n] < INSTALLED :: Reaches(w, s, n))
  }

  lemma StartTraced(w: World, c: Contexts)
    ensures Traced(w, c, StartOf(c))
  {
    var s := StartOf(c);
    forall n | n in c.states && c.states[n] < INSTALLED ensures Reaches(w, s, n) { assert ComesTo(w, s, n, 0); }
  }

  lemma InstalledBefore(w: World, c: Contexts, n: Name, j: nat)
    requires Inv(w, c) && n in w.deps && j < |w.deps[n]| && AllInstalled(c, w.deps[n][..j])
    ensures FoundedBefore(w, n, j)
  {
    forall i | 0 <= i < j ensures WellFounded(w, w.deps[n][i]) {
      assert w.deps[n][i] in w.deps[n][..j];
      assert WellFoundedIfInstalled(w, c, w.deps[n][i]);
    }
  }

  /** Once the dependencies before it are installed, resolution comes to number
      `j`, or is stuck. */
  lemma NextDependency(w: World, c: Contexts, s: Start, n: Name, j: nat)
    requires Inv(w, c) && Traced(w, c, s) && n in c.states && c.states[n] < INSTALLED
    requires n in w.deps && j < |w.deps[n]| && AllInstalled(c, w.deps[n][..j])
    ensures if w.deps[n][j] in s.known then Reaches(w, s, w.deps[n][j]) else Stuck(w, s)
  {
    InstalledBefore(w, c, n, j);
    assert Reaches(w, s, n);
    var k: nat :| ComesTo(w, s, n, k);
    assert w.deps[n][j] in s.known ==> ComesTo(w, s, w.deps[n][j], k + 1);
  }

  /** Where nothing moves any more, a dependency after well-founded ones is a
      context. */
  lemma DependencyIsContext(w: World, c: Contexts, n: Name, j: nat)
    requires Inv(w, c) && Settled(w, c) && n in c.states && FoundedBefore(w, n, j)
    ensures w.deps[n][j] in c.states
  {
    if c.states[n] == NOT_INSTALLED {
      assert HeldUp(w, c, n);
      var i: nat :| HeldUpAt(w, c, n, i);
      if i < j {
        InstalledIffFounded(w, c, w.deps[n][i]);
      } else if j < i {
        assert w.deps[n][j] in w.deps[n][..i];
      }
    } else {
      assert DepsInstalled(w, c, n) && w.deps[n][j] in w.deps[n];
    }
  }

  lemma {:induction false} ReachedIsContext(w: World, c: Contexts, s: Start, n: Name, k: nat)
    requires Inv(w, c) && Settled(w, c) && s.open <= c.states.Keys && ComesTo(w, s, n, k)
    ensures n in c.states
    decreases k
  {
    if n !in s.open {
      var m, j: nat :| ComesTo(w, s, m, k - 1) && FoundedBefore(w, m, j) && w.deps[m][j] == n;
      ReachedIsContext(w, c, s, m, k - 1);
      DependencyIsContext(w, c, m, j);
    }
  }

  /** A resolution that completes was not stuck. */
  lemma SettledIsNotStuck(w: World, c: Contexts, s: Start)
    requires Inv(w, c) && Settled(w, c) && s.open <= c.states.Keys && forall n :: Known(c, n) <==> n in s.known
    ensures !Stuck(w, s)
  {
    if Stuck(w, s) {
      var n, j: nat :| Reaches(w, s, n) && FoundedBefore(w, n, j) && w.deps[n][j] !in s.known;
      var k: nat :| ComesTo(w, s, n, k);
      ReachedIsContext(w, c, s, n, k);
      DependencyIsContext(w, c, n, j);
    }
  }

  /** If every dependency can be found, resolution does not get stuck. */
  lemma ClosedIsNotStuck(w: World, c: Contexts)
    requires Closed(w, c)
    ensures !Stuck(w, StartOf(c))
  {
    var s := StartOf(c);
    forall n, j: nat | Reaches(w, s, n) && FoundedBefore(w, n, j) ensures w.deps[n][j] in s.known {
      var k: nat :| ComesTo(w, s, n, k);
      assert Known(c, n) && w.deps[n][j] in w.deps[n];
      assert Known(c, w.deps[n][j]);
    }
  }

  // ----- The kernel object

  class Kernel {
    const w: World
    var c: Contexts
    var changed: bool
    var installing: bool

    /** (Said of everything equal to `c`, so that proofs use it as a whole.) */
    ghost predicate Valid()
      reads this
    {
      forall e | e == c :: Inv(w, e)
    }

    constructor (world: World, uninstalled: set<Name>)
      requires forall n | n in uninstalled :: n in world.deps
      ensures Valid() && w == world && c == Contexts(map[], uninstalled, seq(8, i => [])) && !changed && !installing
    {
      w, c, changed, installing := world, Contexts(map[], uninstalled, seq(8, i => [])), false, false;
    }

    method AttachDeployer(ns: set<Name>)
      requires Valid() && forall n | n in ns :: n in w.deps && !Known(c, n)
      modifies this`c
      ensures Valid() && c == old(c).(uninstalled := old(c.uninstalled) + ns)
    {
      assert Inv(w, c);
      Attached(w, c, ns);
      c := c.(uninstalled := c.uninstalled + ns);
    }

    /** Name_dependency::resolve: deploys what is missing; throws if nobody can. */
    method ResolveName(d: Name, ghost s: Start) returns (met: bool, threw: bool)
      requires Valid() && installing && Traced(w, c, s) && (d in s.known ==> Reaches(w, s, d))
      modifies this
      ensures Valid() && installing && Grew(old(c), c) && changed == (old(changed) || c.uninstalled != old(c.uninstalled))
      ensures Traced(w, c, s) && (threw <==> !Known(c, d))
      ensures met <==> Installed(c, d)
      ensures !met && !threw ==> d in c.states
    {
      assert Inv(w, c);
      if d !in c.states {
        if d !in c.uninstalled { return false, true; }
        DeployedInv(w, c, d);
        GrewDeployed(c, d);
        c := Deployed(c, d);
        changed := true;
        return false, false;
      }
      return c.states[d] == INSTALLED, false;
    }

    /** Resolves dependency number `i`, the earlier ones being installed. */
    method ResolveNext(n: Name, i: nat, ghost s: Start) returns (met: bool, threw: bool)
      requires Valid() && installing && n in c.states && c.states[n] < INSTALLED && Traced(w, c, s)
      requires n in w.deps && i < |w.deps[n]| && AllInstalled(c, w.deps[n][..i])
      modifies this
      ensures Valid() && installing && Grew(old(c), c) && changed == (old(changed) || c.uninstalled != old(c.uninstalled))
      ensures Traced(w, c, s) && (threw ==> !met && Stuck(w, s))
      ensures if met then AllInstalled(c, w.deps[n][..i + 1]) else threw || HeldUp(w, c, n)
    {
      assert Inv(w, c);
      NextDependency(w, c, s, n, i);
      met, threw := ResolveName(w.deps[n][i], s);
      StillInstalled(old(c), c, w.deps[n][..i]);
      assert !met && !threw ==> HeldUpAt(w, c, n, i);
      assert w.deps[n][..i + 1] == w.deps[n][..i] + [w.deps[n][i]];
    }

    /** Component_context::resolve: the first dependency not met ends it. */
    method ResolveContext(n: Name, ghost s: Start) returns (met: bool, threw: bool)
      requires Valid() && installing && n in c.states && c.states[n] < INSTALLED && Traced(w, c, s)
      modifies this
      ensures Valid() && installing && Grew(old(c), c) && changed == (old(changed) || c.uninstalled != old(c.uninstalled))
      ensures met ==> !threw && DepsInstalled(w, c, n)
      ensures !met && !threw ==> HeldUp(w, c, n)
      ensures Traced(w, c, s) && (threw ==> Stuck(w, s))
    {
      assert Inv(w, c);
      assert n in w.deps;
      for i := 0 to |w.deps[n]|
        invariant Valid() && installing && Grew(old(c), c) && changed == (old(changed) || c.uninstalled != old(c.uninstalled))
        invariant AllInstalled(c, w.deps[n][..i]) && Traced(w, c, s)
      {
        ghost var before := c;
        met, threw := ResolveNext(n, i, s);
        GrewOn(old(c), before, c);
        if !met { return; }
      }
      assert w.deps[n][..|w.deps[n]|] == w.deps[n];
      return true, false;
    }

    /** The contexts of a state that may go on.  The vector may grow while it is
        read: a deployed context joins it and is looked at in its turn. */
    method ResolveVector(from: int, ghost s: Start) returns (resolved: seq<Name>, threw: bool)
      requires Valid() && installing && 0 <= from < INSTALLED && Traced(w, c, s)
      modifies this
      ensures Valid() && installing && Grew(old(c), c) && changed == (old(changed) || c.uninstalled != old(c.uninstalled))
      ensures ReadyToGo(w, c, from, resolved)
      ensures !threw ==> Sorted(w, c, from, |c.perState[from]|, resolved)
      ensures Traced(w, c, s) && (threw ==> Stuck(w, s))
    {
      assert Inv(w, c);
      resolved := [];
      var i := 0;
      while i < |c.perState[from]|
        invariant Valid() && installing && Grew(old(c), c) && changed == (old(changed) || c.uninstalled != old(c.uninstalled))
        invariant 0 <= i && ReadyToGo(w, c, from, resolved) && Sorted(w, c, from, i, resolved) && Traced(w, c, s)
        decreases c.uninstalled, |c.perState[from]| - i
      {
        ghost var before := c;
        resolved, threw := LookAt(from, i, resolved, s);
        GrewOn(old(c), before, c);
        if threw { return; }
        i := i + 1;
      }
      threw := false;
    }

    method LookAt(from: int, i: nat, picked: seq<Name>, ghost s: Start) returns (resolved: seq<Name>, threw: bool)
      requires Valid() && installing && 0 <= from < INSTALLED && ReadyToGo(w, c, from, picked) && Sorted(w, c, from, i, picked)
      requires i < |c.perState[from]| && Traced(w, c, s)
      modifies this
      ensures Valid() && installing && Grew(old(c), c) && changed == (old(changed) || c.uninstalled != old(c.uninstalled))
      ensures ReadyToGo(w, c, from, resolved)
      ensures Traced(w, c, s) && if threw then Stuck(w, s) else Sorted(w, c, from, i + 1, resolved)
    {
      var n := c.perState[from][i];
      assert Inv(w, c) && n in c.perState[from];
      var met;
      met, threw := ResolveContext(n, s);
      resolved := picked;
      StillReady(w, old(c), c, from, picked, i);
      if !threw {
        Looked(w, old(c), c, from, picked, i, met);
        if met { resolved := resolved + [n]; }
      }
    }

    /** Takes the picked contexts to the next state, each out of its vector and
        into the one of the state it reaches. */
    method InstallAll(ns: seq<Name>, from: int, ghost s: Start)
      requires Valid() && 0 <= from < INSTALLED && ReadyToGo(w, c, from, ns) && Traced(w, c, s)
      modifies this`c
      ensures Valid() && c.uninstalled == old(c.uninstalled) && c.states.Keys == old(c.states.Keys)
      ensures |c.perState| == |old(c.perState)| == 8 && Traced(w, c, s)
      ensures if ns == [] then c == old(c) else Work(c) < Work(old(c))
    {
      assert Inv(w, c);
      for i := 0 to |ns|
        invariant Valid() && ReadyToGo(w, c, from, ns[i..]) && c.uninstalled == old(c.uninstalled) && c.states.Keys == old(c.states.Keys)
        invariant |c.perState| == 8 && Traced(w, c, s) && if i == 0 then c == old(c) else Work(c) < Work(old(c))
      {
        InstallOne(ns[i..], from, s);
        assert ns[i..][1..] == ns[i + 1..];
      }
    }

    method InstallOne(ns: seq<Name>, from: int, ghost s: Start)
      requires Valid() && 0 <= from < INSTALLED && ReadyToGo(w, c, from, ns) && ns != [] && Traced(w, c, s)
      modifies this`c
      ensures Valid() && ReadyToGo(w, c, from, ns[1..]) && c.uninstalled == old(c.uninstalled) && c.states.Keys == old(c.states.Keys)
      ensures |c.perState| == |old(c.perState)| == 8 && Work(c) < Work(old(c)) && Traced(w, c, s)
    {
      var n := ns[0];
      assert Inv(w, c);
      MoveFacts(w, c, from, ns);
      MovedTraced(w, c, n, from, Reached(w, n, from + 1), s);
      c := Moved(c, n, from, Reached(w, n, from + 1));
      assert n !in c.perState[from];
    }

    /** resolve(from, to): whether any context went on. */
    method ResolveState(from: int, ghost s: Start) returns (progress: bool, threw: bool)
      requires Valid() && installing && 0 <= from < INSTALLED && Traced(w, c, s)
      modifies this
      ensures Valid() && installing && SameKnown(old(c), c)
      ensures changed == (old(changed) || c.uninstalled != old(c.uninstalled))
      ensures c.uninstalled <= old(c.uninstalled)
      ensures Traced(w, c, s) && (threw ==> !progress && Stuck(w, s))
      ensures progress && c.uninstalled == old(c.uninstalled) ==> Work(c) < Work(old(c))
      ensures !progress && !threw && c.uninstalled == old(c.uninstalled) ==> c == old(c) && AllHeldUp(w, c, from)
    {
      var resolved;
      resolved, threw := ResolveVector(from, s);
      progress := false;
      if !threw {
        ghost var before := c;
        InstallAll(resolved, from, s);
        progress := resolved != [];
        assert resolved == [] ==> c == before;
      }
    }

    /** One round of the loop: states in order, up to the first progress. */
    method Pass(ghost s: Start) returns (progress: bool, threw: bool)
      requires Valid() && installing && Traced(w, c, s)
      modifies this
      ensures Valid() && installing && SameKnown(old(c), c) && c.uninstalled <= old(c.uninstalled)
      ensures changed == (c.uninstalled != old(c.uninstalled))
      ensures Traced(w, c, s) && (threw ==> Stuck(w, s))
      ensures progress && c.uninstalled == old(c.uninstalled) ==> Work(c) < Work(old(c))
      ensures !progress && !threw && !changed ==> c == old(c) && Settled(w, c)
    {
      changed, progress, threw := false, false, false;
      var i := NOT_INSTALLED;
      while i < INSTALLED && !progress
        invariant Valid() && installing && SameKnown(old(c), c) && c.uninstalled <= old(c.uninstalled)
        invariant 0 <= i <= INSTALLED && changed == (c.uninstalled != old(c.uninstalled)) && !threw && Traced(w, c, s)
        invariant progress && !changed ==> Work(c) < Work(old(c))
        invariant !progress && !changed ==> c == old(c) && forall s | 0 <= s < i :: AllHeldUp(w, c, s)
      {
        progress, threw := ResolveState(i, s);
        if threw { return; }
        i := i + 1;
      }
      if !progress && !changed {
        assert Inv(w, c);
        AllSettled(w, c);
      }
    }

    /** Resolves until nothing moves.  A dependency nobody can deploy ends it
        early, and leaves `installing` set. */
    method Resolve() returns (threw: bool)
      requires Valid()
      modifies this
      ensures Valid() && SameKnown(old(c), c)
      ensures !threw ==> !installing && !changed && Settled(w, c)
      ensures threw <==> Stuck(w, StartOf(old(c)))
      ensures threw ==> installing
    {
      ghost var s := StartOf(c);
      StartTraced(w, c);
      installing := true;
      var progress := true;
      while progress || changed
        invariant Valid() && installing && SameKnown(old(c), c) && Traced(w, c, s)
        invariant progress || changed || Settled(w, c)
        decreases c.uninstalled, Work(c), progress || changed
      {
        progress, threw := Pass(s);
        if threw { return; }
      }
      assert Inv(w, c);
      SettledIsNotStuck(w, c, s);
      installing, threw := false, false;
    }

    /** install(name, INSTALLED); not `ok` where the source throws.

        Between resolutions, for a new component that a deployer holds: it throws
        out of the resolution exactly if that gets stuck; otherwise it succeeds
        exactly if the component is well-founded, and afterwards a context is
        installed exactly if it is well-founded.  While `installing` is set, it
        only deploys. */
    method Install(name: Name) returns (ok: bool)
      requires Valid()
      modifies this
      ensures Valid() && SameKnown(old(c), c)
      ensures !Fresh(old(c), name) ==> !ok && c == old(c) && installing == old(installing)
      ensures Fresh(old(c), name) && old(installing) ==> ok && installing && |old(c.perState)| == 8 && c == Deployed(old(c), name)
      ensures Fresh(old(c), name) && !old(installing) ==>
        && |old(c.perState)| == 8 && (installing <==> Stuck(w, StartOf(Deployed(old(c), name)))) && (installing ==> !ok)
        && (!installing ==> Settled(w, c) && (ok <==> WellFounded(w, name))
                            && forall n | n in c.states :: Installed(c, n) <==> WellFounded(w, n))
      ensures ok && !old(installing) ==> Installed(c, name)
      ensures Fresh(old(c), name) ==> name in c.states
    {
      assert Inv(w, c);
      if name in c.states || name !in c.uninstalled { return false; }
      DeployedInv(w, c, name);
      GrewDeployed(c, name);
      c := Deployed(c, name);
      if installing {
        changed := true;
        return true;
      }
      var threw := Resolve();
      if threw { return false; }
      assert Inv(w, c);
      forall n | n in c.states ensures Installed(c, n) <==> WellFounded(w, n) { InstalledIffFounded(w, c, n); }
      ok := c.states[name] == INSTALLED;
    }
  }

  lemma Attached(w: World, c: Contexts, ns: set<Name>)
    requires Inv(w, c) && forall n | n in ns :: n in w.deps && !Known(c, n)
    ensures Inv(w, c.(uninstalled := c.uninstalled + ns))
  {
  }

  /** Not a context yet, and held by a deployer. */
  predicate Fresh(c: Contexts, n: Name) { n !in c.states && n in c.uninstalled }

  /** A dependency nobody can deploy: the first call throws, and the next one, for
      a component without dependencies, returns normally without installing it. */
  method MissingDependency() returns (k: Kernel, first: bool, second: bool)
    ensures !first && second
    ensures WellFounded(k.w, 3) && 3 in k.c.states && k.c.states[3] == NOT_INSTALLED
  {
    k := new Kernel(World(map[1 := [2], 3 := []], {}), {1});
    assert !Known(k.c, 2) && !Known(k.c, 3);
    first := k.Install(1);
    assert Inv(k.w, k.c) && !Known(k.c, 2) && !Known(k.c, 3);
    assert 2 in k.w.deps[1];
    assert !HeldUp(k.w, k.c, 1) && !DepsInstalled(k.w, k.c, 1);
    assert k.installing;
    k.AttachDeployer({3});
    second := k.Install(3);
    assert Grounded(k.w, 3, 1);
  }

  ghost predicate SameKnown(c: Contexts, e: Contexts) {
    (forall n :: Known(e, n) <==> Known(c, n)) && forall n | n in c.states :: n in e.states
  }

  lemma MovedTraced(w: World, c: Contexts, n: Name, from: int, to: int, s: Start)
    requires Filed(c) && Traced(w, c, s) && 0 <= from < INSTALLED && 0 <= to < 8 && n in c.perState[from]
    ensures Traced(w, Moved(c, n, from, to), s)
  {
    assert n in c.states && c.states[n] == from;
  }

  ghost predicate AllHeldUp(w: World, c: Contexts, s: int) {
    0 <= s < |c.perState| && forall n | n in c.perState[s] :: HeldUp(w, c, n)
  }

  lemma AllSettled(w: World, c: Contexts)
    requires Filed(c) && forall s | 0 <= s < INSTALLED :: AllHeldUp(w, c, s)
    ensures Settled(w, c)
  {
    forall n | n in c.states && c.states[n] < INSTALLED ensures HeldUp(w, c, n) {
      assert AllHeldUp(w, c, c.states[n]) && n in c.perState[c.states[n]];
    }
  }

  lemma MoveFacts(w: World, c: Contexts, from: int, ns: seq<Name>)
    requires Inv(w, c) && 0 <= from < INSTALLED && ns != [] && ReadyToGo(w, c, from, ns)
    ensures var e := Moved(c, ns[0], from, Reached(w, ns[0], from + 1));
            && Inv(w, e) && ReadyToGo(w, e, from, ns[1..]) && e.states.Keys == c.states.Keys
            && |c.perState| == |e.perState| == 8 && Work(e) < Work(c) && ns[0] !in e.perState[from]
  {
    var n := ns[0];
    var to := Reached(w, n, from + 1);
    assert n in ns && n in c.perState[from] && c.states[n] == from;
    MovedInv(w, c, n, from);
    MovedFiled(c, n, from, to);
    MovedWork(c, n, from, to);
    OthersReady(w, c, n, from, to, ns);
  }

  lemma OthersReady(w: World, c: Contexts, n: Name, from: int, to: int, ns: seq<Name>)
    requires Filed(c) && 0 <= from < INSTALLED && 0 <= to < 8 && from != to && ns != [] && n == ns[0] && ReadyToGo(w, c, from, ns)
    ensures ReadyToGo(w, Moved(c, n, from, to), from, ns[1..])
  {
    var e := Moved(c, n, from, to);
    assert n in ns && n in c.perState[from];
    forall m | m in ns[1..] ensures m in e.perState[from] && DepsInstalled(w, e, m) {
      RemoveIn(c.perState[from], n, m);
      assert m in ns && m != n;
      assert forall d | Installed(c, d) :: Installed(e, d);
    }
  }

  /** These contexts of a state, each once, have their dependencies installed. */
  ghost predicate ReadyToGo(w: World, c: Contexts, from: int, ns: seq<Name>) {
    0 <= from < |c.perState| && NoDup(ns) && forall n | n in ns :: n in c.perState[from] && DepsInstalled(w, c, n)
  }

  /** Of the first `i` contexts of a state, those not picked are held up, and the
      picked ones are among them. */
  ghost predicate Sorted(w: World, c: Contexts, from: int, i: nat, ns: seq<Name>) {
    && 0 <= from < |c.perState| && i <= |c.perState[from]|
    && (forall j | 0 <= j < i :: c.perState[from][j] in ns || HeldUp(w, c, c.perState[from][j]))
    && (forall n | n in ns :: n in c.perState[from][..i])
  }

  lemma StillReady(w: World, c: Contexts, e: Contexts, from: int, ns: seq<Name>, i: nat)
    requires Grew(c, e) && 0 <= from < INSTALLED && ReadyToGo(w, c, from, ns) && Sorted(w, c, from, i, ns)
    ensures ReadyToGo(w, e, from, ns) && Sorted(w, e, from, i, ns)
  {
    forall j | 0 <= j < i && e.perState[from][j] !in ns ensures HeldUp(w, e, e.perState[from][j]) {
      assert c.perState[from][j] == e.perState[from][j];
      StillHeldUp(w, c, e, c.perState[from][j]);
    }
  }

  /** After looking at context number `i`. */
  lemma Looked(w: World, c: Contexts, e: Contexts, from: int, ns: seq<Name>, i: nat, met: bool)
    requires Grew(c, e) && Filed(c) && 0 <= from < INSTALLED && ReadyToGo(w, c, from, ns) && Sorted(w, c, from, i, ns) && i < |c.perState[from]|
    requires if met then DepsInstalled(w, e, c.perState[from][i]) else HeldUp(w, e, c.perState[from][i])
    ensures var ns' := if met then ns + [c.perState[from][i]] else ns;
            ReadyToGo(w, e, from, ns') && Sorted(w, e, from, i + 1, ns') && i + 1 <= |e.perState[from]|
  {
    StillReady(w, c, e, from, ns, i);
    var n := c.perState[from][i];
    assert e.perState[from][i] == n && e.perState[from][..i + 1] == e.perState[from][..i] + [n];
    assert n !in ns by {
      assert forall j | 0 <= j < i :: c.perState[from][j] != n;
    }
  }
}
