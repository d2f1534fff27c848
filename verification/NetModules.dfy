/** Loading network modules in dependency order, and the start order that follows from it. */
module NetModules {
  import opened Common

  const TEMPLATE := "template"

  /** What `module_config.json` says: a name, a display name, at most one dependency, two switches. */
  datatype Conf = Conf(name: string, displayName: string, dependsOn: Option<string>,
                       enabled: bool, enableContainer: bool)

  datatype Module = Module(dirName: string, conf: Conf)

  /** The configuration files on disk, by module directory. */
  type Confs = map<string, Conf>

  predicate Loaded(mods: seq<Module>, dir: string) {
    exists i :: 0 <= i < |mods| && mods[i].dirName == dir
  }

  /** Whether a loaded module answers to the name: by directory, name or display name. */
  predicate Known(mods: seq<Module>, name: string) {
    exists i :: 0 <= i < |mods|
      && (mods[i].conf.displayName == name || mods[i].conf.name == name || mods[i].dirName == name)
  }

  /** The list after loading `dir` and, before it, what it depends on. `depth` is how many more nested
      calls the interpreter allows. Nothing is appended when an exception ends the call. */
  function Load(confs: Confs, mods: seq<Module>, dir: string, depth: nat): Result<seq<Module>>
    decreases depth
  {
    if depth == 0 then Err(RecursionError)
    else if Loaded(mods, dir) then Ok(mods)
    else if dir !in confs then Err(FileNotFoundError)
    else
      var before :- match confs[dir].dependsOn
        case None => Ok(mods)
        case Some(d) => Load(confs, mods, d, depth - 1);
      Ok(before + [Module(dir, confs[dir])])
  }

  /** The list after a pass over a directory listing, and the exception that ended the pass, if any. */
  datatype Pass = Pass(mods: seq<Module>, failure: Option<Error>)

  predicate Skipped(mods: seq<Module>, dir: string) {
    Known(mods, dir) || dir == TEMPLATE
  }

  function LoadAll(confs: Confs, mods: seq<Module>, listing: seq<string>, depth: nat): Pass
    decreases |listing|
  {
    if listing == [] then Pass(mods, None)
    else if Skipped(mods, listing[0]) then LoadAll(confs, mods, listing[1..], depth)
    else match Load(confs, mods, listing[0], depth)
      case Err(e) => Pass(mods, Some(e))
      case Ok(next) => LoadAll(confs, next, listing[1..], depth)
  }

  predicate Starts(m: Module) {
    m.conf.enableContainer && m.conf.enabled
  }

  /** The modules that `start_network_services` starts, in start order. */
  function Started(mods: seq<Module>): seq<Module> {
    if mods == [] then []
    else (if Starts(mods[0]) then [mods[0]] else []) + Started(mods[1..])
  }

  class NetworkOrchestrator {
    const confs: Confs
    var netModules: seq<Module>
    var started: seq<Module>

    constructor (confs: Confs)
      ensures this.confs == confs && netModules == [] && started == []
    {
      this.confs := confs;
      netModules, started := [], [];
    }

    /** `_load_network_module`: gives back the module it appended, or nothing. */
    method LoadNetworkModule(dir: string, depth: nat) returns (r: Result<Option<Module>>)
      modifies this`netModules
      ensures match Load(confs, old(netModules), dir, depth)
        case Err(e) => r == Err(e) && netModules == old(netModules)
        case Ok(mods) =>
          && netModules == mods
          && r == Ok(if Loaded(old(netModules), dir) then None else Some(Module(dir, confs[dir])))
      decreases depth
    {
      if depth == 0 {
        return Err(RecursionError);
      }
      if Loaded(netModules, dir) {
        return Ok(None);
      }
      if dir !in confs {
        return Err(FileNotFoundError);
      }
      var module_ := Module(dir, confs[dir]);
      if module_.conf.dependsOn.Some? {
        var inner := LoadNetworkModule(module_.conf.dependsOn.value, depth - 1);
        if inner.Err? {
          return Err(inner.error);
        }
      }
      netModules := netModules + [module_];
      r := Ok(Some(module_));
    }

    method LoadNetworkModules(listing: seq<string>, depth: nat) returns (failure: Option<Error>)
      modifies this`netModules
      ensures Pass(netModules, failure) == LoadAll(confs, old(netModules), listing, depth)
    {
      var i := 0;
      assert listing[0..] == listing;
      while i < |listing|
        invariant 0 <= i <= |listing|
        invariant LoadAll(confs, netModules, listing[i..], depth)
               == LoadAll(confs, old(netModules), listing, depth)
      {
        assert listing[i..][0] == listing[i] && listing[i..][1..] == listing[i + 1..];
        if !Skipped(netModules, listing[i]) {
          var r := LoadNetworkModule(listing[i], depth);
          if r.Err? {
            return Some(r.error);
          }
        }
        i := i + 1;
      }
      failure := None;
    }

    method StartNetworkServices()
      modifies this`started
      ensures started == old(started) + Started(netModules)
    {
      var i := 0;
      assert netModules[0..] == netModules;
      while i < |netModules|
        invariant 0 <= i <= |netModules|
        invariant started + Started(netModules[i..]) == old(started) + Started(netModules)
      {
        assert netModules[i..][0] == netModules[i] && netModules[i..][1..] == netModules[i + 1..];
        ghost var rest := Started(netModules[i + 1..]);
        if netModules[i].conf.enableContainer {
          if netModules[i].conf.enabled {
            assert started + ([netModules[i]] + rest) == started + [netModules[i]] + rest;
            started := started + [netModules[i]];
          }
        }
        i := i + 1;
      }
    }
  }

  // ---------------------------------------------------------------------
  // When loading ends without an exception
  // ---------------------------------------------------------------------

  /** Following dependencies from `dir`, at most `n` modules are met, all exist, the last depends on
      nothing. */
  predicate Grounded(confs: Confs, dir: string, n: nat)
    decreases n
  {
    && n > 0 && dir in confs
    && (confs[dir].dependsOn.Some? ==> Grounded(confs, confs[dir].dependsOn.value, n - 1))
  }

  /** The module met after `k` dependency steps from `dir`. */
  function Follow(confs: Confs, dir: string, k: nat): Option<string> {
    if k == 0 then Some(dir)
    else
      var before := Follow(confs, dir, k - 1);
      if before.Some? && before.value in confs then confs[before.value].dependsOn else None
  }

  ghost predicate Acyclic(confs: Confs) {
    forall d, k: nat :: d in confs && k > 0 ==> Follow(confs, d, k) != Some(d)
  }

  predicate Closed(confs: Confs) {
    forall d :: d in confs && confs[d].dependsOn.Some? ==> confs[d].dependsOn.value in confs
  }

  /** Whether `s` leads to `dir` in one or more steps. */
  ghost predicate LeadsTo(confs: Confs, s: string, dir: string) {
    exists k: nat :: k > 0 && Follow(confs, s, k) == Some(dir)
  }

  lemma LeadsOn(confs: Confs, s: string, dir: string)
    requires dir in confs && confs[dir].dependsOn.Some?
    requires s == dir || LeadsTo(confs, s, dir)
    ensures LeadsTo(confs, s, confs[dir].dependsOn.value)
  {
    var k: nat :| Follow(confs, s, k) == Some(dir);
    assert Follow(confs, s, k + 1) == confs[dir].dependsOn;
  }

  /** `seen` are the modules met on the way to `dir`. */
  lemma {:induction false} GroundedBeyond(confs: Confs, dir: string, seen: set<string>)
    requires Acyclic(confs) && Closed(confs) && dir in confs && seen <= confs.Keys
    requires forall s :: s in seen ==> LeadsTo(confs, s, dir)
    ensures Grounded(confs, dir, |confs.Keys - seen|)
    decreases |confs.Keys - seen|
  {
    assert dir !in seen;
    assert confs.Keys - (seen + {dir}) == confs.Keys - seen - {dir};
    if confs[dir].dependsOn.Some? {
      hide LeadsTo, Acyclic, Follow;
      var next := confs[dir].dependsOn.value;
      forall s | s in seen + {dir} ensures LeadsTo(confs, s, next) {
        LeadsOn(confs, s, dir);
      }
      GroundedBeyond(confs, next, seen + {dir});
    }
  }

  /** Without cycles or missing targets, no dependency chain is longer than the number of modules. */
  lemma AcyclicGrounded(confs: Confs, dir: string)
    requires Acyclic(confs) && Closed(confs) && dir in confs
    ensures Grounded(confs, dir, |confs|)
  {
    GroundedBeyond(confs, dir, {});
    assert confs.Keys - {} == confs.Keys;
    assert |confs.Keys| == |confs|;
  }

  lemma {:induction false} GroundedMore(confs: Confs, dir: string, n: nat, m: nat)
    requires Grounded(confs, dir, n) && n <= m
    ensures Grounded(confs, dir, m)
    decreases n
  {
    if confs[dir].dependsOn.Some? {
      GroundedMore(confs, confs[dir].dependsOn.value, n - 1, m - 1);
    }
  }

  // ---------------------------------------------------------------------
  // What every load keeps
  // ---------------------------------------------------------------------

  /** Each module comes from its configuration, none is there twice, and each stands after the module
      it depends on. */
  ghost predicate Ordered(confs: Confs, mods: seq<Module>) {
    && (forall i :: 0 <= i < |mods| ==> mods[i].dirName in confs
                                        && mods[i].conf == confs[mods[i].dirName])
    && (forall i, j :: 0 <= i < j < |mods| ==> mods[i].dirName != mods[j].dirName)
    && (forall i :: 0 <= i < |mods| && mods[i].conf.dependsOn.Some?
          ==> Loaded(mods[..i], mods[i].conf.dependsOn.value))
  }

  lemma OrderedAppend(confs: Confs, mods: seq<Module>, dir: string)
    requires Ordered(confs, mods) && dir in confs && !Loaded(mods, dir)
    requires confs[dir].dependsOn.Some? ==> Loaded(mods, confs[dir].dependsOn.value)
    ensures Ordered(confs, mods + [Module(dir, confs[dir])])
  {
    var more := mods + [Module(dir, confs[dir])];
    forall i | 0 <= i < |more| && more[i].conf.dependsOn.Some?
      ensures Loaded(more[..i], more[i].conf.dependsOn.value)
    {
      if i < |mods| {
        assert more[..i] == mods[..i];
      } else {
        assert more[..i] == mods;
      }
    }
  }

  /** The members of the chain that starts at `dir`: what one load may add. */
  ghost predicate OnChain(confs: Confs, dir: string, d: string) {
    exists k: nat :: Follow(confs, dir, k) == Some(d)
  }

  lemma {:induction false} FollowTail(confs: Confs, dir: string, k: nat)
    requires dir in confs && confs[dir].dependsOn.Some?
    ensures Follow(confs, dir, k + 1) == Follow(confs, confs[dir].dependsOn.value, k)
  {
    if k == 0 {
      assert Follow(confs, dir, 0) == Some(dir);
    } else {
      FollowTail(confs, dir, k - 1);
    }
  }

  lemma ChainTail(confs: Confs, dir: string, d: string)
    requires dir in confs && confs[dir].dependsOn.Some?
    requires OnChain(confs, confs[dir].dependsOn.value, d)
    ensures OnChain(confs, dir, d)
  {
    var k: nat :| Follow(confs, confs[dir].dependsOn.value, k) == Some(d);
    FollowTail(confs, dir, k);
  }

  /** A load that succeeds keeps the order, keeps what was there, and adds only modules on the chain of
      `dir`, with `dir` itself loaded at the end. */
  lemma {:induction false} LoadKeeps(confs: Confs, mods: seq<Module>, dir: string, depth: nat)
    requires Ordered(confs, mods) && Load(confs, mods, dir, depth).Ok?
    ensures var next := Load(confs, mods, dir, depth).value;
      && Ordered(confs, next) && mods <= next && Loaded(next, dir)
      && (forall i :: |mods| <= i < |next| ==> OnChain(confs, dir, next[i].dirName))
    decreases depth
  {
    if !Loaded(mods, dir) {
      var before := mods;
      var m := Module(dir, confs[dir]);
      assert Follow(confs, dir, 0) == Some(dir);
      if confs[dir].dependsOn.Some? {
        var d := confs[dir].dependsOn.value;
        before := Load(confs, mods, d, depth - 1).value;
        LoadKeeps(confs, mods, d, depth - 1);
        forall i | |mods| <= i < |before| ensures OnChain(confs, dir, before[i].dirName) {
          ChainTail(confs, dir, before[i].dirName);
        }
        NeverBack(confs, mods, dir, depth);
      }
      OrderedAppend(confs, before, dir);
      assert (before + [m])[|before|].dirName == dir;
    }
  }

  /** More depth changes nothing about a load that succeeds. */
  lemma {:induction false} LoadDeeper(confs: Confs, mods: seq<Module>, dir: string, n: nat, m: nat)
    requires Load(confs, mods, dir, n).Ok? && n <= m
    ensures Load(confs, mods, dir, m) == Load(confs, mods, dir, n)
    decreases n
  {
    if !Loaded(mods, dir) && confs[dir].dependsOn.Some? {
      LoadDeeper(confs, mods, confs[dir].dependsOn.value, n - 1, m - 1);
    }
  }

  /** A module that a load adds lies some steps down the chain, and loading it on its own succeeds with
      that much less depth. */
  lemma {:induction false} NewFrom(confs: Confs, mods: seq<Module>, dir: string, d: string, depth: nat)
    returns (k: nat)
    requires Load(confs, mods, dir, depth).Ok? && !Loaded(mods, d)
    requires Loaded(Load(confs, mods, dir, depth).value, d)
    ensures k < depth && Load(confs, mods, d, depth - k).Ok?
    decreases depth
  {
    if d == dir {
      k := 0;
    } else {
      var next := Load(confs, mods, dir, depth).value;
      var i :| 0 <= i < |next| && next[i].dirName == d;
      if confs[dir].dependsOn.None? {
        assert false;
      }
      var before := Load(confs, mods, confs[dir].dependsOn.value, depth - 1).value;
      assert before[i] == next[i];
      k := NewFrom(confs, mods, confs[dir].dependsOn.value, d, depth - 1);
      k := k + 1;
    }
  }

  /** A load that succeeds never comes back to where it started. */
  lemma {:induction false} NeverBack(confs: Confs, mods: seq<Module>, dir: string, depth: nat)
    requires depth > 0 && dir in confs && confs[dir].dependsOn.Some? && !Loaded(mods, dir)
    requires Load(confs, mods, confs[dir].dependsOn.value, depth - 1).Ok?
    ensures !Loaded(Load(confs, mods, confs[dir].dependsOn.value, depth - 1).value, dir)
    decreases depth
  {
    var d := confs[dir].dependsOn.value;
    if Loaded(Load(confs, mods, d, depth - 1).value, dir) {
      var k := NewFrom(confs, mods, d, dir, depth - 1);
      LoadDeeper(confs, mods, d, depth - 1 - k - 1, depth - 1);
      NeverBack(confs, mods, dir, depth - 1 - k);
    }
  }

  // ---------------------------------------------------------------------
  // Whole passes
  // ---------------------------------------------------------------------

  /** No module's name or display name is the directory of another one in the listing. */
  predicate NamesApart(confs: Confs, listing: seq<string>) {
    forall d, e :: d in confs && e in listing && d != e
      ==> confs[d].name != e && confs[d].displayName != e
  }

  lemma KnownIsLoaded(confs: Confs, listing: seq<string>, mods: seq<Module>, dir: string)
    requires NamesApart(confs, listing) && Ordered(confs, mods) && dir in listing
    ensures Known(mods, dir) <==> Loaded(mods, dir)
  {
    if Known(mods, dir) {
      var i :| 0 <= i < |mods| && (mods[i].conf.displayName == dir || mods[i].conf.name == dir
                                   || mods[i].dirName == dir);
      assert mods[i].dirName == dir;
    }
  }

  lemma {:induction false} GroundedLoads(confs: Confs, mods: seq<Module>, dir: string, n: nat, depth: nat)
    requires Grounded(confs, dir, n) && n <= depth
    ensures Load(confs, mods, dir, depth).Ok?
    decreases n
  {
    if !Loaded(mods, dir) && confs[dir].dependsOn.Some? {
      GroundedLoads(confs, mods, confs[dir].dependsOn.value, n - 1, depth - 1);
    }
  }

  lemma {:induction false} OrderedGrounded(confs: Confs, mods: seq<Module>, i: nat)
    requires Ordered(confs, mods) && i < |mods|
    ensures Grounded(confs, mods[i].dirName, i + 1)
  {
    if mods[i].conf.dependsOn.Some? {
      var j :| 0 <= j < i && mods[..i][j].dirName == mods[i].conf.dependsOn.value;
      OrderedGrounded(confs, mods, j);
      GroundedMore(confs, mods[j].dirName, j + 1, i);
    }
  }

  /** What a listed directory brings in. */
  ghost predicate Wanted(confs: Confs, listing: seq<string>, d: string) {
    exists i :: 0 <= i < |listing| && listing[i] != TEMPLATE && OnChain(confs, listing[i], d)
  }

  /** A pass keeps the order and what was there, adds only what a listed directory brings in, and unless
      an exception ends it every listed directory except the template is known at the end. */
  lemma {:induction false} PassKeeps(confs: Confs, mods: seq<Module>, listing: seq<string>, depth: nat)
    requires Ordered(confs, mods)
    ensures var r := LoadAll(confs, mods, listing, depth);
      && Ordered(confs, r.mods) && mods <= r.mods
      && (forall i :: |mods| <= i < |r.mods| ==> Wanted(confs, listing, r.mods[i].dirName))
      && (r.failure.None? ==> forall i :: 0 <= i < |listing| && listing[i] != TEMPLATE
                                ==> Known(r.mods, listing[i]))
    decreases |listing|
  {
    hide Ordered, Load, OnChain;
    if listing != [] {
      var dir, rest := listing[0], listing[1..];
      var next := mods;
      if !Skipped(mods, dir) {
        var r := Load(confs, mods, dir, depth);
        if r.Err? {
          return;
        }
        next := r.value;
        LoadKeeps(confs, mods, dir, depth);
      }
      PassKeeps(confs, next, rest, depth);
      var last := LoadAll(confs, next, rest, depth);
      PassStep(confs, mods, next, last.mods, listing);
      if last.failure.None? {
        forall i | 0 <= i < |listing| && listing[i] != TEMPLATE ensures Known(last.mods, listing[i]) {
          if i > 0 {
            assert listing[i] == rest[i - 1];
          }
        }
      }
    }
  }

  lemma PassStep(confs: Confs, mods: seq<Module>, next: seq<Module>, last: seq<Module>, listing: seq<string>)
    requires listing != [] && mods <= next <= last
    requires mods < next ==> listing[0] != TEMPLATE
    requires forall i :: |mods| <= i < |next| ==> OnChain(confs, listing[0], next[i].dirName)
    requires forall i :: |next| <= i < |last| ==> Wanted(confs, listing[1..], last[i].dirName)
    ensures forall i :: |mods| <= i < |last| ==> Wanted(confs, listing, last[i].dirName)
    ensures forall d :: Known(next, d) ==> Known(last, d)
  {
    hide OnChain;
    forall i | |mods| <= i < |last| ensures Wanted(confs, listing, last[i].dirName) {
      if i < |next| {
        assert last[i] == next[i];
        assert OnChain(confs, listing[0], last[i].dirName);
      } else {
        var rest := listing[1..];
        assert Wanted(confs, rest, last[i].dirName);
        var j :| 0 <= j < |rest| && rest[j] != TEMPLATE && OnChain(confs, rest[j], last[i].dirName);
        assert rest[j] == listing[j + 1];
      }
    }
    forall d | Known(next, d) ensures Known(last, d) {
      KnownLater(next, last, d);
    }
  }

  lemma KnownLater(mods: seq<Module>, more: seq<Module>, name: string)
    requires mods <= more && Known(mods, name)
    ensures Known(more, name)
  {
    var i :| 0 <= i < |mods|
      && (mods[i].conf.displayName == name || mods[i].conf.name == name || mods[i].dirName == name);
    assert more[i] == mods[i];
  }

  /** Where names do not collide, every listed directory except the template is loaded. */
  lemma PassLoads(confs: Confs, mods: seq<Module>, listing: seq<string>, depth: nat)
    requires Ordered(confs, mods) && NamesApart(confs, listing)
    requires LoadAll(confs, mods, listing, depth).failure.None?
    ensures forall i :: 0 <= i < |listing| && listing[i] != TEMPLATE
              ==> Loaded(LoadAll(confs, mods, listing, depth).mods, listing[i])
  {
    PassKeeps(confs, mods, listing, depth);
    hide Ordered, NamesApart, LoadAll;
    var last := LoadAll(confs, mods, listing, depth).mods;
    forall i | 0 <= i < |listing| && listing[i] != TEMPLATE ensures Loaded(last, listing[i]) {
      KnownIsLoaded(confs, listing, last, listing[i]);
    }
  }

  /** A pass succeeds if each listed directory except the template has a chain of at most `depth`
      modules. */
  lemma {:induction false} GroundedPasses(confs: Confs, mods: seq<Module>, listing: seq<string>, depth: nat)
    requires forall i :: 0 <= i < |listing| && listing[i] != TEMPLATE
               ==> Grounded(confs, listing[i], depth)
    ensures LoadAll(confs, mods, listing, depth).failure.None?
    decreases |listing|
  {
    if listing != [] {
      assert forall i :: 0 <= i < |listing[1..]| ==> listing[1..][i] == listing[i + 1];
      if Skipped(mods, listing[0]) {
        GroundedPasses(confs, mods, listing[1..], depth);
      } else {
        GroundedLoads(confs, mods, listing[0], depth, depth);
        GroundedPasses(confs, Load(confs, mods, listing[0], depth).value, listing[1..], depth);
      }
    }
  }

  /** The dependencies of `dir` all exist and come to an end. */
  ghost predicate Ends(confs: Confs, dir: string) {
    exists n: nat :: Grounded(confs, dir, n)
  }

  lemma LoadedEnds(confs: Confs, mods: seq<Module>, dir: string)
    requires Ordered(confs, mods) && Loaded(mods, dir)
    ensures Ends(confs, dir)
  {
    var i :| 0 <= i < |mods| && mods[i].dirName == dir;
    OrderedGrounded(confs, mods, i);
  }

  /** Loading from nothing ends without an exception only if the dependencies of every listed directory
      come to an end ... */
  lemma LoadingNeedsEnds(confs: Confs, listing: seq<string>, depth: nat)
    requires NamesApart(confs, listing) && LoadAll(confs, [], listing, depth).failure.None?
    ensures forall i :: 0 <= i < |listing| && listing[i] != TEMPLATE ==> Ends(confs, listing[i])
  {
    assert Ordered(confs, []);
    PassKeeps(confs, [], listing, depth);
    PassLoads(confs, [], listing, depth);
    hide LoadAll, Ordered, Ends, Wanted, NamesApart;
    var r := LoadAll(confs, [], listing, depth);
    forall i | 0 <= i < |listing| && listing[i] != TEMPLATE ensures Ends(confs, listing[i]) {
      assert Loaded(r.mods, listing[i]);
      LoadedEnds(confs, r.mods, listing[i]);
    }
  }

  /** ... and if they do, there is a depth from which on it ends so. */
  lemma {:induction false} EndsBounded(confs: Confs, listing: seq<string>) returns (n: nat)
    requires forall i :: 0 <= i < |listing| && listing[i] != TEMPLATE ==> Ends(confs, listing[i])
    ensures forall i :: 0 <= i < |listing| && listing[i] != TEMPLATE ==> Grounded(confs, listing[i], n)
  {
    n := 0;
    for i := 0 to |listing|
      invariant forall j :: 0 <= j < i && listing[j] != TEMPLATE ==> Grounded(confs, listing[j], n)
    {
      if listing[i] != TEMPLATE {
        var k: nat :| Grounded(confs, listing[i], k);
        var m := if k < n then n else k;
        forall j | 0 <= j <= i && listing[j] != TEMPLATE ensures Grounded(confs, listing[j], m) {
          if j < i {
            GroundedMore(confs, listing[j], n, m);
          } else {
            GroundedMore(confs, listing[j], k, m);
          }
        }
        n := m;
      }
    }
  }

  /** For a listing of which no module goes by the name of another listed directory: loading ends without an
      exception, given depth enough, exactly if the dependencies of every listed directory but the template
      exist and come to an end. */
  lemma ListedLoadingEndsIff(confs: Confs, listing: seq<string>)
    requires NamesApart(confs, listing)
    ensures (exists depth: nat :: LoadAll(confs, [], listing, depth).failure.None?)
       <==> (forall i :: 0 <= i < |listing| && listing[i] != TEMPLATE ==> Ends(confs, listing[i]))
  {
    hide NamesApart, Ends, LoadAll, Grounded;
    if depth: nat :| LoadAll(confs, [], listing, depth).failure.None? {
      LoadingNeedsEnds(confs, listing, depth);
    }
    if forall i :: 0 <= i < |listing| && listing[i] != TEMPLATE ==> Ends(confs, listing[i]) {
      var n := EndsBounded(confs, listing);
      GroundedPasses(confs, [], listing, n);
    }
  }

  lemma ChainTarget(confs: Confs, dir: string, d: string)
    requires OnChain(confs, dir, d) && dir != d
    ensures exists e :: e in confs && confs[e].dependsOn == Some(d)
  {
    var k: nat :| Follow(confs, dir, k) == Some(d);
    assert k > 0;
    var e := Follow(confs, dir, k - 1);
    assert e.Some? && e.value in confs && confs[e.value].dependsOn == Some(d);
  }

  /** A pass over directories that are all loaded already changes nothing. */
  lemma {:induction false} PassIdle(confs: Confs, mods: seq<Module>, listing: seq<string>, depth: nat)
    requires forall i :: 0 <= i < |listing| && listing[i] != TEMPLATE ==> Loaded(mods, listing[i])
    ensures LoadAll(confs, mods, listing, depth) == Pass(mods, None)
    decreases |listing|
  {
    if listing != [] {
      assert forall i :: 0 <= i < |listing[1..]| ==> listing[1..][i] == listing[i + 1];
      PassIdle(confs, mods, listing[1..], depth);
    }
  }

  lemma NotItsOwnTarget(confs: Confs, e: string)
    requires Acyclic(confs) && e in confs
    ensures confs[e].dependsOn != Some(e)
  {
    assert Follow(confs, e, 0) == Some(e);
    assert Follow(confs, e, 1) == confs[e].dependsOn;
  }

  lemma LoadedIff(confs: Confs, listing: seq<string>, mods: seq<Module>, d: string)
    requires Acyclic(confs) && Ordered(confs, mods) && (forall d :: d in listing <==> d in confs)
    requires forall i :: 0 <= i < |mods| ==> Wanted(confs, listing, mods[i].dirName)
    requires forall i :: 0 <= i < |listing| && listing[i] != TEMPLATE ==> Loaded(mods, listing[i])
    ensures Loaded(mods, d) <==>
      d in confs && (d == TEMPLATE ==> exists e :: e in confs && confs[e].dependsOn == Some(d))
  {
    hide Follow, OnChain, Acyclic;
    if Loaded(mods, d) {
      var i :| 0 <= i < |mods| && mods[i].dirName == d;
      var j :| 0 <= j < |listing| && listing[j] != TEMPLATE && OnChain(confs, listing[j], d);
      if d == TEMPLATE {
        ChainTarget(confs, listing[j], d);
      }
    } else if d in confs {
      assert d in listing;
      assert d == TEMPLATE;
      if e :| e in confs && confs[e].dependsOn == Some(d) {
        NotItsOwnTarget(confs, e);
        assert e in listing;
        DependencyLoaded(confs, mods, e, d);
      }
    }
  }

  lemma DependencyLoaded(confs: Confs, mods: seq<Module>, e: string, d: string)
    requires Ordered(confs, mods) && Loaded(mods, e) && e in confs && confs[e].dependsOn == Some(d)
    ensures Loaded(mods, d)
  {
    var i :| 0 <= i < |mods| && mods[i].dirName == e;
    var j :| 0 <= j < i && mods[..i][j].dirName == d;
    assert mods[j].dirName == d;
  }

  // ---------------------------------------------------------------------
  // Which directories a pass can leave out
  // ---------------------------------------------------------------------

  predicate Referenced(confs: Confs, t: string) {
    exists g :: g in confs && confs[g].dependsOn == Some(t)
  }

  /** Some pass can load the directory: the template only if a module depends on it. */
  predicate Loadable(confs: Confs, d: string) {
    d in confs && (d == TEMPLATE ==> Referenced(confs, TEMPLATE))
  }

  /** Nothing that can be loaded depends on the directory. */
  predicate NoDependents(confs: Confs, e: string) {
    forall d :: d in confs && confs[d].dependsOn == Some(e) ==> !Loadable(confs, d)
  }

  /** Another module goes by the name of the directory, and can be loaded without it. */
  predicate Shadows(confs: Confs, d: string, e: string) {
    && d in confs && d != e && (confs[d].name == e || confs[d].displayName == e)
    && (d == TEMPLATE ==> exists g :: g in confs && g != e && confs[g].dependsOn == Some(TEMPLATE))
  }

  predicate CanBeLeftOut(confs: Confs, e: string) {
    e in confs && e != TEMPLATE && NoDependents(confs, e) && exists d :: d in confs && Shadows(confs, d, e)
  }

  /** What `listdir` gives: every directory once, in any order. */
  ghost predicate IsListing(confs: Confs, listing: seq<string>) {
    && (forall d :: d in listing <==> d in confs)
    && (forall i, j :: 0 <= i < j < |listing| ==> listing[i] != listing[j])
  }

  ghost predicate LoadsDirectories(confs: Confs, listing: seq<string>, depth: nat) {
    forall d :: d in confs && d != TEMPLATE ==> Loaded(LoadAll(confs, [], listing, depth).mods, d)
  }

  /** Some loaded module depends on `d`. */
  predicate Needed(mods: seq<Module>, d: string) {
    exists k :: 0 <= k < |mods| && mods[k].conf.dependsOn == Some(d)
  }

  lemma NeededLater(mods: seq<Module>, more: seq<Module>, d: string)
    requires mods <= more && Needed(mods, d)
    ensures Needed(more, d)
  {
    var k :| 0 <= k < |mods| && mods[k].conf.dependsOn == Some(d);
    assert more[k] == mods[k];
  }

  /** Whatever a load adds besides `dir`, a loaded module depends on. */
  lemma {:induction false} LoadNeeds(confs: Confs, mods: seq<Module>, dir: string, depth: nat)
    requires Load(confs, mods, dir, depth).Ok?
    ensures var next := Load(confs, mods, dir, depth).value;
      mods <= next
      && forall i :: |mods| <= i < |next| ==> next[i].dirName == dir || Needed(next, next[i].dirName)
    decreases depth
  {
    if !Loaded(mods, dir) && confs[dir].dependsOn.Some? {
      var d := confs[dir].dependsOn.value;
      var before := Load(confs, mods, d, depth - 1).value;
      LoadNeeds(confs, mods, d, depth - 1);
      var next := before + [Module(dir, confs[dir])];
      assert next[|before|].conf.dependsOn == Some(d);
      assert before <= next;
      forall i | |mods| <= i < |next| ensures next[i].dirName == dir || Needed(next, next[i].dirName) {
        if i < |before| && before[i].dirName != d {
          NeededLater(before, next, before[i].dirName);
        }
      }
    }
  }

  /** A pass from nothing loads the template only for a module that depends on it. */
  lemma {:induction false} PassNeeds(confs: Confs, mods: seq<Module>, listing: seq<string>, depth: nat)
    requires Loaded(mods, TEMPLATE) ==> Needed(mods, TEMPLATE)
    ensures var last := LoadAll(confs, mods, listing, depth).mods;
      Loaded(last, TEMPLATE) ==> Needed(last, TEMPLATE)
    decreases |listing|
  {
    hide Load;
    if listing != [] {
      if Skipped(mods, listing[0]) {
        PassNeeds(confs, mods, listing[1..], depth);
      } else if Load(confs, mods, listing[0], depth).Ok? {
        var next := Load(confs, mods, listing[0], depth).value;
        LoadNeeds(confs, mods, listing[0], depth);
        StillNeeded(mods, next, listing[0]);
        PassNeeds(confs, next, listing[1..], depth);
      }
    }
  }

  lemma StillNeeded(mods: seq<Module>, next: seq<Module>, dir: string)
    requires mods <= next && dir != TEMPLATE && (Loaded(mods, TEMPLATE) ==> Needed(mods, TEMPLATE))
    requires forall i :: |mods| <= i < |next| ==> next[i].dirName == dir || Needed(next, next[i].dirName)
    ensures Loaded(next, TEMPLATE) ==> Needed(next, TEMPLATE)
  {
    if Loaded(next, TEMPLATE) {
      var i :| 0 <= i < |next| && next[i].dirName == TEMPLATE;
      if i < |mods| {
        assert mods[i].dirName == TEMPLATE;
        NeededLater(mods, next, TEMPLATE);
      }
    }
  }

  /** Above a directory that is not loaded there is one without dependents that is not loaded either.
      `seen` are the directories below, on the way up. */
  lemma {:induction false} ClimbUnloaded(confs: Confs, mods: seq<Module>, u: string, seen: set<string>)
    returns (e: string)
    requires Acyclic(confs) && Ordered(confs, mods) && Loadable(confs, u) && !Loaded(mods, u)
    requires seen <= confs.Keys && forall s :: s in seen ==> LeadsTo(confs, u, s)
    ensures e in confs && e != TEMPLATE && !Loaded(mods, e) && NoDependents(confs, e)
    decreases |confs.Keys - seen|
  {
    assert u !in seen;
    if d :| d in confs && confs[d].dependsOn == Some(u) && Loadable(confs, d) {
      if Loaded(mods, d) {
        DependencyLoaded(confs, mods, d, u);
      }
      assert confs.Keys - (seen + {u}) == confs.Keys - seen - {u};
      forall s | s in seen + {u} ensures LeadsTo(confs, d, s) {
        LeadsThrough(confs, d, s);
      }
      hide LeadsTo, Ordered, Acyclic, Follow, NoDependents, Loadable;
      e := ClimbUnloaded(confs, mods, d, seen + {u});
    } else {
      e := u;
      if u == TEMPLATE {
        TemplateHasDependents(confs);
      }
    }
  }

  lemma TemplateHasDependents(confs: Confs)
    requires Acyclic(confs) && Referenced(confs, TEMPLATE)
    ensures exists d :: d in confs && confs[d].dependsOn == Some(TEMPLATE) && Loadable(confs, d)
  {
    var g :| g in confs && confs[g].dependsOn == Some(TEMPLATE);
    NotItsOwnTarget(confs, g);
    assert Loadable(confs, g);
  }

  lemma LeadsThrough(confs: Confs, d: string, s: string)
    requires d in confs && confs[d].dependsOn.Some?
    requires s == confs[d].dependsOn.value || LeadsTo(confs, confs[d].dependsOn.value, s)
    ensures LeadsTo(confs, d, s)
  {
    var u := confs[d].dependsOn.value;
    assert Follow(confs, u, 0) == Some(u);
    var k: nat :| Follow(confs, u, k) == Some(s);
    FollowTail(confs, d, k);
  }

  /** A pass over all directories that leaves some directory unloaded shows one that can be left out. */
  lemma LeftOutCan(confs: Confs, listing: seq<string>, depth: nat, u: string) returns (e: string)
    requires Acyclic(confs) && (forall d :: d in listing <==> d in confs)
    requires LoadAll(confs, [], listing, depth).failure.None?
    requires u in confs && u != TEMPLATE && !Loaded(LoadAll(confs, [], listing, depth).mods, u)
    ensures CanBeLeftOut(confs, e)
  {
    var mods := LoadAll(confs, [], listing, depth).mods;
    assert Ordered(confs, []);
    PassKeeps(confs, [], listing, depth);
    PassNeeds(confs, [], listing, depth);
    e := ClimbUnloaded(confs, mods, u, {});
    assert e in listing;
    assert Known(mods, e);
    hide Acyclic, LoadAll, NoDependents, Wanted;
    KnownShadows(confs, mods, e);
  }

  lemma KnownShadows(confs: Confs, mods: seq<Module>, e: string)
    requires Ordered(confs, mods) && Known(mods, e) && !Loaded(mods, e)
    requires Loaded(mods, TEMPLATE) ==> Needed(mods, TEMPLATE)
    ensures exists d :: d in confs && Shadows(confs, d, e)
  {
    var i :| 0 <= i < |mods|
      && (mods[i].conf.displayName == e || mods[i].conf.name == e || mods[i].dirName == e);
    var d := mods[i].dirName;
    if d == TEMPLATE {
      assert Loaded(mods, TEMPLATE);
      var k :| 0 <= k < |mods| && mods[k].conf.dependsOn == Some(TEMPLATE);
      var g := mods[k].dirName;
      assert g in confs && g != e && confs[g].dependsOn == Some(TEMPLATE);
    }
    assert Shadows(confs, d, e);
  }

  // ---------------------------------------------------------------------
  // A listing that leaves such a directory out
  // ---------------------------------------------------------------------

  lemma {:induction false} Enumerate(s: set<string>) returns (xs: seq<string>)
    ensures forall d :: d in xs <==> d in s
    ensures forall i, j :: 0 <= i < j < |xs| ==> xs[i] != xs[j]
    decreases |s|
  {
    if s == {} {
      xs := [];
    } else {
      var d :| d in s;
      var rest := Enumerate(s - {d});
      xs := [d] + rest;
      assert forall x :: x in xs <==> x == d || x in rest;
    }
  }

  lemma {:induction false} PassConcat(confs: Confs, mods: seq<Module>, a: seq<string>, b: seq<string>, depth: nat)
    requires LoadAll(confs, mods, a, depth).failure.None?
    ensures LoadAll(confs, mods, a + b, depth) == LoadAll(confs, LoadAll(confs, mods, a, depth).mods, b, depth)
    decreases |a|
  {
    if a == [] {
      assert a + b == b;
    } else {
      assert (a + b)[0] == a[0] && (a + b)[1..] == a[1..] + b;
      if Skipped(mods, a[0]) {
        PassConcat(confs, mods, a[1..], b, depth);
      } else {
        PassConcat(confs, Load(confs, mods, a[0], depth).value, a[1..], b, depth);
      }
    }
  }

  /** The step before the last on a chain. */
  lemma ChainStep(confs: Confs, dir: string, d: string) returns (e: string)
    requires OnChain(confs, dir, d) && dir != d
    ensures e in confs && confs[e].dependsOn == Some(d) && OnChain(confs, dir, e)
  {
    var k: nat :| Follow(confs, dir, k) == Some(d);
    assert k > 0;
    e := Follow(confs, dir, k - 1).value;
  }

  /** On the chain of a directory that is not the template, only what can be loaded comes before the end. */
  lemma ChainDependent(confs: Confs, dir: string, e: string) returns (d: string)
    requires OnChain(confs, dir, e) && dir != TEMPLATE && dir != e
    ensures d in confs && confs[d].dependsOn == Some(e) && Loadable(confs, d)
  {
    d := ChainStep(confs, dir, e);
    if d == TEMPLATE {
      var g := ChainStep(confs, dir, d);
      assert Referenced(confs, TEMPLATE);
    }
  }

  /** The chains of other directories do not come to one without dependents. */
  lemma ChainsAvoid(confs: Confs, dir: string, e: string)
    requires dir != TEMPLATE && dir != e && NoDependents(confs, e)
    ensures !OnChain(confs, dir, e)
  {
    if OnChain(confs, dir, e) {
      var d := ChainDependent(confs, dir, e);
    }
  }

  /** With `first` listed first, or what loads it, and `e` last, the pass skips `e`. */
  lemma ShadowedSkipped(confs: Confs, first: string, d: string, xs: seq<string>, e: string, depth: nat)
    requires CanBeLeftOut(confs, e) && first in confs && first != TEMPLATE && first != e
    requires d in confs && (confs[d].name == e || confs[d].displayName == e)
    requires d == first || confs[first].dependsOn == Some(d)
    requires e !in xs && e != TEMPLATE
    requires forall x :: x in [first] + xs && x != TEMPLATE ==> Grounded(confs, x, depth)
    ensures !Loaded(LoadAll(confs, [], [first] + xs + [e], depth).mods, e)
  {
    var front := [first] + xs;
    assert Ordered(confs, []) && front[0] == first && front[1..] == xs;
    forall i | 0 <= i < |front| && front[i] != TEMPLATE ensures Grounded(confs, front[i], depth) {
      assert front[i] in front;
    }
    GroundedPasses(confs, [], front, depth);
    PassKeeps(confs, [], front, depth);
    var mods := LoadAll(confs, [], front, depth).mods;
    FirstLoaded(confs, front, depth);
    if d != first {
      DependencyLoaded(confs, mods, first, d);
    }
    LoadedKnown(confs, mods, d, e);
    PassConcat(confs, [], front, [e], depth);
    assert [e][1..] == [];
    assert LoadAll(confs, mods, [e], depth) == Pass(mods, None);
    hide LoadAll, Ordered, CanBeLeftOut, Known, Grounded;
    if Loaded(mods, e) {
      var i :| 0 <= i < |mods| && mods[i].dirName == e;
      var j :| 0 <= j < |front| && front[j] != TEMPLATE && OnChain(confs, front[j], e);
      assert front[j] in front;
      ChainsAvoid(confs, front[j], e);
    }
  }

  lemma LoadedKnown(confs: Confs, mods: seq<Module>, d: string, e: string)
    requires Ordered(confs, mods) && Loaded(mods, d) && d in confs
    requires confs[d].name == e || confs[d].displayName == e
    ensures Known(mods, e)
  {
    var i :| 0 <= i < |mods| && mods[i].dirName == d;
    assert mods[i].conf == confs[d];
  }

  lemma FirstLoaded(confs: Confs, listing: seq<string>, depth: nat)
    requires listing != [] && listing[0] != TEMPLATE && LoadAll(confs, [], listing, depth).failure.None?
    ensures Loaded(LoadAll(confs, [], listing, depth).mods, listing[0])
  {
    assert Ordered(confs, []);
    LoadKeeps(confs, [], listing[0], depth);
    var next := Load(confs, [], listing[0], depth).value;
    PassKeeps(confs, next, listing[1..], depth);
    var i :| 0 <= i < |next| && next[i].dirName == listing[0];
    assert LoadAll(confs, next, listing[1..], depth).mods[i] == next[i];
  }

  /** A directory that can be left out is left out by some listing. */
  lemma SomeListingLeavesOut(confs: Confs, e: string, depth: nat) returns (listing: seq<string>)
    requires Acyclic(confs) && Closed(confs) && CanBeLeftOut(confs, e) && depth >= |confs|
    ensures IsListing(confs, listing) && !LoadsDirectories(confs, listing, depth)
  {
    var d :| d in confs && Shadows(confs, d, e);
    var first := d;
    if d == TEMPLATE {
      first :| first in confs && first != e && confs[first].dependsOn == Some(TEMPLATE);
      NotItsOwnTarget(confs, first);
    }
    var xs := Enumerate(confs.Keys - {first, e});
    listing := [first] + xs + [e];
    forall x | x in [first] + xs && x != TEMPLATE ensures Grounded(confs, x, depth) {
      AcyclicGrounded(confs, x);
      GroundedMore(confs, x, |confs|, depth);
    }
    ShadowedSkipped(confs, first, d, xs, e, depth);
    ListingIs(confs, first, xs, e);
  }

  lemma ListingIs(confs: Confs, first: string, xs: seq<string>, e: string)
    requires first in confs && e in confs && first != e
    requires forall d :: d in xs <==> d in confs.Keys - {first, e}
    requires forall i, j :: 0 <= i < j < |xs| ==> xs[i] != xs[j]
    ensures IsListing(confs, [first] + xs + [e])
  {
    var listing := [first] + xs + [e];
    assert forall i :: 0 <= i < |xs| ==> listing[i + 1] == xs[i] && xs[i] in xs;
    assert listing[0] == first && listing[|xs| + 1] == e;
    forall d ensures d in listing <==> d in confs {
      assert d in listing <==> d == first || d in xs || d == e;
    }
    forall i, j | 0 <= i < j < |listing| ensures listing[i] != listing[j] {
      if 0 < i && j <= |xs| {
        assert listing[i] == xs[i - 1] && listing[j] == xs[j - 1];
      } else if 0 < i {
        assert listing[i] == xs[i - 1] && xs[i - 1] in xs;
      } else if j <= |xs| {
        assert listing[j] == xs[j - 1] && xs[j - 1] in xs;
      }
    }
  }

  /** A directory that is listed first is loaded, or the pass raises. */
  lemma FirstEnds(confs: Confs, listing: seq<string>, depth: nat)
    requires listing != [] && listing[0] != TEMPLATE && LoadAll(confs, [], listing, depth).failure.None?
    ensures Ends(confs, listing[0])
  {
    assert Ordered(confs, []);
    LoadKeeps(confs, [], listing[0], depth);
    hide LoadAll;
    LoadedEnds(confs, Load(confs, [], listing[0], depth).value, listing[0]);
  }

  lemma ListingFrom(confs: Confs, d: string) returns (listing: seq<string>)
    requires d in confs
    ensures IsListing(confs, listing) && listing != [] && listing[0] == d
  {
    var xs := Enumerate(confs.Keys - {d});
    listing := [d] + xs;
    forall x ensures x in listing <==> x in confs {
      assert x in listing <==> x == d || x in xs;
    }
    forall i, j | 0 <= i < j < |listing| ensures listing[i] != listing[j] {
      assert listing[j] == xs[j - 1] && xs[j - 1] in xs;
      assert i > 0 ==> listing[i] == xs[i - 1];
    }
  }

  /** The pass over the listing ends without an exception, given depth enough. */
  ghost predicate Succeeds(confs: Confs, listing: seq<string>) {
    exists depth: nat :: LoadAll(confs, [], listing, depth).failure.None?
  }

  /** Whatever the names: loading ends without an exception, given depth enough, for every order of the
      directories exactly if the dependencies of every directory but the template exist and come to an
      end. */
  lemma LoadingEndsIff(confs: Confs)
    ensures (forall listing :: IsListing(confs, listing) ==> Succeeds(confs, listing))
       <==> (forall d :: d in confs && d != TEMPLATE ==> Ends(confs, d))
  {
    hide Ends;
    if forall d :: d in confs && d != TEMPLATE ==> Ends(confs, d) {
      forall listing | IsListing(confs, listing) ensures Succeeds(confs, listing) {
        forall i | 0 <= i < |listing| && listing[i] != TEMPLATE ensures Ends(confs, listing[i]) {
          assert listing[i] in listing;
        }
        var n := EndsBounded(confs, listing);
        GroundedPasses(confs, [], listing, n);
      }
    }
    if forall listing :: IsListing(confs, listing) ==> Succeeds(confs, listing) {
      hide IsListing;
      forall d | d in confs && d != TEMPLATE ensures Ends(confs, d) {
        var listing := ListingFrom(confs, d);
        assert Succeeds(confs, listing);
        var depth: nat :| LoadAll(confs, [], listing, depth).failure.None?;
        FirstEnds(confs, listing, depth);
      }
    }
  }

  /** In one order a pass can succeed all the same: a directory whose dependencies do not exist is skipped
      when another module goes by its name. */
  lemma EndlessSkipped(confs: Confs, a: string, b: string, depth: nat)
    requires depth > 0 && a in confs && b in confs && a != TEMPLATE
    requires confs[a].dependsOn.None? && confs[a].name == b
    requires confs[b].dependsOn.Some? && confs[b].dependsOn.value !in confs
    ensures LoadAll(confs, [], [a, b], depth).failure.None? && !Ends(confs, b)
  {
    var m := Module(a, confs[a]);
    assert [a, b][1..] == [b] && [b][1..] == [] && [] + [m] == [m];
    assert Load(confs, [], a, depth) == Ok([m]);
    assert [m][0].conf.name == b;
    assert LoadAll(confs, [m], [b], depth) == Pass([m], None);
    forall n: nat ensures !Grounded(confs, b, n) {
      assert n > 0 ==> !Grounded(confs, confs[b].dependsOn.value, n - 1);
    }
  }

  /** For acyclic dependencies whose targets exist, every order of the directories loads all of them but
      the template exactly if none can be left out: one that nothing loadable depends on, and that another
      module, loadable without it, goes by the name of. */
  lemma EveryListingLoadsIff(confs: Confs, depth: nat)
    requires Acyclic(confs) && Closed(confs) && depth >= |confs|
    ensures (forall listing :: IsListing(confs, listing) ==> LoadsDirectories(confs, listing, depth))
       <==> (forall e :: e in confs ==> !CanBeLeftOut(confs, e))
  {
    if forall e :: e in confs ==> !CanBeLeftOut(confs, e) {
      forall listing | IsListing(confs, listing) ensures LoadsDirectories(confs, listing, depth) {
        LoadsWhatCannotBeLeftOut(confs, listing, depth);
      }
    } else {
      var e :| e in confs && CanBeLeftOut(confs, e);
      var listing := SomeListingLeavesOut(confs, e, depth);
    }
  }

  lemma LoadsWhatCannotBeLeftOut(confs: Confs, listing: seq<string>, depth: nat)
    requires Acyclic(confs) && Closed(confs) && depth >= |confs|
    requires forall d :: d in listing <==> d in confs
    requires forall e :: e in confs ==> !CanBeLeftOut(confs, e)
    ensures LoadAll(confs, [], listing, depth).failure.None? && LoadsDirectories(confs, listing, depth)
  {
    forall i | 0 <= i < |listing| && listing[i] != TEMPLATE ensures Grounded(confs, listing[i], depth) {
      AcyclicGrounded(confs, listing[i]);
      GroundedMore(confs, listing[i], |confs|, depth);
    }
    GroundedPasses(confs, [], listing, depth);
    hide LoadAll, Acyclic, Closed, CanBeLeftOut, Grounded;
    forall d | d in confs && d != TEMPLATE ensures Loaded(LoadAll(confs, [], listing, depth).mods, d) {
      if !Loaded(LoadAll(confs, [], listing, depth).mods, d) {
        var e := LeftOutCan(confs, listing, depth, d);
        CanIsInConfs(confs, e);
      }
    }
  }

  lemma CanIsInConfs(confs: Confs, e: string)
    requires CanBeLeftOut(confs, e)
    ensures e in confs
  {
  }

  /** Names that do not collide leave nothing out. */
  lemma ApartLeavesNothingOut(confs: Confs, listing: seq<string>)
    requires NamesApart(confs, listing) && forall d :: d in confs ==> d in listing
    ensures forall e :: e in confs ==> !CanBeLeftOut(confs, e)
  {
  }

  /** For acyclic dependencies whose targets exist, and no directory that can be left out, in whatever order
      the directories are listed: loading succeeds, with no more nested calls than there are modules; it
      loads every directory exactly once, the template only when some module depends on it; every module
      stands after its dependency; and a second pass, over any of the directories, changes nothing. */
  lemma LoadsEverythingOnce(confs: Confs, listing: seq<string>, again: seq<string>, depth: nat, depth2: nat)
    requires Acyclic(confs) && Closed(confs) && forall e :: e in confs ==> !CanBeLeftOut(confs, e)
    requires forall d :: d in listing <==> d in confs
    requires forall d :: d in again ==> d in confs
    requires depth >= |confs|
    ensures var r := LoadAll(confs, [], listing, depth);
      && r.failure.None? && Ordered(confs, r.mods)
      && (forall d :: Loaded(r.mods, d) <==>
            d in confs && (d == TEMPLATE ==> exists e :: e in confs && confs[e].dependsOn == Some(d)))
      && LoadAll(confs, r.mods, again, depth2) == Pass(r.mods, None)
  {
    LoadsWhatCannotBeLeftOut(confs, listing, depth);
    hide CanBeLeftOut;
    assert Ordered(confs, []);
    PassKeeps(confs, [], listing, depth);
    var r := LoadAll(confs, [], listing, depth);
    forall d
      ensures Loaded(r.mods, d) <==>
        d in confs && (d == TEMPLATE ==> exists e :: e in confs && confs[e].dependsOn == Some(d))
    {
      LoadedIff(confs, listing, r.mods, d);
    }
    PassIdle(confs, r.mods, again, depth2);
  }

  /** Where names do collide, a module can be left out, depending on the order of the listing. */
  lemma CollisionLeavesOut(confs: Confs, a: string, b: string, depth: nat)
    requires depth > 0 && a in confs && b in confs && a != b && a != TEMPLATE && b != TEMPLATE
    requires confs[a].dependsOn.None? && confs[b].dependsOn.None?
    requires confs[a].name == b && confs[b].name == b && confs[b].displayName != a
    ensures LoadAll(confs, [], [a, b], depth) == Pass([Module(a, confs[a])], None)
    ensures LoadAll(confs, [], [b, a], depth) == Pass([Module(b, confs[b]), Module(a, confs[a])], None)
  {
    var ma, mb := Module(a, confs[a]), Module(b, confs[b]);
    assert [a, b][1..] == [b] && [b, a][1..] == [a] && [b][1..] == [] && [a][1..] == [];
    assert [] + [ma] == [ma] && [] + [mb] == [mb];
    assert Load(confs, [], a, depth) == Ok([ma]) && Load(confs, [], b, depth) == Ok([mb]);
    assert [ma][0].conf.name == b;
    assert LoadAll(confs, [ma], [b], depth) == Pass([ma], None);
    assert LoadAll(confs, [mb], [a], depth) == Pass([mb, ma], None);
  }

  // ---------------------------------------------------------------------
  // Start order
  // ---------------------------------------------------------------------

  /** Everything that a module depends on, directly or not, stands before it. */
  lemma {:induction false} AncestorBefore(confs: Confs, mods: seq<Module>, i: nat, k: nat, d: string)
    requires Ordered(confs, mods) && i < |mods| && k > 0
    requires Follow(confs, mods[i].dirName, k) == Some(d)
    ensures Loaded(mods[..i], d)
    decreases k
  {
    var e := Follow(confs, mods[i].dirName, k - 1).value;
    if k == 1 {
      assert e == mods[i].dirName;
    } else {
      AncestorBefore(confs, mods, i, k - 1, e);
      var j :| 0 <= j < i && mods[..i][j].dirName == e;
      assert mods[j].conf.dependsOn == Some(d);
      var l :| 0 <= l < j && mods[..j][l].dirName == d;
      assert mods[..i][l].dirName == d;
    }
  }

  lemma {:induction false} StartedAt(mods: seq<Module>, p: nat) returns (i: nat)
    requires p < |Started(mods)|
    ensures i < |mods| && mods[i] == Started(mods)[p] && Started(mods[..i]) == Started(mods)[..p]
    decreases mods
  {
    var first := if Starts(mods[0]) then [mods[0]] else [];
    if p < |first| {
      i := 0;
    } else {
      var j := StartedAt(mods[1..], p - |first|);
      i := j + 1;
      assert mods[..i][0] == mods[0] && mods[..i][1..] == mods[1..][..j];
    }
  }

  lemma {:induction false} StartedHas(mods: seq<Module>, i: nat)
    requires i < |mods| && Starts(mods[i])
    ensures mods[i] in Started(mods)
    decreases mods
  {
    if i > 0 {
      StartedHas(mods[1..], i - 1);
    }
  }

  /** The modules started are those with both switches on, and no other. */
  lemma StartedIff(mods: seq<Module>, m: Module)
    ensures m in Started(mods) <==> m in mods && m.conf.enabled && m.conf.enableContainer
  {
    if p :| 0 <= p < |Started(mods)| && Started(mods)[p] == m {
      var i := StartedAt(mods, p);
      assert mods[i] == m;
      StartedStarts(mods);
    }
    if i :| 0 <= i < |mods| && mods[i] == m && Starts(m) {
      StartedHas(mods, i);
    }
  }

  lemma {:induction false} StartedStarts(mods: seq<Module>)
    ensures forall m :: m in Started(mods) ==> Starts(m)
  {
    if mods != [] {
      StartedStarts(mods[1..]);
    }
  }

  /** Each once, in the order of the list. */
  lemma StartedInOrder(mods: seq<Module>, p: nat, q: nat) returns (i: nat, j: nat)
    requires p < q < |Started(mods)|
    ensures i < j < |mods| && mods[i] == Started(mods)[p] && mods[j] == Started(mods)[q]
  {
    j := StartedAt(mods, q);
    i := StartedAt(mods[..j], p);
    assert mods[..j][i] == mods[i];
  }

  /** Services start after everything startable that they depend on, directly or not. */
  lemma DependenciesStartFirst(confs: Confs, mods: seq<Module>, p: nat, k: nat, d: string)
    requires Ordered(confs, mods) && p < |Started(mods)| && k > 0
    requires Follow(confs, Started(mods)[p].dirName, k) == Some(d)
    requires d in confs && confs[d].enabled && confs[d].enableContainer
    ensures Loaded(Started(mods)[..p], d)
  {
    var i := StartedAt(mods, p);
    AncestorBefore(confs, mods, i, k, d);
    var j :| 0 <= j < i && mods[..i][j].dirName == d;
    StartedHas(mods[..i], j);
  }

  // ---------------------------------------------------------------------
  // Why a load fails
  // ---------------------------------------------------------------------

  /** A load fails only because the chain of dependencies meets a directory without a configuration, or because
      it is longer than the depth allows. */
  lemma {:induction false} LoadFails(confs: Confs, mods: seq<Module>, dir: string, depth: nat)
    ensures Load(confs, mods, dir, depth).Err? ==>
      Load(confs, mods, dir, depth).error in {FileNotFoundError, RecursionError}
    ensures Load(confs, mods, dir, depth) == Err(FileNotFoundError) ==>
      exists k: nat :: k < depth && Follow(confs, dir, k).Some? && Follow(confs, dir, k).value !in confs
    ensures Load(confs, mods, dir, depth) == Err(RecursionError) ==> Follow(confs, dir, depth).Some?
    decreases depth
  {
    assert Follow(confs, dir, 0) == Some(dir);
    if depth > 0 && !Loaded(mods, dir) && dir in confs && confs[dir].dependsOn.Some? {
      var next := confs[dir].dependsOn.value;
      LoadFails(confs, mods, next, depth - 1);
      FollowTail(confs, dir, depth - 1);
      if k: nat :| k < depth - 1 && Follow(confs, next, k).Some? && Follow(confs, next, k).value !in confs {
        FollowTail(confs, dir, k);
        assert Follow(confs, dir, k + 1).Some?;
      }
    }
  }
}
