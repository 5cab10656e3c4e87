// The check and boot commands over all overlays of a host
// (pkgs/fort-overlay-manager/main.go, cmdCheck and cmdBoot): per-overlay decisions,
// taken in dependency order.
module OverlayFleet {
  import opened Wrappers
  import opened Strings
  import opened DependencyOrder
  import opened OverlayLifecycle
  import Backoff

  datatype OverlayConfig = OverlayConfig(package: string, enabled: bool, dependsOn: seq<string>)

  type Config = map<string, OverlayConfig>

  function Dependencies(cfg: Config): Graph {
    map name | name in cfg :: cfg[name].dependsOn
  }

  /** Each overlay has its own state directory, and the world answers for each. */
  ghost predicate Wired(cfg: Config, dirs: map<string, OverlayDir>, worlds: map<string, World>) {
    && dirs.Keys == cfg.Keys && worlds.Keys == cfg.Keys
    && forall m, n :: m in dirs && n in dirs && m != n ==> dirs[m] != dirs[n]
  }

  ghost function Snapshot(dirs: map<string, OverlayDir>): map<string, Dir>
    reads dirs.Values
  {
    map name | name in dirs :: dirs[name].Contents()
  }

  /** The registry path a check cycle considers for an overlay, if it considers it at all. */
  function Advertised(cfg: Config, registry: map<string, string>, only: string, name: string): Option<string>
    requires name in cfg
  {
    if !cfg[name].enabled || (only != "" && name != only) || cfg[name].package !in registry then None
    else Some(registry[cfg[name].package])
  }

  predicate Activates(cfg: Config, registry: map<string, string>, only: string, poll: Backoff.PollInterval,
                      d: Dir, w: World, name: string)
    requires name in cfg
  {
    var path := Advertised(cfg, registry, only, name);
    path.Some? && ShouldActivate(d, path.value, poll, w)
  }

  function Checked(cfg: Config, registry: map<string, string>, only: string, poll: Backoff.PollInterval,
                   d: Dir, w: World, name: string): Dir
    requires name in cfg
  {
    var path := Advertised(cfg, registry, only, name);
    if path.None? then d else AfterCheck(d, path.value, poll, w)
  }

  /** The members of `s` that are in `keep`, in the order of `s`. */
  function Filter(s: seq<string>, keep: set<string>): (r: seq<string>) {
    if s == [] then []
    else Filter(s[..|s| - 1], keep) + if s[|s| - 1] in keep then [s[|s| - 1]] else []
  }

  ghost function WhoActivates(cfg: Config, registry: map<string, string>, only: string, poll: Backoff.PollInterval,
                              before: map<string, Dir>, worlds: map<string, World>): set<string>
    requires before.Keys == cfg.Keys && worlds.Keys == cfg.Keys
  {
    set name | name in cfg && Activates(cfg, registry, only, poll, before[name], worlds[name], name)
  }

  method CheckOne(cfg: Config, registry: map<string, string>, only: string, poll: Backoff.PollInterval,
                  name: string, dirs: map<string, OverlayDir>, worlds: map<string, World>) returns (acted: bool)
    requires Wired(cfg, dirs, worlds) && name in cfg
    modifies dirs[name]
    ensures acted == Activates(cfg, registry, only, poll, old(dirs[name].Contents()), worlds[name], name)
    ensures Snapshot(dirs) == old(Snapshot(dirs))
              [name := Checked(cfg, registry, only, poll, old(dirs[name].Contents()), worlds[name], name)]
  {
    if !cfg[name].enabled {
      return false;
    }
    if only != "" && name != only {
      return false;
    }
    if cfg[name].package !in registry {
      return false;
    }
    acted := dirs[name].Check(registry[cfg[name].package], poll, worlds[name]);
  }

  /** The overlays listed in `done` are in the state `after` gives them, the rest as `before`. */
  ghost function Progress(before: map<string, Dir>, after: map<string, Dir>, done: seq<string>): map<string, Dir>
    requires before.Keys == after.Keys
  {
    map name | name in before :: if name in done then after[name] else before[name]
  }

  lemma ProgressStep(before: map<string, Dir>, after: map<string, Dir>, done: seq<string>, name: string)
    requires before.Keys == after.Keys && name in before
    ensures Progress(before, after, done)[name := after[name]] == Progress(before, after, done + [name])
  {
  }

  lemma ProgressDone(before: map<string, Dir>, after: map<string, Dir>, done: seq<string>)
    requires before.Keys == after.Keys && forall name :: name in before ==> name in done
    ensures Progress(before, after, done) == after
  {
  }

  ghost function AllChecked(cfg: Config, registry: map<string, string>, only: string, poll: Backoff.PollInterval,
                            before: map<string, Dir>, worlds: map<string, World>): map<string, Dir>
    requires before.Keys == cfg.Keys && worlds.Keys == cfg.Keys
  {
    map name | name in cfg :: Checked(cfg, registry, only, poll, before[name], worlds[name], name)
  }

  /** `order` names each overlay of the host once. */
  ghost predicate Lists(order: seq<string>, cfg: Config) {
    Distinct(order) && forall n :: n in order <==> n in cfg
  }

  lemma OrderLists(cfg: Config, order: seq<string>)
    requires order == Ordered(Dependencies(cfg))
    ensures Lists(order, cfg)
  {
    OrderedCorrect(Dependencies(cfg));
    assert forall n :: n in order <==> n in Elements(order);
  }

  lemma FilterNext(order: seq<string>, i: nat, keep: set<string>)
    requires i < |order|
    ensures Filter(order[..i + 1], keep) == Filter(order[..i], keep) + if order[i] in keep then [order[i]] else []
  {
    assert order[..i + 1][..i] == order[..i];
  }

  lemma NextListed(cfg: Config, order: seq<string>, i: nat)
    requires Lists(order, cfg) && i < |order|
    ensures order[i] in cfg && order[i] !in order[..i]
    ensures order[..i + 1] == order[..i] + [order[i]] && order[..i + 1][..i] == order[..i]
  {
  }

  /** One iteration of the check loop, between the states its two ends leave. */
  method CheckNext(cfg: Config, registry: map<string, string>, only: string, poll: Backoff.PollInterval,
                   name: string, dirs: map<string, OverlayDir>, worlds: map<string, World>,
                   ghost before: map<string, Dir>, ghost after: map<string, Dir>, ghost who: set<string>,
                   ghost done: seq<string>)
      returns (acted: bool)
    requires Wired(cfg, dirs, worlds) && name in cfg && name !in done && before.Keys == cfg.Keys
    requires after == AllChecked(cfg, registry, only, poll, before, worlds)
    requires who == WhoActivates(cfg, registry, only, poll, before, worlds)
    requires Snapshot(dirs) == Progress(before, after, done)
    modifies dirs[name]
    ensures acted == (name in who)
    ensures Snapshot(dirs) == Progress(before, after, done + [name])
  {
    assert dirs[name].Contents() == Snapshot(dirs)[name] == before[name];
    ProgressStep(before, after, done, name);
    acted := CheckOne(cfg, registry, only, poll, name, dirs, worlds);
  }

  method CheckAll(cfg: Config, registry: map<string, string>, only: string, poll: Backoff.PollInterval,
                  order: seq<string>, dirs: map<string, OverlayDir>, worlds: map<string, World>)
      returns (activated: seq<string>)
    requires Wired(cfg, dirs, worlds) && Lists(order, cfg)
    modifies dirs.Values
    ensures activated == Filter(order, WhoActivates(cfg, registry, only, poll, old(Snapshot(dirs)), worlds))
    ensures Snapshot(dirs) == AllChecked(cfg, registry, only, poll, old(Snapshot(dirs)), worlds)
  {
    ghost var before := Snapshot(dirs);
    ghost var after := AllChecked(cfg, registry, only, poll, before, worlds);
    ghost var who := WhoActivates(cfg, registry, only, poll, before, worlds);
    activated := [];
    var i := 0;
    while i < |order|
      invariant 0 <= i <= |order|
      invariant activated == Filter(order[..i], who)
      invariant Snapshot(dirs) == Progress(before, after, order[..i])
    {
      NextListed(cfg, order, i);
      var acted := CheckNext(cfg, registry, only, poll, order[i], dirs, worlds, before, after, who, order[..i]);
      FilterNext(order, i, who);
      if acted {
        activated := activated + [order[i]];
      }
      i := i + 1;
    }
    assert order[..i] == order;
    ProgressDone(before, after, order);
  }

  /** One check cycle: every overlay is decided on its own state, and those activated are
      activated in the dependency order of the whole host. */
  method CmdCheck(cfg: Config, registry: Option<map<string, string>>, only: string, poll: Backoff.PollInterval,
                  dirs: map<string, OverlayDir>, worlds: map<string, World>) returns (activated: seq<string>)
    requires Wired(cfg, dirs, worlds)
    modifies dirs.Values
    ensures registry.None? ==> activated == [] && Snapshot(dirs) == old(Snapshot(dirs))
    ensures registry.Some? ==>
      && activated == Filter(Ordered(Dependencies(cfg)),
                             WhoActivates(cfg, registry.value, only, poll, old(Snapshot(dirs)), worlds))
      && Snapshot(dirs) == AllChecked(cfg, registry.value, only, poll, old(Snapshot(dirs)), worlds)
  {
    activated := [];
    if registry.None? {
      return;
    }
    var order := OrderedOverlays(Dependencies(cfg));
    OrderLists(cfg, order);
    activated := CheckAll(cfg, registry.value, only, poll, order, dirs, worlds);
  }

  function BootRegenerated(cfg: Config, d: Dir, w: World, name: string): Dir
    requires name in cfg
  {
    if cfg[name].enabled then Regenerated(d, w) else d
  }

  ghost function AllRegenerated(cfg: Config, before: map<string, Dir>, worlds: map<string, World>): map<string, Dir>
    requires before.Keys == cfg.Keys && worlds.Keys == cfg.Keys
  {
    map name | name in cfg :: BootRegenerated(cfg, before[name], worlds[name], name)
  }

  ghost function WhoStarts(cfg: Config, before: map<string, Dir>): set<string>
    requires before.Keys == cfg.Keys
  {
    set name | name in cfg && cfg[name].enabled && before[name].current.Some?
  }

  ghost function AllStarted(cfg: Config, before: map<string, Dir>, worlds: map<string, World>): map<string, Dir>
    requires before.Keys == cfg.Keys && worlds.Keys == cfg.Keys
  {
    map name | name in cfg :: if cfg[name].enabled then BootStarted(before[name], worlds[name]) else before[name]
  }

  ghost function AllBooted(cfg: Config, before: map<string, Dir>, worlds: map<string, World>): map<string, Dir>
    requires before.Keys == cfg.Keys && worlds.Keys == cfg.Keys
  {
    map name | name in cfg :: if cfg[name].enabled then AfterBoot(before[name], worlds[name]) else before[name]
  }

  method RegenerateOne(cfg: Config, name: string, dirs: map<string, OverlayDir>, worlds: map<string, World>)
    requires Wired(cfg, dirs, worlds) && name in cfg
    modifies dirs[name]
    ensures Snapshot(dirs) == old(Snapshot(dirs))
              [name := BootRegenerated(cfg, old(dirs[name].Contents()), worlds[name], name)]
  {
    if cfg[name].enabled {
      dirs[name].Regenerate(worlds[name]);
    }
  }

  /** One iteration of boot's first loop, between the states its two ends leave. */
  method RegenerateNext(cfg: Config, name: string, dirs: map<string, OverlayDir>, worlds: map<string, World>,
                        ghost before: map<string, Dir>, ghost after: map<string, Dir>, ghost done: seq<string>)
    requires Wired(cfg, dirs, worlds) && name in cfg && name !in done && before.Keys == cfg.Keys
    requires after == AllRegenerated(cfg, before, worlds)
    requires Snapshot(dirs) == Progress(before, after, done)
    modifies dirs[name]
    ensures Snapshot(dirs) == Progress(before, after, done + [name])
  {
    assert dirs[name].Contents() == Snapshot(dirs)[name] == before[name];
    ProgressStep(before, after, done, name);
    RegenerateOne(cfg, name, dirs, worlds);
  }

  method RegenerateAll(cfg: Config, order: seq<string>, dirs: map<string, OverlayDir>, worlds: map<string, World>)
    requires Wired(cfg, dirs, worlds) && Lists(order, cfg)
    modifies dirs.Values
    ensures Snapshot(dirs) == AllRegenerated(cfg, old(Snapshot(dirs)), worlds)
  {
    ghost var before := Snapshot(dirs);
    ghost var after := AllRegenerated(cfg, before, worlds);
    var i := 0;
    while i < |order|
      invariant 0 <= i <= |order|
      invariant Snapshot(dirs) == Progress(before, after, order[..i])
    {
      NextListed(cfg, order, i);
      RegenerateNext(cfg, order[i], dirs, worlds, before, after, order[..i]);
      i := i + 1;
    }
    assert order[..|order|] == order;
    ProgressDone(before, after, order);
  }

  method StartOne(cfg: Config, name: string, dirs: map<string, OverlayDir>, worlds: map<string, World>)
      returns (started: bool)
    requires Wired(cfg, dirs, worlds) && name in cfg
    modifies dirs[name]
    ensures started == (cfg[name].enabled && old(dirs[name].Contents()).current.Some?)
    ensures Snapshot(dirs) == old(Snapshot(dirs))
              [name := if cfg[name].enabled then BootStarted(old(dirs[name].Contents()), worlds[name])
                       else old(dirs[name].Contents())]
  {
    if !cfg[name].enabled {
      return false;
    }
    started := dirs[name].StartOnBoot(worlds[name]);
  }

  method StartNext(cfg: Config, name: string, dirs: map<string, OverlayDir>, worlds: map<string, World>,
                   ghost before: map<string, Dir>, ghost after: map<string, Dir>, ghost who: set<string>,
                   ghost done: seq<string>)
      returns (started: bool)
    requires Wired(cfg, dirs, worlds) && name in cfg && name !in done && before.Keys == cfg.Keys
    requires after == AllStarted(cfg, before, worlds) && who == WhoStarts(cfg, before)
    requires Snapshot(dirs) == Progress(before, after, done)
    modifies dirs[name]
    ensures started == (name in who)
    ensures Snapshot(dirs) == Progress(before, after, done + [name])
  {
    assert dirs[name].Contents() == Snapshot(dirs)[name] == before[name];
    ProgressStep(before, after, done, name);
    started := StartOne(cfg, name, dirs, worlds);
  }

  method StartAll(cfg: Config, order: seq<string>, dirs: map<string, OverlayDir>, worlds: map<string, World>)
      returns (started: seq<string>)
    requires Wired(cfg, dirs, worlds) && Lists(order, cfg)
    modifies dirs.Values
    ensures started == Filter(order, WhoStarts(cfg, old(Snapshot(dirs))))
    ensures Snapshot(dirs) == AllStarted(cfg, old(Snapshot(dirs)), worlds)
  {
    ghost var before := Snapshot(dirs);
    ghost var after := AllStarted(cfg, before, worlds);
    ghost var who := WhoStarts(cfg, before);
    started := [];
    var i := 0;
    while i < |order|
      invariant 0 <= i <= |order|
      invariant started == Filter(order[..i], who)
      invariant Snapshot(dirs) == Progress(before, after, order[..i])
    {
      NextListed(cfg, order, i);
      var acted := StartNext(cfg, order[i], dirs, worlds, before, after, who, order[..i]);
      FilterNext(order, i, who);
      if acted {
        started := started + [order[i]];
      }
      i := i + 1;
    }
    assert order[..i] == order;
    ProgressDone(before, after, order);
  }

  /** Boot regenerates each enabled overlay, then starts those with a committed version in
      dependency order. */
  method CmdBoot(cfg: Config, dirs: map<string, OverlayDir>, worlds: map<string, World>) returns (started: seq<string>)
    requires Wired(cfg, dirs, worlds)
    modifies dirs.Values
    ensures Snapshot(dirs) == AllBooted(cfg, old(Snapshot(dirs)), worlds)
    ensures started == Filter(Ordered(Dependencies(cfg)), WhoStarts(cfg, old(Snapshot(dirs))))
  {
    ghost var before := Snapshot(dirs);
    BootInTwoLoops(cfg, before, worlds);
    var order := OrderedOverlays(Dependencies(cfg));
    OrderLists(cfg, order);
    RegenerateAll(cfg, order, dirs, worlds);
    started := StartAll(cfg, order, dirs, worlds);
  }

  lemma BootInTwoLoops(cfg: Config, before: map<string, Dir>, worlds: map<string, World>)
    requires before.Keys == cfg.Keys && worlds.Keys == cfg.Keys
    ensures var middle := AllRegenerated(cfg, before, worlds);
      && AllStarted(cfg, middle, worlds) == AllBooted(cfg, before, worlds)
      && WhoStarts(cfg, middle) == WhoStarts(cfg, before)
  {
  }

  lemma {:induction false} FilterMembers(s: seq<string>, keep: set<string>)
    ensures forall x :: x in Filter(s, keep) <==> x in s && x in keep
  {
    if s != [] {
      FilterMembers(s[..|s| - 1], keep);
      assert s == s[..|s| - 1] + [s[|s| - 1]];
    }
  }

  /** Positions in a filtered list are ordered as in the list itself. */
  lemma {:induction false} FilterKeepsOrder(s: seq<string>, keep: set<string>, i: nat, j: nat) returns (a: nat, b: nat)
    requires Distinct(s) && i < j < |Filter(s, keep)|
    ensures a < b < |s| && s[a] == Filter(s, keep)[i] && s[b] == Filter(s, keep)[j]
  {
    var init := s[..|s| - 1];
    var f := Filter(init, keep);
    if j < |f| {
      a, b := FilterKeepsOrder(init, keep, i, j);
    } else {
      FilterMembers(init, keep);
      assert f[i] in init;
      a :| 0 <= a < |init| && init[a] == f[i];
      b := |s| - 1;
    }
  }

  /** Main result: whatever subset of the overlays a check cycle activates or a boot starts,
      an overlay comes before one of its declared dependencies only if the two lie on a
      dependency cycle. */
  lemma ActionsFollowDependencies(cfg: Config, keep: set<string>, i: nat, j: nat)
    requires var acted := Filter(Ordered(Dependencies(cfg)), keep);
      i < j < |acted| && acted[i] in cfg && acted[j] in cfg[acted[i]].dependsOn
    ensures var acted := Filter(Ordered(Dependencies(cfg)), keep);
      && Reaches(Dependencies(cfg), acted[j], acted[i])
      && !Acyclic(Dependencies(cfg))
  {
    var g := Dependencies(cfg);
    OrderedCorrect(g);
    var a, b := FilterKeepsOrder(Ordered(g), keep, i, j);
    assert Ordered(g)[b] in g[Ordered(g)[a]];
    assert Ordered(g)[b] in Elements(Ordered(g));
  }

  // ---- Which overlays a command may touch ----

  datatype FleetOp =
    | CheckCycle(registry: Option<map<string, string>>, only: string, poll: Backoff.PollInterval, worlds: map<string, World>)
    | BootAll(worlds: map<string, World>)

  ghost predicate Answered(cfg: Config, ops: seq<FleetOp>) {
    forall i :: 0 <= i < |ops| ==> ops[i].worlds.Keys == cfg.Keys
  }

  ghost function FleetStep(cfg: Config, dirs: map<string, Dir>, op: FleetOp): (r: map<string, Dir>)
    requires dirs.Keys == cfg.Keys && op.worlds.Keys == cfg.Keys
    ensures r.Keys == cfg.Keys
  {
    match op
    case CheckCycle(registry, only, poll, worlds) =>
      if registry.None? then dirs else AllChecked(cfg, registry.value, only, poll, dirs, worlds)
    case BootAll(worlds) => AllBooted(cfg, dirs, worlds)
  }

  ghost function FleetRun(cfg: Config, dirs: map<string, Dir>, ops: seq<FleetOp>): (r: map<string, Dir>)
    requires dirs.Keys == cfg.Keys && Answered(cfg, ops)
    ensures r.Keys == cfg.Keys
  {
    if ops == [] then dirs
    else FleetStep(cfg, FleetRun(cfg, dirs, ops[..|ops| - 1]), ops[|ops| - 1])
  }

  /** A check considers an enabled overlay that it was not told to leave out and whose package
      the registry lists; a boot every enabled one. */
  predicate Considered(cfg: Config, op: FleetOp, name: string)
    requires name in cfg
  {
    && cfg[name].enabled
    && (op.CheckCycle? ==> op.registry.Some? && (op.only == "" || op.only == name) && cfg[name].package in op.registry.value)
  }

  /** A considered overlay is checked against the path the registry gives its package, or
      booted; any other is left alone. */
  lemma FleetStepOn(cfg: Config, dirs: map<string, Dir>, op: FleetOp, name: string)
    requires dirs.Keys == cfg.Keys && op.worlds.Keys == cfg.Keys && name in cfg
    ensures FleetStep(cfg, dirs, op)[name] ==
      if !Considered(cfg, op, name) then dirs[name]
      else if op.BootAll? then AfterBoot(dirs[name], op.worlds[name])
      else AfterCheck(dirs[name], op.registry.value[cfg[name].package], op.poll, op.worlds[name])
  {
  }

  /** Main result: over any checks and boots, an overlay that none of them considers, such as a
      disabled one, keeps its versions, records and services, whatever happens to the others. */
  lemma {:induction false} LeftAlone(cfg: Config, dirs: map<string, Dir>, ops: seq<FleetOp>, name: string)
    requires dirs.Keys == cfg.Keys && Answered(cfg, ops) && name in cfg
    requires forall i :: 0 <= i < |ops| ==> !Considered(cfg, ops[i], name)
    ensures FleetRun(cfg, dirs, ops)[name] == dirs[name]
  {
    if ops != [] {
      var init := ops[..|ops| - 1];
      LeftAlone(cfg, dirs, init, name);
      FleetStepOn(cfg, FleetRun(cfg, dirs, init), ops[|ops| - 1], name);
    }
  }

  /** Exactly these overlays are activated by a check, and these started by a boot. */
  lemma WhoActs(cfg: Config, registry: map<string, string>, only: string, poll: Backoff.PollInterval,
                before: map<string, Dir>, worlds: map<string, World>, name: string)
    requires before.Keys == cfg.Keys && worlds.Keys == cfg.Keys && name in cfg
    ensures name in WhoActivates(cfg, registry, only, poll, before, worlds) <==>
      && cfg[name].enabled && (only == "" || only == name) && cfg[name].package in registry
      && ShouldActivate(before[name], registry[cfg[name].package], poll, worlds[name])
    ensures name in WhoStarts(cfg, before) <==> cfg[name].enabled && before[name].current.Some?
  {
  }
}
