// The per-overlay activation, rollback and boot state machine of the overlay manager
// (pkgs/fort-overlay-manager/main.go). What commands outside the manager do is an input
// (`World`); writes to the state directory and stopping services succeed.
module OverlayLifecycle {
  import opened Numbers
  import opened Wrappers
  import Backoff

  /** Contents of the `state` file; `Idle` stands for a missing file. */
  datatype Phase =
    | Idle | Fetching | Validating | Provisioning | Provisional | RollingBack
    | Permanent | RolledBack | Failed

  datatype Version = Version(storePath: string, activatedAt: int)

  datatype Verdict = AttemptFailed | AttemptRolledBack

  datatype Attempt = Attempt(storePath: string, verdict: Verdict, at: int, attempts: int)

  /** One overlay: its state directory, and what the manager's commands made of its services.
      `units` is the store path whose unit files are installed and loaded, None if there are
      none or an error left something else; `running` is the store path whose units were
      started, None if its services are stopped or were not started without an error. */
  datatype Dir = Dir(
    phase: Phase,
    current: Option<Version>,
    previous: Option<Version>,
    attempt: Option<Attempt>,
    rootCurrent: Option<string>,
    rootPrevious: Option<string>,
    units: Option<string>,
    running: Option<string>)

  const FRESH := Dir(Idle, None, None, None, None, None, None, None)

  /** How the outside world answers one command, and the wall clock (nanoseconds) when it
      is looked at and when the command's outcome is recorded. */
  datatype World = World(
    now: int,
    currentPathExists: bool,
    fetched: bool,
    hasOverlayNix: bool,
    evaluated: bool,
    unitsGenerated: bool,
    reloaded: bool,
    started: bool,
    wantsHealth: bool,
    healthy: bool,
    previousEvaluated: bool,
    previousGenerated: bool,
    previousReloaded: bool,
    previousStarted: bool,
    recorded: int)

  /** time.Time.Unix: whole seconds, rounded down. */
  function Unix(nanos: int): int {
    nanos / SECOND
  }

  /** The three ways an activation ends. */
  datatype Fate = Broken | Lost | Committed

  function FateOf(w: World): Fate {
    if !(w.fetched && w.hasOverlayNix && w.evaluated && w.unitsGenerated && w.reloaded) then Broken
    else if !w.started || (w.wantsHealth && !w.healthy) then Lost
    else Committed
  }

  // ---- The state a command leaves behind ----

  function AttemptCount(d: Dir, path: string): int {
    if d.attempt.Some? && d.attempt.value.storePath == path then d.attempt.value.attempts else 0
  }

  function Recorded(d: Dir, path: string, verdict: Verdict, w: World): Dir {
    d.(attempt := Some(Attempt(path, verdict, Unix(w.recorded), AttemptCount(d, path) + 1)))
  }

  /** systemctl start on the overlay's target: nothing happens to services that are up. */
  function Started(units: Option<string>, running: Option<string>, ok: bool): Option<string> {
    if running.Some? then running else if ok then units else None
  }

  /** The units after the files of `path` were written and loaded, if both succeed. */
  function Installed(path: string, generated: bool, reloaded: bool): Option<string> {
    if generated && reloaded then Some(path) else None
  }

  /** A failure that leaves the versions alone; an empty `path` is not recorded. */
  function GivenUp(d: Dir, path: string, w: World): Dir {
    (if path == "" then d else Recorded(d, path, AttemptFailed, w)).(phase := Failed)
  }

  /** Going back to previous.json; an empty `failedPath` marks an operator's rollback. Whether
      its unit generation, reload and start succeed is not looked at. */
  function AfterRollback(d: Dir, failedPath: string, w: World): Dir {
    if d.previous.None? then GivenUp(d, failedPath, w)
    else if !w.previousEvaluated then GivenUp(d, failedPath, w).(running := None)
    else
      var path := d.previous.value.storePath;
      var units := Installed(path, w.previousGenerated, w.previousReloaded);
      Dir(RolledBack, d.previous, None,
          if failedPath == "" then None
          else Recorded(d, failedPath, AttemptRolledBack, w).attempt,
          Some(path), None, units, Started(units, None, w.previousStarted))
  }

  /** The units an activation that breaks leaves: those there were, unless it got to writing. */
  function BrokenUnits(d: Dir, w: World): Option<string> {
    if w.fetched && w.hasOverlayNix && w.evaluated then None else d.units
  }

  function AfterActivate(d: Dir, path: string, w: World): Dir {
    match FateOf(w)
    case Broken => Recorded(d, path, AttemptFailed, w).(phase := Failed, units := BrokenUnits(d, w))
    case Lost => AfterRollback(d.(units := Some(path), running := Started(Some(path), None, w.started)), path, w)
    case Committed =>
      Dir(Permanent,
          Some(Version(path, Unix(w.recorded))),
          if d.current.Some? then d.current else d.previous,
          None,
          Some(path),
          if d.current.Some? && d.rootCurrent.Some? then d.rootCurrent else d.rootPrevious,
          Some(path), Some(path))
  }

  /** The check answers "up to date" without looking at the services. */
  predicate UpToDate(d: Dir, path: string, w: World) {
    d.current.Some? && d.current.value.storePath == path && w.currentPathExists
  }

  /** One check cycle activates the advertised path unless it is current or backed off. */
  predicate ShouldActivate(d: Dir, path: string, poll: Backoff.PollInterval, w: World) {
    && !UpToDate(d, path, w)
    && !(d.attempt.Some? && d.attempt.value.storePath == path
         && Backoff.Remaining(poll, d.attempt.value.attempts, d.attempt.value.at, w.now) > 0)
  }

  function AfterCheck(d: Dir, path: string, poll: Backoff.PollInterval, w: World): Dir {
    if ShouldActivate(d, path, poll, w) then AfterActivate(d, path, w) else d
  }

  /** Boot's first loop: the units of the current version are written again. */
  function Regenerated(d: Dir, w: World): Dir {
    if d.current.None? then d.(attempt := None)
    else if !w.currentPathExists || !w.evaluated then d
    else
      var path := d.current.value.storePath;
      d.(rootCurrent := if w.unitsGenerated then Some(path) else d.rootCurrent,
         units := Installed(path, w.unitsGenerated, w.reloaded))
  }

  /** Boot's second loop: whatever units are there are started. */
  function BootStarted(d: Dir, w: World): Dir {
    if d.current.None? then d else d.(running := Started(d.units, d.running, w.started))
  }

  function AfterBoot(d: Dir, w: World): Dir {
    BootStarted(Regenerated(d, w), w)
  }

  /** A reboot stops the services and wipes the generated units; the state directory stays. */
  function AfterReboot(d: Dir): Dir {
    d.(units := None, running := None)
  }

  // ---- The commands, on one overlay's files and services ----

  class OverlayDir {
    var phase: Phase
    var current: Option<Version>
    var previous: Option<Version>
    var attempt: Option<Attempt>
    var rootCurrent: Option<string>
    var rootPrevious: Option<string>
    var units: Option<string>
    var running: Option<string>

    function Contents(): Dir
      reads this
    {
      Dir(phase, current, previous, attempt, rootCurrent, rootPrevious, units, running)
    }

    constructor ()
      ensures Contents() == FRESH
    {
      phase, current, previous, attempt := Idle, None, None, None;
      rootCurrent, rootPrevious := None, None;
      units, running := None, None;
    }

    method StartTarget(ok: bool)
      modifies this`running
      ensures running == Started(units, old(running), ok)
    {
      if running.None? && ok {
        running := units;
      }
    }

    method RecordAttempt(storePath: string, verdict: Verdict, w: World)
      modifies this`attempt
      ensures Contents() == Recorded(old(Contents()), storePath, verdict, w)
    {
      var attempts := 1;
      if attempt.Some? && attempt.value.storePath == storePath {
        attempts := attempt.value.attempts + 1;
      }
      attempt := Some(Attempt(storePath, verdict, Unix(w.recorded), attempts));
    }

    method FailActivation(storePath: string, w: World)
      modifies this`attempt, this`phase
      ensures Contents() == Recorded(old(Contents()), storePath, AttemptFailed, w).(phase := Failed)
    {
      RecordAttempt(storePath, AttemptFailed, w);
      phase := Failed;
    }

    method RotatePrevious()
      modifies this`previous, this`rootPrevious
      ensures previous == if current.Some? then current else old(previous)
      ensures rootPrevious == if current.Some? && rootCurrent.Some? then rootCurrent else old(rootPrevious)
    {
      if current.Some? {
        previous := current;
        if rootCurrent.Some? {
          rootPrevious := None;
          rootPrevious := rootCurrent;
        }
      }
    }

    method Rollback(failedPath: string, w: World)
      modifies this
      ensures Contents() == AfterRollback(old(Contents()), failedPath, w)
    {
      if previous.None? {
        if failedPath != "" {
          RecordAttempt(failedPath, AttemptFailed, w);
        }
        phase := Failed;
        return;
      }
      running := None;
      if !w.previousEvaluated {
        if failedPath != "" {
          RecordAttempt(failedPath, AttemptFailed, w);
        }
        phase := Failed;
        return;
      }
      units := Installed(previous.value.storePath, w.previousGenerated, w.previousReloaded);
      StartTarget(w.previousStarted);
      current := previous;
      rootCurrent := Some(previous.value.storePath);
      previous := None;
      rootPrevious := None;
      if failedPath != "" {
        RecordAttempt(failedPath, AttemptRolledBack, w);
      } else {
        attempt := None;
      }
      phase := RolledBack;
    }

    method Activate(storePath: string, w: World)
      modifies this
      ensures Contents() == AfterActivate(old(Contents()), storePath, w)
    {
      phase := Fetching;
      if !w.fetched {
        FailActivation(storePath, w);
        return;
      }
      phase := Validating;
      if !w.hasOverlayNix {
        FailActivation(storePath, w);
        return;
      }
      if !w.evaluated {
        FailActivation(storePath, w);
        return;
      }
      phase := Provisioning;
      units := None;
      if !w.unitsGenerated {
        FailActivation(storePath, w);
        return;
      }
      if !w.reloaded {
        FailActivation(storePath, w);
        return;
      }
      units := Some(storePath);
      running := None;
      StartTarget(w.started);
      if !w.started {
        phase := RollingBack;
        Rollback(storePath, w);
        return;
      }
      phase := Provisional;
      if w.wantsHealth {
        if !w.healthy {
          phase := RollingBack;
          Rollback(storePath, w);
          return;
        }
      }
      Commit(storePath, w);
    }

    method Commit(storePath: string, w: World)
      modifies this`phase, this`previous, this`rootPrevious, this`current, this`rootCurrent, this`attempt
      ensures phase == Permanent && attempt.None?
      ensures current == Some(Version(storePath, Unix(w.recorded))) && rootCurrent == Some(storePath)
      ensures previous == if old(current).Some? then old(current) else old(previous)
      ensures rootPrevious == if old(current).Some? && old(rootCurrent).Some? then old(rootCurrent) else old(rootPrevious)
    {
      phase := Permanent;
      RotatePrevious();
      current := Some(Version(storePath, Unix(w.recorded)));
      rootCurrent := Some(storePath);
      attempt := None;
    }

    method Check(path: string, poll: Backoff.PollInterval, w: World) returns (activated: bool)
      modifies this
      ensures activated == ShouldActivate(old(Contents()), path, poll, w)
      ensures Contents() == AfterCheck(old(Contents()), path, poll, w)
    {
      if current.Some? && current.value.storePath == path {
        if w.currentPathExists {
          return false;
        }
      }
      if attempt.Some? && attempt.value.storePath == path {
        var wait := Backoff.BackoffRemaining(poll, attempt.value.attempts, attempt.value.at, w.now);
        if wait > 0 {
          return false;
        }
      }
      Activate(path, w);
      return true;
    }

    method ResetStaleBackoffOnBoot() returns (cleared: bool)
      modifies this`attempt
      ensures cleared == (current.None? && old(attempt).Some?)
      ensures attempt == if current.None? then None else old(attempt)
    {
      if current.Some? {
        return false;
      }
      if attempt.None? {
        return false;
      }
      attempt := None;
      return true;
    }

    /** Boot's first loop, for this overlay; the one reload after the loop is part of it. */
    method Regenerate(w: World)
      modifies this
      ensures Contents() == Regenerated(old(Contents()), w)
    {
      if current.None? {
        var _ := ResetStaleBackoffOnBoot();
        return;
      }
      if !w.currentPathExists {
        return;
      }
      if !w.evaluated {
        return;
      }
      units := None;
      if !w.unitsGenerated {
        return;
      }
      rootCurrent := Some(current.value.storePath);
      if w.reloaded {
        units := Some(current.value.storePath);
      }
    }

    /** Boot's second loop, for this overlay. */
    method StartOnBoot(w: World) returns (started: bool)
      modifies this`running
      ensures started == current.Some?
      ensures Contents() == BootStarted(old(Contents()), w)
    {
      if current.None? {
        return false;
      }
      StartTarget(w.started);
      return true;
    }
  }

  // ---- What every run keeps ----

  datatype Op =
    | CheckOp(path: string, poll: Backoff.PollInterval, w: World)
    | ActivateOp(path: string, w: World)
    | RollbackOp(w: World)
    | BootOp(w: World)
    | RebootOp

  function Step(d: Dir, op: Op): Dir {
    match op
    case CheckOp(path, poll, w) => AfterCheck(d, path, poll, w)
    case ActivateOp(path, w) => AfterActivate(d, path, w)
    case RollbackOp(w) => AfterRollback(d, "", w)
    case BootOp(w) => AfterBoot(d, w)
    case RebootOp => AfterReboot(d)
  }

  function Run(d: Dir, ops: seq<Op>): Dir {
    if ops == [] then d else Step(Run(d, ops[..|ops| - 1]), ops[|ops| - 1])
  }

  /** The store paths that were the current version at some boundary of the run at which
      the overlay was permanent. */
  function ReachedPermanent(d: Dir, ops: seq<Op>): set<string> {
    (if ops == [] then {} else ReachedPermanent(d, ops[..|ops| - 1])) + NowPermanent(Run(d, ops))
  }

  function NowPermanent(d: Dir): set<string> {
    if d.phase == Permanent && d.current.Some? then {d.current.value.storePath} else {}
  }

  function PathOf(v: Option<Version>): Option<string> {
    if v.Some? then Some(v.value.storePath) else None
  }

  ghost predicate WellKept(d: Dir, reached: set<string>) {
    && d.phase in {Idle, Permanent, RolledBack, Failed}
    && (d.current.Some? ==> d.current.value.storePath in reached)
    && (d.previous.Some? ==> d.previous.value.storePath in reached && d.current.Some?)
    && d.rootCurrent == PathOf(d.current)
    && d.rootPrevious == PathOf(d.previous)
    && (d.phase == Idle ==> d == FRESH)
    && (d.phase == Permanent ==> d.attempt.None? && d.current.Some?)
    && (d.phase == RolledBack ==> d.current.Some? && d.previous.None?)
    && (d.attempt.Some? ==> d.attempt.value.attempts >= 1)
  }

  /** Main result: at every command boundary of every run from an empty directory. */
  lemma {:induction false} RunWellKept(ops: seq<Op>)
    ensures WellKept(Run(FRESH, ops), ReachedPermanent(FRESH, ops))
  {
    if ops != [] {
      RunWellKept(ops[..|ops| - 1]);
      StepWellKept(Run(FRESH, ops[..|ops| - 1]), ops[|ops| - 1], ReachedPermanent(FRESH, ops[..|ops| - 1]));
    }
  }

  lemma StepWellKept(d: Dir, op: Op, reached: set<string>)
    requires WellKept(d, reached)
    ensures WellKept(Step(d, op), reached + NowPermanent(Step(d, op)))
  {
    match op {
      case CheckOp(path, _, w) => ActivateWellKept(d, path, w, reached);
      case ActivateOp(path, w) => ActivateWellKept(d, path, w, reached);
      case RollbackOp(w) => RollbackWellKept(d, "", w, reached);
      case BootOp(_) =>
      case RebootOp =>
    }
  }

  lemma ActivateWellKept(d: Dir, path: string, w: World, reached: set<string>)
    requires WellKept(d, reached)
    ensures WellKept(AfterActivate(d, path, w), reached + NowPermanent(AfterActivate(d, path, w)))
  {
    match FateOf(w) {
      case Lost => LostWellKept(d, path, w, reached);
      case Broken =>
      case Committed =>
    }
  }

  /** A rollback does not depend on the services it finds. */
  lemma LostWellKept(d: Dir, path: string, w: World, reached: set<string>)
    requires WellKept(d, reached) && FateOf(w) == Lost
    ensures WellKept(AfterActivate(d, path, w), reached)
  {
    if d.previous.Some? && w.previousEvaluated {
      RollbackWellKept(d, path, w, reached);
    }
  }

  lemma RollbackWellKept(d: Dir, failedPath: string, w: World, reached: set<string>)
    requires WellKept(d, reached)
    ensures WellKept(AfterRollback(d, failedPath, w), reached + NowPermanent(AfterRollback(d, failedPath, w)))
  {
  }

  /** Once a version is committed the overlay never again lacks a current version. */
  lemma {:induction false} CommittedForGood(d: Dir, ops: seq<Op>)
    requires d.current.Some?
    ensures Run(d, ops).current.Some?
  {
    if ops != [] {
      CommittedForGood(d, ops[..|ops| - 1]);
    }
  }

  // ---- What decides how a command ends ----

  /** The new version was fetched and evaluated, and its units written and loaded. */
  predicate GotToStart(w: World) {
    w.fetched && w.hasOverlayNix && w.evaluated && w.unitsGenerated && w.reloaded
  }

  /** The new version started, and is healthy if it wants to be checked. */
  predicate CameUp(w: World) {
    w.started && (w.wantsHealth ==> w.healthy)
  }

  /** An activation ends permanent exactly if everything went well, health included; rolled
      back exactly if the services failed and there is a usable older version; and otherwise
      failed, with the versions it found. What it records says which. */
  lemma ActivationOutcome(d: Dir, path: string, w: World)
    ensures var r := AfterActivate(d, path, w);
      && (r.phase == Permanent <==>
            w.fetched && w.hasOverlayNix && w.evaluated && w.unitsGenerated && w.reloaded && w.started
            && (w.wantsHealth ==> w.healthy))
      && (r.phase == RolledBack <==> GotToStart(w) && !CameUp(w) && d.previous.Some? && w.previousEvaluated)
      && (r.phase != Permanent && r.phase != RolledBack ==> r.phase == Failed)
    ensures var r := AfterActivate(d, path, w);
      && (r.phase == Permanent ==>
            && r.current == Some(Version(path, w.recorded / 1_000_000_000)) && r.attempt.None?
            && r.previous == (if d.current.Some? then d.current else d.previous)
            && r.units == r.running == Some(path))
      && (r.phase == RolledBack ==> r.current == d.previous && r.previous.None?)
      && (r.phase == Failed ==> r.current == d.current && r.previous == d.previous)
    ensures var r := AfterActivate(d, path, w);
      r.phase != Permanent && path != "" ==>
        && r.attempt.Some? && r.attempt.value.storePath == path
        && r.attempt.value.verdict == (if r.phase == RolledBack then AttemptRolledBack else AttemptFailed)
    ensures !GotToStart(w) ==> AfterActivate(d, path, w).running == d.running
    ensures !w.fetched || !w.hasOverlayNix || !w.evaluated ==> AfterActivate(d, path, w).units == d.units
    ensures w.fetched && w.hasOverlayNix && w.evaluated && !GotToStart(w) ==> AfterActivate(d, path, w).units.None?
    ensures var r := AfterActivate(d, path, w);
      && (r.phase == Permanent ==>
            && r.rootCurrent == Some(path)
            && r.rootPrevious == if d.current.Some? && d.rootCurrent.Some? then d.rootCurrent else d.rootPrevious)
      && (r.phase == RolledBack ==> r.rootCurrent == PathOf(d.previous) && r.rootPrevious.None?)
      && (r.phase == Failed ==> r.rootCurrent == d.rootCurrent && r.rootPrevious == d.rootPrevious)
  {
  }

  /** A boot changes no version and no phase. An overlay without a committed version loses only
      its record; one with a version loses none, gets its root renewed exactly if its units
      are written again, and is started with whatever units are then there. */
  lemma BootOutcome(d: Dir, w: World)
    ensures var r := AfterBoot(d, w);
      r.phase == d.phase && r.current == d.current && r.previous == d.previous && r.rootPrevious == d.rootPrevious
    ensures d.current.None? ==> AfterBoot(d, w) == d.(attempt := None)
    ensures d.current.Some? ==>
      var r, written := AfterBoot(d, w), w.currentPathExists && w.evaluated && w.unitsGenerated;
      && r.attempt == d.attempt
      && r.rootCurrent == (if written then PathOf(d.current) else d.rootCurrent)
      && r.units == (if !w.currentPathExists || !w.evaluated then d.units
                     else if w.unitsGenerated && w.reloaded then PathOf(d.current) else None)
      && r.running == if d.running.Some? then d.running else if w.started then r.units else None
  {
  }

  /** An operator's rollback goes back exactly if there is a usable older version; otherwise
      versions and record stay, and services are stopped only if there was a version to go to. */
  lemma OperatorRollbackOutcome(d: Dir, w: World)
    ensures var r := AfterRollback(d, "", w);
      && (r.phase == RolledBack <==> d.previous.Some? && w.previousEvaluated)
      && (r.phase == RolledBack ==> r.current == d.previous && r.previous.None? && r.attempt.None?)
      && (r.phase != RolledBack ==>
            && r.phase == Failed && r.current == d.current && r.previous == d.previous && r.attempt == d.attempt
            && r.running == if d.previous.Some? then None else d.running)
  {
  }

  /** After a reboot the boot command brings a version up exactly if one is committed, its path
      is still there, and its units can be evaluated, written, loaded and started. */
  lemma RebootedRunsIff(d: Dir, w: World)
    ensures AfterBoot(AfterReboot(d), w).running ==
      if d.current.Some? && w.currentPathExists && w.evaluated && w.unitsGenerated && w.reloaded && w.started
      then PathOf(d.current) else None
  {
    BootOutcome(AfterReboot(d), w);
  }

  /** The operation activated `path`, and everything went well. */
  predicate ActivatedWell(d: Dir, op: Op, path: string) {
    match op
    case CheckOp(p, poll, w) => p == path && ShouldActivate(d, p, poll, w) && GotToStart(w) && CameUp(w)
    case ActivateOp(p, w) => p == path && GotToStart(w) && CameUp(w)
    case _ => false
  }

  lemma StepPermanent(d: Dir, op: Op, path: string)
    requires path in NowPermanent(Step(d, op))
    ensures ActivatedWell(d, op, path) || path in NowPermanent(d)
  {
    match op {
      case CheckOp(p, _, w) => ActivationOutcome(d, p, w);
      case ActivateOp(p, w) => ActivationOutcome(d, p, w);
      case RollbackOp(w) => OperatorRollbackOutcome(d, w);
      case BootOp(_) =>
      case RebootOp =>
    }
  }

  ghost predicate ActivatedWellIn(ops: seq<Op>, path: string) {
    exists i :: 0 <= i < |ops| && ActivatedWell(Run(FRESH, ops[..i]), ops[i], path)
  }

  /** Main result: no version ever becomes permanent, and so none ever becomes current or
      previous, without an activation of it whose services started and, if it wants health
      checks, passed them. */
  lemma {:induction false} PermanentCameUp(ops: seq<Op>, path: string)
    requires path in ReachedPermanent(FRESH, ops)
    ensures ActivatedWellIn(ops, path)
  {
    if ops != [] {
      var init, last := ops[..|ops| - 1], |ops| - 1;
      if path in ReachedPermanent(FRESH, init) {
        PermanentCameUp(init, path);
        var i :| 0 <= i < |init| && ActivatedWell(Run(FRESH, init[..i]), init[i], path);
        assert init[..i] == ops[..i] && init[i] == ops[i];
      } else {
        InReached(init, path);
        StepPermanent(Run(FRESH, init), ops[last], path);
        assert ActivatedWell(Run(FRESH, ops[..last]), ops[last], path);
      }
    }
  }

  lemma InReached(ops: seq<Op>, path: string)
    ensures path in NowPermanent(Run(FRESH, ops)) ==> path in ReachedPermanent(FRESH, ops)
  {
  }

  // ---- What one command undoes ----

  /** What a rollback does not look at: its units were generated, loaded and started. */
  predicate PreviousBroughtUp(w: World) {
    w.previousGenerated && w.previousReloaded && w.previousStarted
  }

  /** An operator's rollback undoes the last committed activation: the version that was
      current before is again, under its original record and GC root, and runs exactly if
      the steps whose results are ignored succeeded. */
  lemma RollbackUndoesActivation(d: Dir, reached: set<string>, path: string, w: World, w': World)
    requires WellKept(d, reached) && d.current.Some?
    requires FateOf(w) == Committed && w'.previousEvaluated
    ensures var r := AfterRollback(AfterActivate(d, path, w), "", w');
      && r.current == d.current && r.rootCurrent == d.rootCurrent
      && r.previous.None? && r.rootPrevious.None?
      && r.attempt.None? && r.phase == RolledBack
      && (r.running == PathOf(d.current) <==> PreviousBroughtUp(w'))
  {
  }

  /** The record alone: current.json has not been rotated when a lost activation rolls back. */
  lemma AutomaticRollbackKeepsRecordIff(d: Dir, path: string, w: World)
    requires FateOf(w) == Lost
    ensures AfterActivate(d, path, w).current == d.current <==>
            d.previous.None? || !w.previousEvaluated || d.previous == d.current
  {
  }

  /** A lost activation leaves the version that was current running, exactly if: without an
      older version, it was the current path itself that was started again; with one, the
      rollback went through and the older version has the same store path. Everything else
      loses what was running: without an older version the new units stay, and otherwise the
      rollback goes to the version before the running one. */
  lemma LostActivationRunsCurrentIff(d: Dir, path: string, w: World)
    requires FateOf(w) == Lost && d.current.Some?
    ensures AfterActivate(d, path, w).running == PathOf(d.current) <==>
      if d.previous.None? then w.started && PathOf(d.current) == Some(path)
      else w.previousEvaluated && PreviousBroughtUp(w) && PathOf(d.previous) == PathOf(d.current)
  {
  }

  /** Two committed versions and one lost activation: the older version comes back. */
  lemma AutomaticRollbackSkipsRunningVersion(a: string, b: string, c: string, good: World, bad: World)
    requires a != b && FateOf(good) == Committed && FateOf(bad) == Lost
    requires bad.previousEvaluated && PreviousBroughtUp(bad)
    ensures var d := Run(FRESH, [ActivateOp(a, good), ActivateOp(b, good)]);
      var r := Step(d, ActivateOp(c, bad));
      && PathOf(d.current) == d.running == Some(b)
      && PathOf(r.current) == r.running == Some(a)
  {
    RunTwo(FRESH, ActivateOp(a, good), ActivateOp(b, good));
  }

  lemma RunTwo(d: Dir, x: Op, y: Op)
    ensures Run(d, [x, y]) == Step(Step(d, x), y)
  {
    assert [x, y][..1] == [x] && [x][..0] == [];
    assert Run(d, [x]) == Step(Run(d, []), x);
  }

  /** A rollback spends the only older version: a second lost activation can only fail,
      leaving the versions as they are and what it started itself running. */
  lemma RollbackOnlyOnce(d: Dir, p: string, w: World, q: string, w': World)
    requires FateOf(w) == Lost && FateOf(w') == Lost && d.previous.Some? && w.previousEvaluated
    ensures var r := AfterActivate(AfterActivate(d, p, w), q, w');
      && r.phase == Failed && r.current == d.previous && r.previous.None?
      && r.running == if w'.started then Some(q) else None
  {
  }

  // ---- Is the current version the one that runs? ----

  predicate RunsCurrent(d: Dir) {
    d.running == PathOf(d.current)
  }

  /** The path an operation tries to activate, if it does. */
  function Activated(d: Dir, op: Op): Option<string> {
    match op
    case CheckOp(path, poll, w) => if ShouldActivate(d, path, poll, w) then Some(path) else None
    case ActivateOp(path, _) => Some(path)
    case _ => None
  }

  /** The operation neither stops nor starts a service. */
  predicate LeavesServices(d: Dir, op: Op) {
    match op
    case CheckOp(_, _, w) => Activated(d, op).None? || FateOf(w) == Broken
    case ActivateOp(_, w) => FateOf(w) == Broken
    case RollbackOp(_) => d.previous.None?
    case BootOp(_) => d.current.None? || d.running.Some?
    case RebootOp => d.running.None?
  }

  /** The rollback of an overlay with an older version brings that version up. */
  predicate RollsBack(d: Dir, w: World) {
    d.previous.Some? && w.previousEvaluated && PreviousBroughtUp(w)
  }

  predicate ActivationBringsUp(d: Dir, path: string, w: World) {
    match FateOf(w)
    case Broken => false
    case Committed => true
    case Lost => RollsBack(d, w) || (d.previous.None? && w.started && PathOf(d.current) == Some(path))
  }

  /** The units boot finds: those it has just written, or the ones that were there. */
  predicate BootBringsUp(d: Dir, w: World) {
    && d.current.Some? && d.running.None? && w.started
    && (if w.currentPathExists && w.evaluated then w.unitsGenerated && w.reloaded
        else d.units == PathOf(d.current))
  }

  /** The operation starts the version that is current when it ends. */
  predicate BringsUpCurrent(d: Dir, op: Op) {
    match op
    case CheckOp(path, _, w) => Activated(d, op).Some? && ActivationBringsUp(d, path, w)
    case ActivateOp(path, w) => ActivationBringsUp(d, path, w)
    case RollbackOp(w) => RollsBack(d, w)
    case BootOp(w) => BootBringsUp(d, w)
    case RebootOp => false
  }

  lemma StepRunsCurrentIff(d: Dir, op: Op)
    ensures d.current.Some? ==>
      (RunsCurrent(Step(d, op)) <==> BringsUpCurrent(d, op) || (LeavesServices(d, op) && RunsCurrent(d)))
    ensures d.current.None? && Step(d, op).current.Some? && d.previous.None? ==>
      BringsUpCurrent(d, op) && RunsCurrent(Step(d, op))
  {
  }

  /** Of the operations that touched the services, the last one brought up the current version. */
  predicate BroughtUp(ops: seq<Op>) {
    ops != [] &&
    var d, op := Run(FRESH, ops[..|ops| - 1]), ops[|ops| - 1];
    BringsUpCurrent(d, op) || (LeavesServices(d, op) && BroughtUp(ops[..|ops| - 1]))
  }

  /** Main result over every run: once a version is committed, it is the one that runs exactly
      if the last operation that touched the services brought up the current version. */
  lemma {:induction false} RunsCurrentIff(ops: seq<Op>)
    requires Run(FRESH, ops).current.Some?
    ensures RunsCurrent(Run(FRESH, ops)) <==> BroughtUp(ops)
  {
    if ops != [] {
      var init := ops[..|ops| - 1];
      var d := Run(FRESH, init);
      StepRunsCurrentIff(d, ops[|ops| - 1]);
      if d.current.Some? {
        RunsCurrentIff(init);
      } else {
        RunWellKept(init);
      }
    }
  }

  /** A check that answers "up to date" meets the advertised version running under the same
      condition; it does not look. */
  lemma UpToDateRunsIff(ops: seq<Op>, path: string, w: World)
    requires UpToDate(Run(FRESH, ops), path, w)
    ensures Run(FRESH, ops).running == Some(path) <==> BroughtUp(ops)
  {
    RunsCurrentIff(ops);
  }

  /** A run in which it does not: the first update is lost to its health checks, and the
      registry goes back to the version before. */
  lemma UpToDateWithOtherUnits(a: string, b: string, good: World, bad: World, poll: Backoff.PollInterval, w: World)
    requires a != b && FateOf(good) == Committed && FateOf(bad) == Lost && bad.started
    requires w.currentPathExists
    ensures var d := Run(FRESH, [ActivateOp(a, good), ActivateOp(b, bad)]);
      && AfterCheck(d, a, poll, w) == d && UpToDate(d, a, w)
      && d.running == d.units == Some(b)
  {
    RunTwo(FRESH, ActivateOp(a, good), ActivateOp(b, bad));
  }

  // ---- Retry spacing ----

  /** The timestamps of the failures the checks of this run recorded. */
  function FailureTimes(d: Dir, ops: seq<Op>): (ts: seq<int>) {
    if ops == [] then []
    else
      var d', op := Run(d, ops[..|ops| - 1]), ops[|ops| - 1];
      FailureTimes(d, ops[..|ops| - 1]) +
      if op.CheckOp? && ShouldActivate(d', op.path, op.poll, op.w) then [Unix(op.w.recorded)] else []
  }

  /** Checks that keep meeting one advertised path whose activations all fail, between
      boots of an overlay that has a committed version. The clock may be set between
      commands; within one it does not run backwards. */
  ghost predicate KeepsFailing(d: Dir, path: string, poll: Backoff.PollInterval, ops: seq<Op>) {
    forall i :: 0 <= i < |ops| ==> KeepsFailingOp(d, path, poll, ops[i])
  }

  predicate KeepsFailingOp(d: Dir, path: string, poll: Backoff.PollInterval, op: Op) {
    match op
    case CheckOp(p, q, w) =>
      && p == path && q == poll && FateOf(w) != Committed
      && 0 <= w.now <= w.recorded <= MAX_INT64 / 2
    case BootOp(_) => d.current.Some?
    case RebootOp => true
    case _ => false
  }

  /** Sum of the delays after the first, second, ... `n`-th failure, in whole seconds. */
  function TotalDelay(base: int, n: nat): int {
    if n == 0 then 0 else TotalDelay(base, n - 1) + Backoff.Delay(base, n) / SECOND
  }

  /** Main result: the counter equals the number of recorded failures of the path, the
      record carries the last of their times, and the k-th and (k+1)-st are at least the
      k-th delay apart in the record's whole seconds. */
  lemma {:induction false} RetrySpacing(d: Dir, path: string, poll: Backoff.PollInterval, ops: seq<Op>)
    requires path != "" && AttemptCount(d, path) == 0 && !(d.attempt.Some? && d.attempt.value.storePath == path)
    requires KeepsFailing(d, path, poll, ops)
    ensures var r, ts := Run(d, ops), FailureTimes(d, ops);
      && AttemptCount(r, path) == |ts|
      && (ts != [] ==> r.attempt.Some? && r.attempt.value.storePath == path && r.attempt.value.at == ts[|ts| - 1]
                       && 0 <= ts[|ts| - 1] <= MAX_INT64 / 2 / SECOND)
      && (ts == [] ==> r.attempt == d.attempt)
    ensures forall k :: 0 < k < |FailureTimes(d, ops)| ==>
      SpacedBy(FailureTimes(d, ops), k, Backoff.Delay(Backoff.Base(poll), k))
  {
    if ops != [] {
      var init, op := ops[..|ops| - 1], ops[|ops| - 1];
      assert KeepsFailing(d, path, poll, init);
      RetrySpacing(d, path, poll, init);
      assert KeepsFailingOp(d, path, poll, op);
      var r, ts := Run(d, init), FailureTimes(d, init);
      if d.current.Some? {
        CommittedForGood(d, init);
      }
      if Activated(r, op).Some? {
        FailureRecorded(r, path, op.w);
        assert FailureTimes(d, ops) == ts + [Unix(op.w.recorded)];
        if ts != [] {
          WaitedOut(r.attempt.value, poll, op.w);
        }
        SpacedExtend(ts, Unix(op.w.recorded), Backoff.Base(poll));
      } else {
        assert FailureTimes(d, ops) == ts;
        AttemptUntouched(r, path, poll, op);
      }
    }
  }

  lemma SpacedExtend(ts: seq<int>, t: int, base: int)
    requires forall k :: 0 < k < |ts| ==> SpacedBy(ts, k, Backoff.Delay(base, k))
    requires ts != [] ==> t - ts[|ts| - 1] >= Backoff.Delay(base, |ts|) / SECOND
    ensures forall k :: 0 < k < |ts + [t]| ==> SpacedBy(ts + [t], k, Backoff.Delay(base, k))
  {
    forall k | 0 < k < |ts + [t]| ensures SpacedBy(ts + [t], k, Backoff.Delay(base, k)) {
      assert k < |ts| ==> SpacedBy(ts, k, Backoff.Delay(base, k));
    }
  }

  lemma AttemptUntouched(d: Dir, path: string, poll: Backoff.PollInterval, op: Op)
    requires KeepsFailingOp(d, path, poll, op) && Activated(d, op).None?
    ensures Step(d, op).attempt == d.attempt
  {
  }

  predicate SpacedBy(ts: seq<int>, k: nat, delay: int)
    requires 0 < k < |ts|
  {
    ts[k] - ts[k - 1] >= delay / SECOND
  }

  /** With the clock at or past the record, a check activates the advertised path exactly if
      it is not already running and not within the delay of its last failure. */
  lemma ActivatesIff(d: Dir, path: string, poll: Backoff.PollInterval, w: World)
    requires d.attempt.Some? ==> d.attempt.value.at * SECOND <= w.now
    ensures ShouldActivate(d, path, poll, w) <==>
      && !(PathOf(d.current) == Some(path) && w.currentPathExists)
      && (d.attempt.Some? && d.attempt.value.storePath == path ==>
            w.now >= d.attempt.value.at * SECOND + Backoff.Delay(Backoff.Base(poll), d.attempt.value.attempts))
  {
    if d.attempt.Some? {
      Backoff.RemainingExact(poll, d.attempt.value.attempts, d.attempt.value.at, w.now);
    }
  }

  /** After a boot an overlay without a committed version is tried at the first check, however
      long its backoff was; one with a committed version keeps its backoff. */
  lemma BootClearsStaleBackoffOnly(d: Dir, boot: World, path: string, poll: Backoff.PollInterval, w: World)
    ensures d.current.None? ==> ShouldActivate(AfterBoot(d, boot), path, poll, w)
    ensures d.current.Some? ==> (ShouldActivate(AfterBoot(d, boot), path, poll, w) <==> ShouldActivate(d, path, poll, w))
  {
  }

  /** Every branch on which an activation does not commit records the path. */
  lemma FailureRecorded(d: Dir, path: string, w: World)
    requires path != "" && FateOf(w) != Committed
    ensures var r := AfterActivate(d, path, w);
      && r.attempt.Some? && r.attempt.value.storePath == path
      && r.attempt.value.at == Unix(w.recorded)
      && r.attempt.value.attempts == AttemptCount(d, path) + 1
  {
  }

  lemma WaitedOut(a: Attempt, poll: Backoff.PollInterval, w: World)
    requires Backoff.Remaining(poll, a.attempts, a.at, w.now) <= 0
    requires 0 <= w.now <= w.recorded && 0 <= a.at * SECOND <= MAX_INT64 / 2
    ensures Unix(w.recorded) - a.at >= Backoff.Delay(Backoff.Base(poll), a.attempts) / SECOND
  {
    var delay := Backoff.Delay(Backoff.Base(poll), a.attempts);
    Backoff.DelayMonotone(Backoff.Base(poll), a.attempts, a.attempts);
    Backoff.SkippedUnlessClockWraps(poll, a.attempts, a.at, w.now);
    assert w.now - a.at * SECOND >= delay;
  }

  /** n failing automatic activations of one path span at least the first n - 1 delays. */
  lemma {:induction false} RetrySpan(d: Dir, path: string, poll: Backoff.PollInterval, ops: seq<Op>)
    requires path != "" && !(d.attempt.Some? && d.attempt.value.storePath == path)
    requires KeepsFailing(d, path, poll, ops)
    ensures var ts := FailureTimes(d, ops);
      ts != [] ==> ts[|ts| - 1] - ts[0] >= TotalDelay(Backoff.Base(poll), |ts| - 1)
  {
    RetrySpacing(d, path, poll, ops);
    SpanFromSpacing(FailureTimes(d, ops), Backoff.Base(poll));
  }

  lemma {:induction false} SpanFromSpacing(ts: seq<int>, base: int)
    requires forall k :: 0 < k < |ts| ==> SpacedBy(ts, k, Backoff.Delay(base, k))
    ensures ts != [] ==> ts[|ts| - 1] - ts[0] >= TotalDelay(base, |ts| - 1)
  {
    if |ts| > 1 {
      var init := ts[..|ts| - 1];
      forall k | 0 < k < |init| ensures SpacedBy(init, k, Backoff.Delay(base, k)) {
        assert SpacedBy(ts, k, Backoff.Delay(base, k));
      }
      SpanFromSpacing(init, base);
      assert SpacedBy(ts, |ts| - 1, Backoff.Delay(base, |ts| - 1));
    }
  }

  /** An empty advertised path is the one whose loss leaves no record, so nothing would
      space its retries: a path is recorded by a lost activation exactly if it is non-empty. */
  lemma LossRecordedIffNamed(d: Dir, path: string, w: World)
    requires FateOf(w) == Lost && d.attempt.None?
    ensures AfterActivate(d, path, w).attempt.Some? <==> path != ""
  {
  }
}
