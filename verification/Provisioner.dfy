// The provisioning broker (pkgs/provisioner/main.go): one lease, claimed at most once,
// then prepared asynchronously. Each critical section of the server's mutex is one step;
// saving the state file may fail, and the process may restart from it at any time.
module Provisioner {
  import opened Numbers
  import opened Wrappers

  const ARM_WINDOW: int := 5 * MINUTE
  const CLAIM_WINDOW: int := 120 * MINUTE

  datatype Target = Target(host: string, profile: string)

  /** `id` is the model's name for the arm request that created the lease. */
  datatype Lease = Lease(
    id: nat,
    host: string,
    profile: string,
    armedBy: string,
    armedAt: int,
    expiresAt: int,
    claimedAt: Option<int>,
    claimToken: string,
    claimExpiresAt: Option<int>,
    dmiUuid: string,
    preparingAt: Option<int>,
    prepareError: string,
    completedAt: Option<int>)

  /** A token drawn for, or answered to a claimant of, a lease. */
  datatype Grant = Grant(lease: nat, token: string)

  /** Memory, state file, and what the model remembers: the number of arm requests, the
      preparations in flight (by the token they were started with), every token drawn and
      every token answered. */
  datatype Broker = Broker(
    lease: Option<Lease>,
    saved: Option<Lease>,
    armed: nat,
    inFlight: multiset<string>,
    drawn: seq<Grant>,
    answers: seq<Grant>)

  const EMPTY := Broker(None, None, 0, multiset{}, [], [])

  datatype Reply =
    | Unauthorized | NotFound | BadRequest | Conflict | Forbidden | ServerError | NotReady
    | Redirect | Accepted | Served
    | Claimed(host: string, profile: string, token: string, expiresAt: int)

  /** One request, goroutine completion or restart, with everything the outside decides. */
  datatype Event =
    | Arm(target: Target, user: string, now: int, saveOk: bool)
    | Disarm(host: string, saveOk: bool)
    | Activate(admittedAt: int, claimedAt: int, entropy: Option<string>, dmiUuid: string, saveOk: bool)
    | Complete(token: string, now: int, dirOk: bool, recordOk: bool, saveOk: bool)
    | PrepareDone(token: string, failure: Option<string>, now: int, saveOk: bool)
    | Restart

  function Persist(b: Broker, saveOk: bool): Broker {
    if saveOk then b.(saved := b.lease) else b
  }

  predicate Claimable(b: Broker, admittedAt: int) {
    b.lease.Some? && admittedAt < b.lease.value.expiresAt && b.lease.value.claimedAt.None?
  }

  predicate HoldsClaim(l: Option<Lease>, token: string, now: int) {
    && l.Some? && l.value.claimToken == token && l.value.claimedAt.Some?
    && l.value.claimExpiresAt.Some? && now < l.value.claimExpiresAt.value
  }

  predicate Completable(b: Broker, token: string, now: int) {
    HoldsClaim(b.lease, token, now) && b.lease.value.completedAt.None? && b.lease.value.preparingAt.None?
  }

  /** The broker's state after one event. */
  function Next(b: Broker, e: Event): Broker {
    match e
    case Arm(target, user, now, saveOk) =>
      Persist(b.(lease := Some(Lease(b.armed, target.host, target.profile, user, now, now + ARM_WINDOW,
                                     None, "", None, "", None, "", None)),
                 armed := b.armed + 1), saveOk)
    case Disarm(host, saveOk) =>
      if b.lease.Some? && b.lease.value.host == host then Persist(b.(lease := None), saveOk) else b
    case Activate(admittedAt, claimedAt, entropy, dmiUuid, saveOk) =>
      if !Claimable(b, admittedAt) || entropy.None? then b
      else
        var grant := Grant(b.lease.value.id, entropy.value);
        var claimed := b.lease.value.(claimedAt := Some(claimedAt), claimToken := entropy.value,
                                      claimExpiresAt := Some(claimedAt + CLAIM_WINDOW), dmiUuid := dmiUuid);
        Persist(b.(lease := Some(claimed), drawn := b.drawn + [grant],
                   answers := if saveOk then b.answers + [grant] else b.answers), saveOk)
    case Complete(token, now, dirOk, recordOk, saveOk) =>
      if !Completable(b, token, now) || !dirOk || !recordOk then b
      else if !saveOk then b.(lease := Some(b.lease.value.(prepareError := "")))
      else Persist(b.(lease := Some(b.lease.value.(preparingAt := Some(now), prepareError := "")),
                      inFlight := b.inFlight + multiset{token}), true)
    case PrepareDone(token, failure, now, saveOk) =>
      if token !in b.inFlight then b
      else
        var b1 := b.(inFlight := b.inFlight - multiset{token});
        if b.lease.None? || b.lease.value.claimToken != token then b1
        else
          var l := b.lease.value.(preparingAt := None);
          Persist(b1.(lease := Some(if failure.Some? then l.(prepareError := failure.value)
                                    else l.(completedAt := Some(now), prepareError := ""))), saveOk)
    case Restart =>
      b.(lease := b.saved, inFlight := multiset{})
  }

  // ---- The server's request handlers ----

  class Server {
    const targets: seq<Target>
    var lease: Option<Lease>
    var saved: Option<Lease>
    var armed: nat  // names the leases; not part of the source's state
    ghost var inFlight: multiset<string>
    ghost var drawn: seq<Grant>
    ghost var answers: seq<Grant>

    ghost function Contents(): Broker
      reads this
    {
      Broker(lease, saved, armed, inFlight, drawn, answers)
    }

    constructor (targets: seq<Target>, file: Option<Lease>)
      ensures this.targets == targets
      ensures Contents() == EMPTY.(lease := file, saved := file, armed := if file.Some? then file.value.id + 1 else 0)
    {
      this.targets := targets;
      lease, saved := file, file;
      armed := if file.Some? then file.value.id + 1 else 0;
      inFlight, drawn, answers := multiset{}, [], [];
    }

    method Save(saveOk: bool)
      modifies this`saved
      ensures saved == if saveOk then lease else old(saved)
    {
      if saveOk {
        saved := lease;
      }
    }

    method FindTarget(host: string) returns (i: nat)
      ensures i <= |targets| && forall j :: 0 <= j < i ==> targets[j].host != host
      ensures i < |targets| ==> targets[i].host == host
    {
      i := 0;
      while i < |targets| && targets[i].host != host
        invariant 0 <= i <= |targets|
        invariant forall j :: 0 <= j < i ==> targets[j].host != host
      {
        i := i + 1;
      }
    }

    method Rearm(target: Target, user: string, now: int, saveOk: bool)
      modifies this`lease, this`armed, this`saved
      ensures Contents() == Next(old(Contents()), Arm(target, user, now, saveOk))
    {
      lease := Some(Lease(armed, target.host, target.profile, user, now, now + ARM_WINDOW,
                          None, "", None, "", None, "", None));
      armed := armed + 1;
      Save(saveOk);
    }

    method ArmLease(allowed: bool, host: string, user: string, now: int, saveOk: bool) returns (reply: Reply)
      modifies this
      ensures reply == if !allowed then Unauthorized else if forall t :: t in targets ==> t.host != host then NotFound
                       else if saveOk then Redirect else ServerError
      ensures reply in {Unauthorized, NotFound} ==> Contents() == old(Contents())
      ensures reply in {Redirect, ServerError} ==>
        exists i :: 0 <= i < |targets| && targets[i].host == host && (forall j :: 0 <= j < i ==> targets[j].host != host)
                    && Contents() == Next(old(Contents()), Arm(targets[i], user, now, saveOk))
    {
      if !allowed {
        return Unauthorized;
      }
      var i := FindTarget(host);
      if i == |targets| {
        return NotFound;
      }
      Rearm(targets[i], user, now, saveOk);
      if !saveOk {
        return ServerError;
      }
      return Redirect;
    }

    method DisarmLease(allowed: bool, host: string, saveOk: bool) returns (reply: Reply)
      modifies this
      ensures !allowed ==> reply == Unauthorized && Contents() == old(Contents())
      ensures allowed ==> reply == Redirect && Contents() == Next(old(Contents()), Disarm(host, saveOk))
    {
      if !allowed {
        return Unauthorized;
      }
      if lease.Some? && lease.value.host == host {
        lease := None;
        Save(saveOk);
      }
      return Redirect;
    }

    method Claim(token: string, claimedAt: int, claimExpires: int, dmiUuid: string)
      requires lease.Some?
      modifies this`lease, this`drawn
      ensures lease == Some(old(lease).value.(claimedAt := Some(claimedAt), claimToken := token,
                                              claimExpiresAt := Some(claimExpires), dmiUuid := dmiUuid))
      ensures drawn == old(drawn) + [Grant(old(lease).value.id, token)]
    {
      lease := Some(lease.value.(claimedAt := Some(claimedAt)));
      lease := Some(lease.value.(claimToken := token));
      lease := Some(lease.value.(claimExpiresAt := Some(claimExpires)));
      lease := Some(lease.value.(dmiUuid := dmiUuid));
      drawn := drawn + [Grant(lease.value.id, token)];
    }

    method ActivateLease(allowed: bool, admittedAt: int, claimedAt: int, entropy: Option<string>, dmiUuid: string,
                         saveOk: bool) returns (reply: Reply)
      modifies this
      ensures !allowed ==> reply == Unauthorized && Contents() == old(Contents())
      ensures allowed ==> Contents() == Next(old(Contents()), Activate(admittedAt, claimedAt, entropy, dmiUuid, saveOk))
      ensures allowed ==>
        reply == if !Claimable(old(Contents()), admittedAt) then Conflict
                 else if entropy.None? || !saveOk then ServerError
                 else Claimed(old(lease).value.host, old(lease).value.profile, entropy.value, claimedAt + CLAIM_WINDOW)
      ensures answers == old(answers) + if reply.Claimed? then [Grant(old(lease).value.id, reply.token)] else []
    {
      if !allowed {
        return Unauthorized;
      }
      if lease.None? || !(admittedAt < lease.value.expiresAt) {
        return Conflict;
      }
      if lease.value.claimedAt.Some? {
        return Conflict;
      }
      if entropy.None? {
        return ServerError;
      }
      var token := entropy.value;
      var claimExpires := claimedAt + CLAIM_WINDOW;
      Claim(token, claimedAt, claimExpires, dmiUuid);
      Save(saveOk);
      if !saveOk {
        return ServerError;
      }
      answers := answers + [Grant(lease.value.id, token)];
      return Claimed(lease.value.host, lease.value.profile, token, claimExpires);
    }

    /** Reads only: the archive is served to the holder of an unexpired claim. */
    method Bootstrap(allowed: bool, token: string, now: int, archiveExists: bool) returns (reply: Reply)
      ensures reply == if !allowed then Unauthorized else if !HoldsClaim(lease, token, now) then Forbidden
                       else if !archiveExists then NotReady else Served
    {
      if !allowed {
        return Unauthorized;
      }
      var valid := lease.Some? && lease.value.claimToken == token && lease.value.claimedAt.Some?
                   && lease.value.claimExpiresAt.Some? && now < lease.value.claimExpiresAt.value;
      if !valid {
        return Forbidden;
      }
      if !archiveExists {
        return NotReady;
      }
      return Served;
    }

    method CompleteLease(allowed: bool, wellFormed: bool, token: string, now: int, dirOk: bool, recordOk: bool,
                         saveOk: bool) returns (reply: Reply)
      modifies this
      ensures !allowed || !wellFormed ==>
        reply == (if !allowed then Unauthorized else BadRequest) && Contents() == old(Contents())
      ensures allowed && wellFormed ==> Contents() == Next(old(Contents()), Complete(token, now, dirOk, recordOk, saveOk))
      ensures allowed && wellFormed ==>
        reply == if !Completable(old(Contents()), token, now) then Forbidden
                 else if !dirOk || !recordOk || !saveOk then ServerError else Accepted
      ensures reply == Accepted <==> inFlight[token] == old(inFlight)[token] + 1
    {
      if !allowed {
        return Unauthorized;
      }
      if !wellFormed {
        return BadRequest;
      }
      if lease.None? || lease.value.claimToken != token || lease.value.claimedAt.None?
         || lease.value.claimExpiresAt.None? || !(now < lease.value.claimExpiresAt.value)
         || lease.value.completedAt.Some? || lease.value.preparingAt.Some?
      {
        return Forbidden;
      }
      if !dirOk {
        return ServerError;
      }
      if !recordOk {
        return ServerError;
      }
      lease := Some(lease.value.(preparingAt := Some(now)));
      lease := Some(lease.value.(prepareError := ""));
      Save(saveOk);
      if !saveOk {
        lease := Some(lease.value.(preparingAt := None));
        return ServerError;
      }
      inFlight := inFlight + multiset{token};
      return Accepted;
    }

    /** The critical section at the end of a preparation started with `token`. */
    method PrepareFinished(token: string, failure: Option<string>, now: int, saveOk: bool)
      requires token in inFlight
      modifies this
      ensures Contents() == Next(old(Contents()), PrepareDone(token, failure, now, saveOk))
    {
      inFlight := inFlight - multiset{token};
      if lease.None? || lease.value.claimToken != token {
        return;
      }
      lease := Some(lease.value.(preparingAt := None));
      if failure.Some? {
        lease := Some(lease.value.(prepareError := failure.value));
      } else {
        lease := Some(lease.value.(completedAt := Some(now)));
        lease := Some(lease.value.(prepareError := ""));
      }
      Save(saveOk);
    }
  }

  // ---- Runs ----

  function Run(b: Broker, es: seq<Event>): Broker {
    if es == [] then b else Next(Run(b, es[..|es| - 1]), es[|es| - 1])
  }

  /** A copy of a lease a later step can still act on: if it was answered, it carries the
      answered claim. */
  ghost predicate CarriesAnswer(b: Broker, l: Option<Lease>) {
    l.Some? ==>
      && l.value.id < b.armed
      && forall i :: 0 <= i < |b.answers| && b.answers[i].lease == l.value.id ==>
           l.value.claimedAt.Some? && l.value.claimToken == b.answers[i].token
  }

  ghost predicate AnsweredOnce(answers: seq<Grant>, armed: nat) {
    && (forall i :: 0 <= i < |answers| ==> answers[i].lease < armed)
    && (forall i, j :: 0 <= i < j < |answers| ==> answers[i].lease != answers[j].lease)
  }

  ghost predicate SingleClaims(b: Broker) {
    CarriesAnswer(b, b.lease) && CarriesAnswer(b, b.saved) && AnsweredOnce(b.answers, b.armed)
  }

  lemma NextSingleClaims(b: Broker, e: Event)
    requires SingleClaims(b)
    ensures SingleClaims(Next(b, e))
  {
    match e {
      case Arm(_, _, _, _) => ArmSingleClaims(b, e);
      case Activate(_, _, _, _, _) => ActivateSingleClaims(b, e);
      case _ =>
    }
  }

  lemma ArmSingleClaims(b: Broker, e: Event)
    requires SingleClaims(b) && e.Arm?
    ensures SingleClaims(Next(b, e))
  {
    assert forall i :: 0 <= i < |b.answers| ==> b.answers[i].lease != b.armed;
  }

  lemma ActivateSingleClaims(b: Broker, e: Event)
    requires SingleClaims(b) && e.Activate?
    ensures SingleClaims(Next(b, e))
  {
    if Claimable(b, e.admittedAt) && e.entropy.Some? {
      assert forall i :: 0 <= i < |b.answers| ==> b.answers[i].lease != b.lease.value.id;
    }
  }

  /** Main result: over every interleaving of requests, failed saves and restarts, each
      armed lease has a claim token answered to at most one caller. */
  lemma {:induction false} AtMostOneClaimant(es: seq<Event>)
    ensures SingleClaims(Run(EMPTY, es))
    ensures var answers := Run(EMPTY, es).answers;
      forall i, j :: 0 <= i < |answers| && 0 <= j < |answers| && answers[i].lease == answers[j].lease ==> i == j
  {
    if es != [] {
      AtMostOneClaimant(es[..|es| - 1]);
      NextSingleClaims(Run(EMPTY, es[..|es| - 1]), es[|es| - 1]);
    }
  }

  /** Why: the answer leaves only after the claim is in the state file, and it is admitted
      only before the lease expires. */
  lemma AnsweredOnlyWhenDurable(b: Broker, e: Event)
    requires Next(b, e).answers != b.answers
    ensures var r := Next(b, e);
      && e.Activate? && b.lease.Some? && e.admittedAt < b.lease.value.expiresAt
      && r.saved.Some? && r.saved == r.lease
      && r.answers == b.answers + [Grant(r.saved.value.id, r.saved.value.claimToken)]
      && r.saved.value.id == b.lease.value.id
      && r.saved.value.claimExpiresAt == Some(e.claimedAt + CLAIM_WINDOW)
  {
  }

  /** An armed lease can be claimed for five minutes; the claim then holds for two hours from
      its own time, whatever is left of the arm window. */
  lemma ClaimWindows(b: Broker, target: Target, user: string, now: int, saveOk: bool, e: Event, t: int)
    requires e.Activate? && e.entropy.Some?
    ensures var armed := Next(b, Arm(target, user, now, saveOk));
      && (Claimable(armed, e.admittedAt) <==> e.admittedAt < now + 5 * MINUTE)
      && (HoldsClaim(Next(armed, e).lease, e.entropy.value, t) <==>
            e.admittedAt < now + 5 * MINUTE && t < e.claimedAt + 2 * 60 * MINUTE)
      && !Claimable(Next(armed, e), t) == (e.admittedAt < now + 5 * MINUTE || t >= now + 5 * MINUTE)
  {
  }

  // ---- One process run with fresh tokens ----

  ghost predicate TokenDrawn(b: Broker, token: string) {
    exists i :: 0 <= i < |b.drawn| && b.drawn[i].token == token
  }

  /** Tokens drawn by this step have never been drawn before and are not empty. */
  ghost predicate FreshToken(b: Broker, e: Event) {
    e.Activate? && e.entropy.Some? ==> e.entropy.value != "" && !TokenDrawn(b, e.entropy.value)
  }

  ghost predicate FreshRun(b: Broker, es: seq<Event>) {
    forall k :: 0 <= k < |es| ==> FreshToken(Run(b, es[..k]), es[k])
  }

  lemma FreshPrefix(b: Broker, es: seq<Event>)
    requires FreshRun(b, es) && es != []
    ensures FreshRun(b, es[..|es| - 1])
    ensures FreshToken(Run(b, es[..|es| - 1]), es[|es| - 1])
  {
    var init := es[..|es| - 1];
    forall k | 0 <= k < |init| ensures FreshToken(Run(b, init[..k]), init[k]) {
      assert init[..k] == es[..k];
    }
  }

  /** A claimed copy carries a token drawn for its own lease; an unclaimed one carries none. */
  ghost predicate OwnToken(b: Broker, l: Option<Lease>) {
    l.Some? ==>
      if l.value.claimedAt.Some? then Grant(l.value.id, l.value.claimToken) in b.drawn
      else l.value.claimToken == "" && l.value.preparingAt.None? && l.value.completedAt.None?
  }

  ghost predicate TokensDistinct(drawn: seq<Grant>) {
    && (forall i, j :: 0 <= i < j < |drawn| ==> drawn[i].token != drawn[j].token)
    && (forall i :: 0 <= i < |drawn| ==> drawn[i].token != "")
  }

  ghost predicate TokensIdentify(b: Broker) {
    && OwnToken(b, b.lease) && OwnToken(b, b.saved)
    && TokensDistinct(b.drawn)
    && (forall g :: g in b.answers ==> g in b.drawn)
    && (forall t :: t in b.inFlight ==> TokenDrawn(b, t))
  }

  lemma NextTokensIdentify(b: Broker, e: Event)
    requires TokensIdentify(b) && FreshToken(b, e)
    ensures TokensIdentify(Next(b, e))
  {
    match e {
      case Activate(_, _, _, _, _) => ActivateTokensIdentify(b, e);
      case Complete(_, _, _, _, _) => CompleteTokensIdentify(b, e);
      case PrepareDone(_, _, _, _) => PrepareDoneTokensIdentify(b, e);
      case Arm(_, _, _, _) => OperatorTokensIdentify(b, e);
      case Disarm(_, _) => OperatorTokensIdentify(b, e);
      case Restart =>
    }
  }

  lemma PrepareDoneTokensIdentify(b: Broker, e: Event)
    requires TokensIdentify(b) && e.PrepareDone?
    ensures TokensIdentify(Next(b, e))
  {
    var r := Next(b, e);
    assert r.drawn == b.drawn && r.answers == b.answers;
    forall t | t in r.inFlight ensures TokenDrawn(r, t) {
      assert t in b.inFlight;
      SameDrawn(b, r, t);
    }
  }

  lemma SameDrawn(b: Broker, r: Broker, t: string)
    requires r.drawn == b.drawn && TokenDrawn(b, t)
    ensures TokenDrawn(r, t)
  {
    var i :| 0 <= i < |b.drawn| && b.drawn[i].token == t;
    assert r.drawn[i].token == t;
  }

  lemma OperatorTokensIdentify(b: Broker, e: Event)
    requires TokensIdentify(b) && (e.Arm? || e.Disarm?)
    ensures TokensIdentify(Next(b, e))
  {
    var r := Next(b, e);
    assert r.drawn == b.drawn && r.inFlight == b.inFlight && r.answers == b.answers;
  }

  lemma CompleteTokensIdentify(b: Broker, e: Event)
    requires TokensIdentify(b) && e.Complete?
    ensures TokensIdentify(Next(b, e))
  {
    if b.lease.Some? {
      DrawnToken(b, Grant(b.lease.value.id, b.lease.value.claimToken));
    }
  }

  lemma DrawnToken(b: Broker, g: Grant)
    ensures g in b.drawn ==> TokenDrawn(b, g.token)
  {
    if g in b.drawn {
      var i :| 0 <= i < |b.drawn| && b.drawn[i] == g;
      assert b.drawn[i].token == g.token;
    }
  }

  lemma ActivateTokensIdentify(b: Broker, e: Event)
    requires TokensIdentify(b) && FreshToken(b, e) && e.Activate?
    ensures TokensIdentify(Next(b, e))
  {
    if Claimable(b, e.admittedAt) && e.entropy.Some? {
      var r := Next(b, e);
      forall t | t in r.inFlight ensures TokenDrawn(r, t) {
        var i :| 0 <= i < |b.drawn| && b.drawn[i].token == t;
        assert r.drawn[i].token == t;
      }
      assert forall i :: 0 <= i < |b.drawn| ==> b.drawn[i].token != e.entropy.value;
    }
  }

  lemma {:induction false} RunTokensIdentify(b: Broker, es: seq<Event>)
    requires TokensIdentify(b) && FreshRun(b, es)
    ensures TokensIdentify(Run(b, es))
  {
    if es != [] {
      FreshPrefix(b, es);
      RunTokensIdentify(b, es[..|es| - 1]);
      NextTokensIdentify(Run(b, es[..|es| - 1]), es[|es| - 1]);
    }
  }

  lemma GrantsWithOneToken(b: Broker, g: Grant, h: Grant)
    requires TokensDistinct(b.drawn) && g in b.drawn && h in b.drawn && g.token == h.token
    ensures g == h
  {
    var i :| 0 <= i < |b.drawn| && b.drawn[i] == g;
    var j :| 0 <= j < |b.drawn| && b.drawn[j] == h;
  }

  lemma OtherTokenIsInert(b: Broker, g: Grant, e: Event)
    requires TokensIdentify(b) && g in b.drawn
    requires b.lease.None? || b.lease.value.id != g.lease
    requires (e.Complete? || e.PrepareDone?) && e.token == g.token
    ensures var r := Next(b, e); r.lease == b.lease && r.saved == b.saved && r.answers == b.answers
  {
    if b.lease.Some? {
      var l := b.lease.value;
      if l.claimedAt.Some? && l.claimToken == g.token {
        GrantsWithOneToken(b, g, Grant(l.id, l.claimToken));
      }
    }
  }

  /** Main result: once a lease has been replaced or disarmed, the token answered for it can
      neither be completed nor, when its preparation finishes, change the lease or the file. */
  lemma ReplacedTokenIsInert(es: seq<Event>, g: Grant, e: Event)
    requires FreshRun(EMPTY, es)
    requires g in Run(EMPTY, es).answers
    requires var b := Run(EMPTY, es); b.lease.None? || b.lease.value.id != g.lease
    requires (e.Complete? || e.PrepareDone?) && e.token == g.token
    ensures var b, r := Run(EMPTY, es), Next(Run(EMPTY, es), e);
      r.lease == b.lease && r.saved == b.saved && r.answers == b.answers
  {
    RunTokensIdentify(EMPTY, es);
    OtherTokenIsInert(Run(EMPTY, es), g, e);
  }

  /** The current lease has exactly one preparation in flight if it is marked as preparing,
      and none otherwise; a completed lease is not preparing. */
  ghost predicate PrepareTracked(b: Broker) {
    b.lease.Some? ==>
      && b.inFlight[b.lease.value.claimToken] == (if b.lease.value.preparingAt.Some? then 1 else 0)
      && !(b.lease.value.completedAt.Some? && b.lease.value.preparingAt.Some?)
  }

  lemma NextPrepareTracked(b: Broker, e: Event)
    requires TokensIdentify(b) && FreshToken(b, e) && PrepareTracked(b)
    requires !e.Restart?
    ensures PrepareTracked(Next(b, e))
  {
    assert "" !in b.inFlight;
    match e {
      case Activate(_, _, _, _, _) => ActivatePrepareTracked(b, e);
      case Complete(_, _, _, _, _) => CompletePrepareTracked(b, e);
      case PrepareDone(_, _, _, _) => PrepareDonePrepareTracked(b, e);
      case Arm(_, _, _, _) =>
      case Disarm(_, _) =>
    }
  }

  lemma ActivatePrepareTracked(b: Broker, e: Event)
    requires TokensIdentify(b) && FreshToken(b, e) && PrepareTracked(b) && e.Activate?
    ensures PrepareTracked(Next(b, e))
  {
    assert e.entropy.Some? ==> e.entropy.value !in b.inFlight;
  }

  lemma CompletePrepareTracked(b: Broker, e: Event)
    requires PrepareTracked(b) && e.Complete?
    ensures PrepareTracked(Next(b, e))
  {
  }

  lemma PrepareDonePrepareTracked(b: Broker, e: Event)
    requires PrepareTracked(b) && e.PrepareDone?
    ensures PrepareTracked(Next(b, e))
  {
  }

  ghost predicate OneProcess(es: seq<Event>) {
    forall k :: 0 <= k < |es| ==> es[k] != Restart
  }

  lemma {:induction false} ProcessPrepareTracked(b: Broker, es: seq<Event>)
    requires TokensIdentify(b) && PrepareTracked(b) && FreshRun(b, es) && OneProcess(es)
    ensures TokensIdentify(Run(b, es)) && PrepareTracked(Run(b, es))
  {
    if es != [] {
      FreshPrefix(b, es);
      ProcessPrepareTracked(b, es[..|es| - 1]);
      NextPrepareTracked(Run(b, es[..|es| - 1]), es[|es| - 1]);
      NextTokensIdentify(Run(b, es[..|es| - 1]), es[|es| - 1]);
    }
  }

  lemma RestartTracked(b: Broker)
    requires TokensIdentify(b) && (b.saved.Some? ==> b.saved.value.preparingAt.None?)
    ensures TokensIdentify(Next(b, Restart)) && PrepareTracked(Next(b, Restart))
  {
  }

  /** Main result, for one process run started by a restart after any history: provided the
      reloaded lease is not marked as preparing. */
  lemma RunPrepareTracked(history: seq<Event>, es: seq<Event>)
    requires FreshRun(EMPTY, history) && OneProcess(es)
    requires var s := Run(EMPTY, history).saved; s.Some? ==> s.value.preparingAt.None?
    requires FreshRun(Next(Run(EMPTY, history), Restart), es)
    ensures PrepareTracked(Run(Next(Run(EMPTY, history), Restart), es))
  {
    var b := Run(EMPTY, history);
    RunTokensIdentify(EMPTY, history);
    RestartTracked(b);
    ProcessPrepareTracked(Next(b, Restart), es);
  }

  /** The condition above is exactly what a restart needs: a lease reloaded while marked as
      preparing has no preparation behind the mark. */
  lemma RestartTrackedIff(b: Broker)
    ensures PrepareTracked(Next(b, Restart)) <==> !(b.saved.Some? && b.saved.value.preparingAt.Some?)
  {
  }

  predicate Operator(e: Event) {
    e.Arm? || e.Disarm?
  }

  ghost predicate NoOperator(es: seq<Event>) {
    forall k :: 0 <= k < |es| ==> !Operator(es[k])
  }

  /** Such a lease is stuck: until someone arms or disarms, no sequence of requests and
      restarts changes it, so it is never completed. */
  lemma {:induction false} ReloadedPreparingIsStuck(b: Broker, es: seq<Event>)
    requires b.saved.Some? && b.saved.value.claimedAt.Some? && b.saved.value.preparingAt.Some?
    requires NoOperator(es)
    ensures var r := Run(Next(b, Restart), es);
      r.lease == b.saved && r.saved == b.saved && r.inFlight == multiset{}
  {
    if es != [] {
      ReloadedPreparingIsStuck(b, es[..|es| - 1]);
    }
  }

  /** Three requests and a restart lead there, whenever they come. */
  lemma StuckIsReachable(arm: Event, activate: Event, complete: Event)
    requires arm.Arm? && activate.Activate? && complete.Complete?
    requires activate.admittedAt < arm.now + ARM_WINDOW && activate.entropy == Some(complete.token) && activate.saveOk
    requires complete.now < activate.claimedAt + CLAIM_WINDOW && complete.dirOk && complete.recordOk && complete.saveOk
    ensures var s := Run(EMPTY, [arm, activate, complete]).saved;
      s.Some? && s.value.claimedAt.Some? && s.value.preparingAt.Some? && s.value.completedAt.None?
  {
    RunTwo(EMPTY, arm, activate);
    assert [arm, activate, complete][..2] == [arm, activate];
  }

  predicate IsCompleted(b: Broker) {
    b.lease.Some? && b.lease.value.completedAt.Some?
  }

  /** Some sequence of requests and restarts, without an operator, completes the lease. */
  ghost predicate CanComplete(b: Broker) {
    exists es: seq<Event> :: NoOperator(es) && IsCompleted(Run(b, es))
  }

  /** Exactly then is a claimed lease stuck: after a restart it can still be completed without
      an operator if and only if it was not saved while preparing. */
  lemma ReloadedCompletableIff(b: Broker)
    requires b.saved.Some? && b.saved.value.claimedAt.Some? && b.saved.value.claimExpiresAt.Some?
    requires b.saved.value.completedAt.None?
    ensures CanComplete(Next(b, Restart)) <==> b.saved.value.preparingAt.None?
  {
    if b.saved.value.preparingAt.None? {
      CompletesInTime(Next(b, Restart));
    } else {
      forall es: seq<Event> | NoOperator(es) ensures !IsCompleted(Run(Next(b, Restart), es)) {
        ReloadedPreparingIsStuck(b, es);
      }
    }
  }

  lemma CompletesInTime(b: Broker)
    requires b.lease.Some? && b.lease.value.claimedAt.Some? && b.lease.value.claimExpiresAt.Some?
    requires b.lease.value.completedAt.None? && b.lease.value.preparingAt.None?
    ensures CanComplete(b)
  {
    var token := b.lease.value.claimToken;
    var complete := Complete(token, b.lease.value.claimExpiresAt.value - 1, true, true, true);
    var done := PrepareDone(token, None, 0, true);
    var r := Next(b, complete);
    assert r.lease.value.claimToken == token && token in r.inFlight;
    assert IsCompleted(Next(r, done));
    RunTwo(b, complete, done);
    assert NoOperator([complete, done]);
  }

  lemma RunTwo(b: Broker, x: Event, y: Event)
    ensures Run(b, [x, y]) == Next(Next(b, x), y)
  {
    assert [x, y][..1] == [x] && [x][..0] == [];
    assert Run(b, [x]) == Next(Run(b, []), x);
  }

  /** Over a run of one process, completion is undone by nothing but arming or disarming. */
  lemma {:induction false} CompletionKept(b: Broker, es: seq<Event>)
    requires TokensIdentify(b) && PrepareTracked(b) && FreshRun(b, es) && OneProcess(es)
    requires b.lease.Some? && b.lease.value.completedAt.Some? && NoOperator(es)
    ensures Run(b, es).lease == b.lease
  {
    if es != [] {
      var init := es[..|es| - 1];
      FreshPrefix(b, es);
      CompletionKept(b, init);
      ProcessPrepareTracked(b, init);
      StepKeepsCompletion(Run(b, init), es[|es| - 1]);
    }
  }

  lemma StepKeepsCompletion(b: Broker, e: Event)
    requires TokensIdentify(b) && PrepareTracked(b)
    requires b.lease.Some? && b.lease.value.completedAt.Some?
    requires !Operator(e) && !e.Restart?
    ensures Next(b, e).lease == b.lease
  {
    assert b.lease.value.claimedAt.Some?;
    assert b.inFlight[b.lease.value.claimToken] == 0;
  }

  /** A successful preparation completes the lease it was started for, if still current. */
  lemma CompletionReached(b: Broker, token: string, now: int, saveOk: bool)
    requires TokensIdentify(b) && PrepareTracked(b)
    requires b.lease.Some? && b.lease.value.preparingAt.Some? && b.lease.value.claimToken == token
    ensures var r := Next(b, PrepareDone(token, None, now, saveOk));
      && r.lease.Some? && r.lease.value.id == b.lease.value.id
      && r.lease.value.completedAt == Some(now) && r.lease.value.preparingAt.None?
      && r.lease.value.prepareError == ""
      && r.inFlight[token] == 0
  {
    assert token in b.inFlight;
  }

  /** A preparation that fails does not complete the lease: it is unmarked, carries the error,
      and as long as the claim holds its claimant can start another preparation. */
  lemma PreparationFailed(b: Broker, token: string, failure: string, now: int, saveOk: bool, retryAt: int)
    requires TokensIdentify(b) && PrepareTracked(b)
    requires b.lease.Some? && b.lease.value.preparingAt.Some? && b.lease.value.claimToken == token
    ensures var r := Next(b, PrepareDone(token, Some(failure), now, saveOk));
      && r.lease == Some(b.lease.value.(preparingAt := None, prepareError := failure))
      && r.lease.value.completedAt.None? && r.inFlight[token] == 0
      && (r.lease.value.claimExpiresAt.Some? && retryAt < r.lease.value.claimExpiresAt.value ==>
            Next(r, Complete(token, retryAt, true, true, true)).inFlight[token] == 1)
  {
    assert token in b.inFlight;
    assert b.lease.value.claimedAt.Some?;
  }

  /** The file changes only to what the memory holds, and not at all if the save fails. */
  lemma FileFollowsMemory(b: Broker, e: Event)
    ensures var r := Next(b, e);
      && (r.saved == b.saved || r.saved == r.lease)
      && (match e
          case Arm(_, _, _, saveOk) => r.saved == if saveOk then r.lease else b.saved
          case Disarm(_, saveOk) => !saveOk ==> r.saved == b.saved
          case Activate(_, _, _, _, saveOk) => !saveOk ==> r.saved == b.saved
          case Complete(_, _, _, _, saveOk) => !saveOk ==> r.saved == b.saved
          case PrepareDone(_, _, _, saveOk) => !saveOk ==> r.saved == b.saved
          case Restart => r.saved == b.saved)
  {
  }

  /** Disarming a host drops its lease, in the file too if that can be written, and no other. */
  lemma DisarmDropsHost(b: Broker, host: string, saveOk: bool)
    ensures var r := Next(b, Disarm(host, saveOk));
      && (b.lease.Some? && b.lease.value.host == host ==> r.lease.None? && r.saved == if saveOk then None else b.saved)
      && (b.lease.None? || b.lease.value.host != host ==> r == b)
  {
  }

  /** A claim that cannot be saved is kept in memory, where it blocks other claims, and is
      answered to nobody. */
  lemma UnsavedClaimBlocks(b: Broker, e: Event, t: int)
    requires e.Activate? && Claimable(b, e.admittedAt) && e.entropy.Some?
    ensures var r := Next(b, e);
      && !Claimable(r, t) && r.lease.value.claimToken == e.entropy.value
      && r.saved == (if e.saveOk then r.lease else b.saved)
      && r.answers == b.answers + if e.saveOk then [Grant(b.lease.value.id, e.entropy.value)] else []
  {
  }

  /** An acceptable completion marks the lease and starts one preparation, in memory and file;
      if the file, or what is recorded first, cannot be written, it starts none, and at most
      clears the last error. */
  lemma CompletionOutcome(b: Broker, e: Event)
    requires e.Complete?
    ensures var r := Next(b, e);
      && (Completable(b, e.token, e.now) && e.dirOk && e.recordOk && e.saveOk ==>
            && r.lease == r.saved == Some(b.lease.value.(preparingAt := Some(e.now), prepareError := ""))
            && r.inFlight == b.inFlight + multiset{e.token})
      && (Completable(b, e.token, e.now) && e.dirOk && e.recordOk && !e.saveOk ==>
            r == b.(lease := Some(b.lease.value.(prepareError := ""))))
      && (!Completable(b, e.token, e.now) || !e.dirOk || !e.recordOk ==> r == b)
  {
  }

  // ---- Where a lease's contents come from ----

  predicate ArmedBy(e: Event, l: Lease) {
    && e.Arm? && l.host == e.target.host && l.profile == e.target.profile && l.armedBy == e.user
    && l.armedAt == e.now && l.expiresAt == e.now + 5 * 60 * 1_000_000_000
  }

  predicate ClaimedBy(e: Event, l: Lease) {
    && e.Activate? && e.entropy == Some(l.claimToken) && e.admittedAt < l.expiresAt
    && l.claimedAt == Some(e.claimedAt) && l.dmiUuid == e.dmiUuid
    && l.claimExpiresAt == Some(e.claimedAt + 2 * 60 * 60 * 1_000_000_000)
  }

  predicate CompletedBy(e: Event, l: Lease) {
    e.PrepareDone? && e.token == l.claimToken && e.failure.None? && l.completedAt == Some(e.now)
  }

  ghost predicate WasArmed(es: seq<Event>, l: Lease) {
    exists i :: 0 <= i < |es| && ArmedBy(es[i], l)
  }

  ghost predicate WasClaimed(es: seq<Event>, l: Lease) {
    exists i :: 0 <= i < |es| && ClaimedBy(es[i], l)
  }

  /** A successful preparation for its claim ended, after the claim was made. */
  ghost predicate WasCompleted(es: seq<Event>, l: Lease) {
    exists i :: 0 <= i < |es| && CompletedBy(es[i], l) && WasClaimed(es[..i], l)
  }

  ghost predicate Accounted(es: seq<Event>, l: Option<Lease>) {
    l.Some? ==>
      && WasArmed(es, l.value)
      && (if l.value.claimedAt.Some? then WasClaimed(es, l.value)
          else l.value.claimToken == "" && l.value.claimExpiresAt.None? && l.value.dmiUuid == "")
      && (l.value.completedAt.Some? ==> WasCompleted(es, l.value))
  }

  lemma StaysArmed(es: seq<Event>, l: Lease, l': Lease)
    requires es != [] && WasArmed(es[..|es| - 1], l)
    requires l'.host == l.host && l'.profile == l.profile && l'.armedBy == l.armedBy
    requires l'.armedAt == l.armedAt && l'.expiresAt == l.expiresAt
    ensures WasArmed(es, l')
  {
    var init := es[..|es| - 1];
    var i :| 0 <= i < |init| && ArmedBy(init[i], l);
    assert ArmedBy(es[i], l');
  }

  lemma StaysClaimed(es: seq<Event>, l: Lease, l': Lease)
    requires es != [] && WasClaimed(es[..|es| - 1], l) && SameClaim(l, l')
    ensures WasClaimed(es, l') && WasClaimed(es[..|es| - 1], l')
  {
    var init := es[..|es| - 1];
    var i :| 0 <= i < |init| && ClaimedBy(init[i], l);
    assert ClaimedBy(init[i], l') && ClaimedBy(es[i], l');
  }

  predicate SameClaim(l: Lease, l': Lease) {
    l'.claimToken == l.claimToken && l'.expiresAt == l.expiresAt && l'.claimedAt == l.claimedAt
    && l'.dmiUuid == l.dmiUuid && l'.claimExpiresAt == l.claimExpiresAt
  }

  lemma StaysCompleted(es: seq<Event>, l: Lease, l': Lease)
    requires es != [] && WasCompleted(es[..|es| - 1], l) && SameClaim(l, l') && l'.completedAt == l.completedAt
    ensures WasCompleted(es, l')
  {
    var init := es[..|es| - 1];
    var i :| 0 <= i < |init| && CompletedBy(init[i], l) && WasClaimed(init[..i], l);
    assert init[..i] == es[..i];
    var j :| 0 <= j < |init[..i]| && ClaimedBy(init[..i][j], l);
    assert ClaimedBy(es[..i][j], l');
    assert CompletedBy(es[i], l') && WasClaimed(es[..i], l');
  }

  /** A copy that a step leaves as it was, except for the preparation's mark and error. */
  lemma StaysAccounted(es: seq<Event>, l: Lease, l': Lease)
    requires es != [] && Accounted(es[..|es| - 1], Some(l))
    requires l' == l.(preparingAt := l'.preparingAt, prepareError := l'.prepareError)
    ensures Accounted(es, Some(l'))
  {
    StaysArmed(es, l, l');
    if l.claimedAt.Some? {
      StaysClaimed(es, l, l');
    }
    if l.completedAt.Some? {
      StaysCompleted(es, l, l');
    }
  }

  lemma NewlyClaimed(es: seq<Event>, b: Broker)
    requires es != [] && es[|es| - 1].Activate? && Accounted(es[..|es| - 1], b.lease) && OwnToken(b, b.lease)
    requires Claimable(b, es[|es| - 1].admittedAt) && es[|es| - 1].entropy.Some?
    ensures Accounted(es, Next(b, es[|es| - 1]).lease)
  {
    var e := es[|es| - 1];
    var l' := Next(b, e).lease.value;
    StaysArmed(es, b.lease.value, l');
    assert ClaimedBy(es[|es| - 1], l');
    assert l'.completedAt.None?;
  }

  lemma NewlyCompleted(es: seq<Event>, b: Broker)
    requires es != [] && es[|es| - 1].PrepareDone? && Accounted(es[..|es| - 1], b.lease) && TokensIdentify(b)
    requires es[|es| - 1].token in b.inFlight && es[|es| - 1].failure.None?
    requires b.lease.Some? && b.lease.value.claimToken == es[|es| - 1].token
    ensures Accounted(es, Next(b, es[|es| - 1]).lease)
  {
    var e, l := es[|es| - 1], b.lease.value;
    assert TokenDrawn(b, e.token);
    assert l.claimedAt.Some?;
    var l' := Next(b, e).lease.value;
    StaysArmed(es, l, l');
    StaysClaimed(es, l, l');
    assert CompletedBy(es[|es| - 1], l');
  }

  lemma LeaseStaysAccounted(es: seq<Event>, b: Broker)
    requires es != [] && TokensIdentify(b)
    requires Accounted(es[..|es| - 1], b.lease) && Accounted(es[..|es| - 1], b.saved)
    ensures Accounted(es, Next(b, es[|es| - 1]).lease)
  {
    var e := es[|es| - 1];
    var r := Next(b, e);
    match e {
      case Arm(_, _, _, _) =>
        assert ArmedBy(es[|es| - 1], r.lease.value);
      case Activate(_, _, _, _, _) =>
        if Claimable(b, e.admittedAt) && e.entropy.Some? {
          NewlyClaimed(es, b);
        } else if b.lease.Some? {
          StaysAccounted(es, b.lease.value, b.lease.value);
        }
      case PrepareDone(token, failure, _, _) =>
        if token in b.inFlight && failure.None? && b.lease.Some? && b.lease.value.claimToken == token {
          NewlyCompleted(es, b);
        } else if b.lease.Some? {
          StaysAccounted(es, b.lease.value, r.lease.value);
        }
      case Restart =>
        if b.saved.Some? {
          StaysAccounted(es, b.saved.value, b.saved.value);
        }
      case Complete(_, _, _, _, _) =>
        if b.lease.Some? {
          StaysAccounted(es, b.lease.value, r.lease.value);
        }
      case Disarm(_, _) =>
        if r.lease.Some? {
          StaysAccounted(es, b.lease.value, b.lease.value);
        }
    }
  }

  /** Main result: over every run with fresh tokens, restarts and failed saves included, the
      lease (and its saved copy) carries the host, profile, user and window of an arm request,
      the token, time, machine and window of an admitted claim, and is completed only if a
      preparation for that claim, ended after it, reported success. */
  lemma {:induction false} LeaseAccountedFor(es: seq<Event>)
    requires FreshRun(EMPTY, es)
    ensures Accounted(es, Run(EMPTY, es).lease) && Accounted(es, Run(EMPTY, es).saved)
  {
    if es != [] {
      var init := es[..|es| - 1];
      var b := Run(EMPTY, init);
      FreshPrefix(EMPTY, es);
      LeaseAccountedFor(init);
      RunTokensIdentify(EMPTY, init);
      LeaseStaysAccounted(es, b);
      FileFollowsMemory(b, es[|es| - 1]);
      if b.saved.Some? {
        StaysAccounted(es, b.saved.value, b.saved.value);
      }
    }
  }
}
