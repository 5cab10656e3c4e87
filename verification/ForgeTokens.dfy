// The forge's token provider (apps/forgejo/provider): per-host access tokens cached in files,
// rotated before they expire, and revoked when nobody asks for them any more. The forge's
// answers and the success of file writes and removals are inputs, numbered by the calls made.
module ForgeTokens {
  import opened Wrappers
  import opened Strings
  import opened StateKeys

  const TOKEN_TTL := 86400
  const ROTATION_THRESHOLD := 7200

  datatype Scopes = ReadOnly | ReadWrite

  /** A token row at the forge. */
  datatype Token = Token(name: string, secret: string, scopes: Scopes)

  datatype Stored = Stored(secret: string, expiry: int)

  /** A request after decoding; `access` is "" if it was left out. */
  datatype Request = Malformed | Request(access: string)

  datatype Entry = Entry(key: string, request: Request)

  datatype Response = Granted(secret: string, ttl: int) | Refused

  /** Token files by name, token rows at the forge, and the number of calls made so far. */
  datatype Store = Store(files: map<string, Stored>, live: set<Token>, calls: nat)

  /** How the n-th outside call ends. */
  datatype World = World(
    revokes: nat -> bool,
    generates: nat -> Option<string>,
    saves: nat -> bool,
    removes: nat -> bool)

  /** Generated tokens are not empty. */
  ghost predicate Sane(w: World) {
    forall n: nat :: w.generates(n) != Some("")
  }

  ghost predicate WritesSucceed(w: World) {
    forall n: nat :: w.saves(n)
  }

  ghost predicate RemovalsSucceed(w: World) {
    forall n: nat :: w.removes(n)
  }

  function TokenName(origin: string, access: string): string {
    origin + "-" + access
  }

  function ScopesOf(access: string): Scopes {
    if access == "rw" then ReadWrite else ReadOnly
  }

  function OriginOf(key: string): string {
    SplitOnce(key, ':').0
  }

  const RW_HOSTS := {"ratched", "obrien"}

  /** The access a request is granted, if any. */
  function GrantedAccess(e: Entry): Option<string> {
    if e.request.Malformed? then None
    else
      var access := if e.request.access == "" then "ro" else e.request.access;
      if access != "ro" && access != "rw" then None
      else if access == "rw" && OriginOf(e.key) !in RW_HOSTS then None
      else Some(access)
  }

  function NameFor(e: Entry): Option<string> {
    var access := GrantedAccess(e);
    if access.None? then None else Some(TokenName(OriginOf(e.key), access.value))
  }

  // ---- What one run does ----

  predicate Reusable(files: map<string, Stored>, name: string, now: int) {
    name in files && files[name].secret != "" && files[name].expiry - now > ROTATION_THRESHOLD
  }

  function Without(live: set<Token>, name: string): set<Token> {
    set t | t in live && t.name != name
  }

  function Revoked(w: World, s: Store, name: string): Store {
    s.(live := if w.revokes(s.calls) then Without(s.live, name) else s.live, calls := s.calls + 1)
  }

  function Processed(w: World, s: Store, name: string, scopes: Scopes, now: int): (Store, Response) {
    if Reusable(s.files, name, now) then (s, Granted(s.files[name].secret, s.files[name].expiry - now))
    else
      var s1 := Revoked(w, s, name);
      var secret := w.generates(s1.calls);
      if secret.None? then (s1.(calls := s1.calls + 1), Refused)
      else
        (Store(if w.saves(s1.calls) then s1.files[name := Stored(secret.value, now + TOKEN_TTL)] else s1.files,
               s1.live + {Token(name, secret.value, scopes)},
               s1.calls + 1),
         Granted(secret.value, TOKEN_TTL))
  }

  /** A run so far: the store, the answers, and the token names that were asked for. */
  datatype Progress = Progress(store: Store, output: map<string, Response>, expected: set<string>)

  function ProcessedAll(w: World, s: Store, entries: seq<Entry>, now: int): Progress {
    if entries == [] then Progress(s, map[], {})
    else
      var p, e := ProcessedAll(w, s, entries[..|entries| - 1], now), entries[|entries| - 1];
      ProcessedOne(w, p, e, now)
  }

  function ProcessedOne(w: World, p: Progress, e: Entry, now: int): Progress {
    var access := GrantedAccess(e);
    if access.None? then p.(output := p.output[e.key := Refused])
    else
      var name := TokenName(OriginOf(e.key), access.value);
      var (store, response) := Processed(w, p.store, name, ScopesOf(access.value), now);
      Progress(store, p.output[e.key := response], p.expected + {name})
  }

  /** Garbage collection over the listed files. */
  function Collected(w: World, s: Store, listing: seq<string>, expected: set<string>): Store {
    if listing == [] then s
    else
      var s1, name := Collected(w, s, listing[..|listing| - 1], expected), listing[|listing| - 1];
      if name in expected then s1
      else Revoked(w, s1, name).(files := if w.removes(s1.calls) then s1.files - {name} else s1.files)
  }

  /** One whole run; `listing` is the token directory in the order it is read. */
  function AfterRun(w: World, s: Store, entries: seq<Entry>, now: int, listing: seq<string>): Progress {
    var p := ProcessedAll(w, s, entries, now);
    p.(store := Collected(w, p.store, listing, p.expected))
  }

  // ---- The provider ----

  class Provider {
    const w: World
    var files: map<string, Stored>
    ghost var live: set<Token>
    var calls: nat

    ghost function Contents(): Store
      reads this
    {
      Store(files, live, calls)
    }

    constructor (w: World, files: map<string, Stored>, ghost live: set<Token>)
      ensures this.w == w && Contents() == Store(files, live, 0)
    {
      this.w, this.files, this.live, calls := w, files, live, 0;
    }

    method RevokeToken(name: string)
      modifies this
      ensures Contents() == Revoked(w, old(Contents()), name)
    {
      if w.revokes(calls) {
        live := Without(live, name);
      }
      calls := calls + 1;
    }

    method GenerateToken(name: string, scopes: Scopes) returns (secret: Option<string>)
      modifies this
      ensures secret == w.generates(old(calls)) && files == old(files) && calls == old(calls) + 1
      ensures live == if secret.Some? then old(live) + {Token(name, secret.value, scopes)} else old(live)
    {
      secret := w.generates(calls);
      if secret.Some? {
        live := live + {Token(name, secret.value, scopes)};
      }
      calls := calls + 1;
    }

    method ProcessToken(origin: string, access: string, now: int) returns (response: Response)
      modifies this
      ensures (Contents(), response) ==
              Processed(w, old(Contents()), TokenName(origin, access), ScopesOf(access), now)
    {
      var name := TokenName(origin, access);
      var scopes := ReadOnly;
      if access == "rw" {
        scopes := ReadWrite;
      }
      if name in files && files[name].secret != "" {
        var remaining := files[name].expiry - now;
        if remaining > ROTATION_THRESHOLD {
          return Granted(files[name].secret, remaining);
        }
      }
      RevokeToken(name);
      var saveOk := w.saves(calls);
      var secret := GenerateToken(name, scopes);
      if secret.None? {
        return Refused;
      }
      var expiry := now + TOKEN_TTL;
      if saveOk {
        files := files[name := Stored(secret.value, expiry)];
      }
      return Granted(secret.value, TOKEN_TTL);
    }

    method ProcessEntries(entries: seq<Entry>, now: int, listing: seq<string>) returns (output: map<string, Response>)
      modifies this
      ensures var p := AfterRun(w, old(Contents()), entries, now, listing);
        Contents() == p.store && output == p.output
    {
      output := map[];
      var expectedFiles: set<string> := {};
      var i := 0;
      while i < |entries|
        invariant 0 <= i <= |entries|
        invariant Progress(Contents(), output, expectedFiles) == ProcessedAll(w, old(Contents()), entries[..i], now)
      {
        assert entries[..i + 1][..i] == entries[..i];
        var origin := OriginOf(entries[i].key);
        var access := "";
        if entries[i].request.Request? {
          access := entries[i].request.access;
          if access == "" {
            access := "ro";
          }
        }
        if entries[i].request.Malformed? || (access != "ro" && access != "rw") || (access == "rw" && origin !in RW_HOSTS) {
          output := output[entries[i].key := Refused];
        } else {
          expectedFiles := expectedFiles + {TokenName(origin, access)};
          var response := ProcessToken(origin, access, now);
          output := output[entries[i].key := response];
        }
        i := i + 1;
      }
      assert entries[..i] == entries;
      GarbageCollect(listing, expectedFiles);
    }

    method GarbageCollect(listing: seq<string>, expected: set<string>)
      modifies this
      ensures Contents() == Collected(w, old(Contents()), listing, expected)
    {
      var i := 0;
      while i < |listing|
        invariant 0 <= i <= |listing|
        invariant Contents() == Collected(w, old(Contents()), listing[..i], expected)
      {
        assert listing[..i + 1][..i] == listing[..i];
        if listing[i] !in expected {
          var removed := w.removes(calls);
          RevokeToken(listing[i]);
          if removed {
            files := files - {listing[i]};
          }
        }
        i := i + 1;
      }
      assert listing[..i] == listing;
    }
  }

  // ---- Cached tokens are live ----

  ghost predicate LiveAs(s: Store, name: string, secret: string) {
    exists t :: t in s.live && t.name == name && t.secret == secret
  }

  /** Every stored token with more than the rotation threshold left is live at the forge. */
  ghost predicate CacheLive(s: Store, now: int) {
    forall name :: Reusable(s.files, name, now) ==> LiveAs(s, name, s.files[name].secret)
  }

  /** Every token answered so far is the stored one of its name, reusable and asked for. */
  ghost predicate AnswersStored(p: Progress, entries: seq<Entry>, now: int) {
    forall i :: 0 <= i < |entries| && entries[i].key in p.output && p.output[entries[i].key].Granted? ==>
      AnswerStored(p, entries[i], now)
  }

  ghost predicate AnswerStored(p: Progress, e: Entry, now: int)
    requires e.key in p.output && p.output[e.key].Granted?
  {
    && NameFor(e).Some? && NameFor(e).value in p.expected
    && Reusable(p.store.files, NameFor(e).value, now)
    && p.store.files[NameFor(e).value].secret == p.output[e.key].secret
  }

  ghost predicate DistinctKeys(entries: seq<Entry>) {
    forall i, j :: 0 <= i < j < |entries| ==> entries[i].key != entries[j].key
  }

  lemma ProcessedKeepsLive(w: World, s: Store, name: string, scopes: Scopes, now: int)
    requires CacheLive(s, now)
    ensures var (r, response) := Processed(w, s, name, scopes, now);
      && CacheLive(r, now)
      && (forall n :: n != name && n in s.files ==> n in r.files && r.files[n] == s.files[n])
      && (forall n, secret :: n != name && LiveAs(s, n, secret) ==> LiveAs(r, n, secret))
      && (Reusable(s.files, name, now) ==> r == s)
      && (response.Granted? ==> LiveAs(r, name, response.secret))
  {
    var (r, response) := Processed(w, s, name, scopes, now);
    forall n, secret | n != name && LiveAs(s, n, secret) ensures LiveAs(r, n, secret) {
      var t :| t in s.live && t.name == n && t.secret == secret;
      assert t in r.live;
    }
    if !Reusable(s.files, name, now) && response.Granted? {
      assert Token(name, response.secret, scopes) in r.live;
    }
  }

  lemma {:induction false} ProcessedAllKeepsLive(w: World, s: Store, entries: seq<Entry>, now: int)
    requires CacheLive(s, now)
    ensures var p := ProcessedAll(w, s, entries, now);
      && CacheLive(p.store, now)
      && (forall n :: Reusable(s.files, n, now) ==> n in p.store.files && p.store.files[n] == s.files[n])
  {
    if entries != [] {
      var init, e := entries[..|entries| - 1], entries[|entries| - 1];
      ProcessedAllKeepsLive(w, s, init, now);
      if GrantedAccess(e).Some? {
        var p := ProcessedAll(w, s, init, now);
        ProcessedKeepsLive(w, p.store, NameFor(e).value, ScopesOf(GrantedAccess(e).value), now);
      }
    }
  }

  /** The `i`-th file is an orphan that collection leaves behind dead but reusable: its token
      was revoked, the file could not be removed. */
  predicate LeftDead(w: World, s: Store, listing: seq<string>, expected: set<string>, now: int, i: nat)
    requires i < |listing|
  {
    var calls := Collected(w, s, listing[..i], expected).calls;
    listing[i] !in expected && Reusable(s.files, listing[i], now) && w.revokes(calls) && !w.removes(calls)
  }

  ghost predicate NoneLeftDead(w: World, s: Store, listing: seq<string>, expected: set<string>, now: int) {
    forall i: nat :: i < |listing| ==> !LeftDead(w, s, listing, expected, now, i)
  }

  lemma NoneLeftDeadStep(w: World, s: Store, listing: seq<string>, expected: set<string>, now: int)
    requires listing != []
    ensures NoneLeftDead(w, s, listing, expected, now) <==>
      NoneLeftDead(w, s, listing[..|listing| - 1], expected, now) && !LeftDead(w, s, listing, expected, now, |listing| - 1)
  {
    var init := listing[..|listing| - 1];
    assert forall i :: 0 <= i < |init| ==> init[..i] == listing[..i];
    assert forall i: nat :: i < |init| ==>
      (LeftDead(w, s, init, expected, now, i) <==> LeftDead(w, s, listing, expected, now, i));
  }

  /** What collection does to files and to the tokens of other names. */
  lemma {:induction false} CollectedFiles(w: World, s: Store, listing: seq<string>, expected: set<string>)
    ensures var r := Collected(w, s, listing, expected);
      && (forall n :: n in r.files ==> n in s.files && r.files[n] == s.files[n])
      && (forall n :: n in s.files && (n in expected || n !in listing) ==> n in r.files)
      && (RemovalsSucceed(w) ==> forall n :: n in r.files && n in listing ==> n in expected)
      && (forall t :: t in s.live && (t.name in expected || t.name !in listing) ==> t in r.live)
      && r.live <= s.live
  {
    if listing != [] {
      var init, name := listing[..|listing| - 1], listing[|listing| - 1];
      CollectedFiles(w, s, init, expected);
      assert forall n :: n in listing <==> n in init || n == name;
    }
  }

  /** Whatever else fails: no token is left at the forge under a name that was listed, not
      asked for, and revoked with success. */
  lemma {:induction false} OrphansRevoked(w: World, s: Store, listing: seq<string>, expected: set<string>, i: nat)
    requires i < |listing| && listing[i] !in expected
    requires w.revokes(Collected(w, s, listing[..i], expected).calls)
    ensures forall t :: t in Collected(w, s, listing, expected).live ==> t.name != listing[i]
  {
    var init := listing[..|listing| - 1];
    if i < |init| {
      assert init[..i] == listing[..i];
      OrphansRevoked(w, s, init, expected, i);
    }
  }

  lemma CollectedOneMore(w: World, s: Store, listing: seq<string>, expected: set<string>, now: int)
    requires listing != [] && Distinct(listing) && CacheLive(s, now)
    ensures var init := listing[..|listing| - 1];
      CacheLive(Collected(w, s, listing, expected), now) <==>
      CacheLive(Collected(w, s, init, expected), now) && !LeftDead(w, s, listing, expected, now, |listing| - 1)
  {
    var init, name := listing[..|listing| - 1], listing[|listing| - 1];
    var s1, r := Collected(w, s, init, expected), Collected(w, s, listing, expected);
    CollectedFiles(w, s, init, expected);
    assert name !in init;
    if name !in expected {
      forall n | n != name
        ensures Reusable(r.files, n, now) <==> Reusable(s1.files, n, now)
        ensures Reusable(r.files, n, now) ==> (LiveAs(r, n, r.files[n].secret) <==> LiveAs(s1, n, s1.files[n].secret))
      {
        OtherNamesLive(w, s1, name, n);
      }
      if Reusable(s.files, name, now) {
        assert LiveAs(s, name, s.files[name].secret);
        var t :| t in s.live && t.name == name && t.secret == s.files[name].secret;
        assert t in s1.live;
        assert LiveAs(s1, name, s1.files[name].secret);
        assert w.revokes(s1.calls) ==> forall x :: x in r.live ==> x.name != name;
      }
    }
  }

  lemma OtherNamesLive(w: World, s: Store, name: string, n: string)
    requires n != name
    ensures forall secret :: LiveAs(Revoked(w, s, name), n, secret) <==> LiveAs(s, n, secret)
  {
    var r := Revoked(w, s, name);
    forall secret | LiveAs(s, n, secret) ensures LiveAs(r, n, secret) {
      var t :| t in s.live && t.name == n && t.secret == secret;
      assert t in r.live;
    }
  }

  /** Garbage collection keeps the cache live exactly if it leaves no revoked orphan's file
      behind with time left on it. A directory lists each name once. */
  lemma {:induction false} CollectionKeepsLiveIff(w: World, s: Store, listing: seq<string>, expected: set<string>, now: int)
    requires CacheLive(s, now) && Distinct(listing)
    ensures CacheLive(Collected(w, s, listing, expected), now) <==> NoneLeftDead(w, s, listing, expected, now)
  {
    if listing != [] {
      var init := listing[..|listing| - 1];
      assert Distinct(init);
      CollectionKeepsLiveIff(w, s, init, expected, now);
      CollectedOneMore(w, s, listing, expected, now);
      NoneLeftDeadStep(w, s, listing, expected, now);
    }
  }

  /** A whole run, whatever fails in it: exactly then does the cache stay live. */
  lemma RunKeepsLiveIff(w: World, s: Store, entries: seq<Entry>, now: int, listing: seq<string>)
    requires CacheLive(s, now) && Distinct(listing)
    ensures var p := ProcessedAll(w, s, entries, now);
      CacheLive(AfterRun(w, s, entries, now, listing).store, now) <==>
      NoneLeftDead(w, p.store, listing, p.expected, now)
  {
    var p := ProcessedAll(w, s, entries, now);
    ProcessedAllKeepsLive(w, s, entries, now);
    CollectionKeepsLiveIff(w, p.store, listing, p.expected, now);
  }

  /** Such a file is handed out by the next run that is asked for it, dead as it is. */
  lemma DeadTokenAnswered(w: World, s: Store, name: string, scopes: Scopes, now: int)
    requires Reusable(s.files, name, now) && !LiveAs(s, name, s.files[name].secret)
    ensures var (r, response) := Processed(w, s, name, scopes, now);
      r == s && response.Granted? && !LiveAs(r, name, response.secret)
  {
  }

  /** As long as files can be removed: the cache stays live, whatever else fails, and only
      token files that were asked for are left. */
  lemma RunKeepsLive(w: World, s: Store, entries: seq<Entry>, now: int, listing: seq<string>)
    requires CacheLive(s, now) && RemovalsSucceed(w)
    ensures var p := AfterRun(w, s, entries, now, listing);
      && CacheLive(p.store, now)
      && (forall n :: n in p.store.files && n in listing ==> n in p.expected)
  {
    var p0, p := ProcessedAll(w, s, entries, now), AfterRun(w, s, entries, now, listing);
    ProcessedAllKeepsLive(w, s, entries, now);
    CollectedFiles(w, p0.store, listing, p0.expected);
    forall n | Reusable(p.store.files, n, now) ensures LiveAs(p.store, n, p.store.files[n].secret) {
      var t :| t in p0.store.live && t.name == n && t.secret == p0.store.files[n].secret;
      assert n in p0.expected || n !in listing;
      assert t in p.store.live;
    }
  }

  /** A run of the provider within a history. */
  datatype Run = Run(entries: seq<Entry>, now: int, listing: seq<string>)

  function History(w: World, s: Store, runs: seq<Run>): Store {
    if runs == [] then s
    else
      var r := runs[|runs| - 1];
      AfterRun(w, History(w, s, runs[..|runs| - 1]), r.entries, r.now, r.listing).store
  }

  lemma LiveLater(s: Store, now: int, later: int)
    requires CacheLive(s, now) && now <= later
    ensures CacheLive(s, later)
  {
    forall name | Reusable(s.files, name, later) ensures LiveAs(s, name, s.files[name].secret) {
      assert Reusable(s.files, name, now);
    }
  }

  /** Main result over any sequence of runs with a non-decreasing clock, whatever fails but
      the removal of files. */
  lemma {:induction false} HistoryKeepsLive(w: World, s: Store, start: int, runs: seq<Run>)
    requires CacheLive(s, start) && RemovalsSucceed(w)
    requires forall i :: 0 <= i < |runs| ==> start <= runs[i].now
    requires forall i, j :: 0 <= i < j < |runs| ==> runs[i].now <= runs[j].now
    ensures CacheLive(History(w, s, runs), if runs == [] then start else runs[|runs| - 1].now)
  {
    if runs != [] {
      var init, r := runs[..|runs| - 1], runs[|runs| - 1];
      HistoryKeepsLive(w, s, start, init);
      var before := History(w, s, init);
      LiveLater(before, if init == [] then start else init[|init| - 1].now, r.now);
      RunKeepsLive(w, before, r.entries, r.now, r.listing);
    }
  }

  // ---- Answered tokens are live ----

  /** Every token the run answers is live at the forge when the run ends. */
  ghost predicate AnswersLive(p: Progress, entries: seq<Entry>) {
    forall i :: 0 <= i < |entries| && entries[i].key in p.output && p.output[entries[i].key].Granted? ==>
      NameFor(entries[i]).Some? && LiveAs(p.store, NameFor(entries[i]).value, p.output[entries[i].key].secret)
  }

  /** Entries with the same origin and access that get a token get the same one. */
  ghost predicate AnswersAgree(p: Progress, entries: seq<Entry>) {
    forall i, j :: 0 <= i < j < |entries| && NameFor(entries[i]) == NameFor(entries[j]) ==>
      SameAnswer(p.output, entries[i].key, entries[j].key)
  }

  predicate SameAnswer(output: map<string, Response>, k: string, l: string) {
    k in output && l in output && output[k].Granted? && output[l].Granted? ==> output[k].secret == output[l].secret
  }

  lemma GrantedKeys(w: World, s: Store, entries: seq<Entry>, now: int, i: nat)
    requires DistinctKeys(entries) && i < |entries|
    ensures var p := ProcessedAll(w, s, entries, now);
      && entries[i].key in p.output
      && (p.output[entries[i].key].Granted? ==> NameFor(entries[i]).Some?)
  {
    if i < |entries| - 1 {
      var init := entries[..|entries| - 1];
      assert init[i] == entries[i] && entries[i].key != entries[|entries| - 1].key;
      GrantedKeys(w, s, init, now, i);
    }
  }

  /** Collection touches nothing that was asked for. */
  lemma CollectionKeepsAnswers(w: World, s: Store, entries: seq<Entry>, now: int, listing: seq<string>)
    ensures var p0, p := ProcessedAll(w, s, entries, now), AfterRun(w, s, entries, now, listing);
      && p.output == p0.output && p.store.live <= p0.store.live
      && (forall n, secret :: n in p0.expected && LiveAs(p0.store, n, secret) ==> LiveAs(p.store, n, secret))
  {
    var p0, p := ProcessedAll(w, s, entries, now), AfterRun(w, s, entries, now, listing);
    CollectedFiles(w, p0.store, listing, p0.expected);
    forall n, secret | n in p0.expected && LiveAs(p0.store, n, secret) ensures LiveAs(p.store, n, secret) {
      var t :| t in p0.store.live && t.name == n && t.secret == secret;
      assert t in p.store.live;
    }
  }

  lemma {:induction false} AskedIsExpected(w: World, s: Store, entries: seq<Entry>, now: int)
    ensures forall i :: 0 <= i < |entries| && NameFor(entries[i]).Some? ==>
      NameFor(entries[i]).value in ProcessedAll(w, s, entries, now).expected
  {
    if entries != [] {
      AskedIsExpected(w, s, entries[..|entries| - 1], now);
    }
  }

  /** One entry more: earlier answers of other names stay live, and those of its own name if
      the name is reusable by then. */
  lemma OneMoreAnswerLive(w: World, p: Progress, init: seq<Entry>, e: Entry, now: int)
    requires CacheLive(p.store, now) && AnswersLive(p, init) && DistinctKeys(init + [e])
    requires forall i :: 0 <= i < |init| && NameFor(e).Some? && NameFor(init[i]) == NameFor(e)
                         && init[i].key in p.output && p.output[init[i].key].Granted? ==>
      Reusable(p.store.files, NameFor(e).value, now)
    ensures AnswersLive(ProcessedOne(w, p, e, now), init + [e])
  {
    var entries, r := init + [e], ProcessedOne(w, p, e, now);
    if NameFor(e).Some? {
      ProcessedKeepsLive(w, p.store, NameFor(e).value, ScopesOf(GrantedAccess(e).value), now);
    }
    forall i | 0 <= i < |entries| && entries[i].key in r.output && r.output[entries[i].key].Granted?
      ensures NameFor(entries[i]).Some? && LiveAs(r.store, NameFor(entries[i]).value, r.output[entries[i].key].secret)
    {
      if i < |init| {
        assert entries[i] == init[i] && entries[i].key != entries[|init|].key;
        assert LiveAs(p.store, NameFor(init[i]).value, p.output[init[i].key].secret);
      }
    }
  }

  /** If all token files are written, every answer is live when the run ends. */
  lemma {:induction false} WrittenAnswersLive(w: World, s: Store, entries: seq<Entry>, now: int)
    requires Sane(w) && WritesSucceed(w) && CacheLive(s, now) && DistinctKeys(entries)
    ensures var p := ProcessedAll(w, s, entries, now); AnswersStored(p, entries, now) && AnswersLive(p, entries)
  {
    if entries != [] {
      var init, e := entries[..|entries| - 1], entries[|entries| - 1];
      assert init + [e] == entries;
      assert DistinctKeys(init);
      WrittenAnswersLive(w, s, init, now);
      ProcessedAllKeepsLive(w, s, init, now);
      var p, r := ProcessedAll(w, s, init, now), ProcessedAll(w, s, entries, now);
      forall i | 0 <= i < |init| && init[i].key in p.output && p.output[init[i].key].Granted?
        ensures AnswerStored(p, init[i], now)
      {
      }
      OneMoreAnswerLive(w, p, init, e, now);
      forall i | 0 <= i < |entries| && entries[i].key in r.output && r.output[entries[i].key].Granted?
        ensures AnswerStored(r, entries[i], now)
      {
        if i < |init| {
          assert init[i] == entries[i] && entries[i].key != e.key;
          assert AnswerStored(p, init[i], now);
        }
      }
    }
  }

  /** Every answer is live at the end of a whole run in which all files are written, and equal
      names get equal tokens. */
  lemma RunAnswersLive(w: World, s: Store, entries: seq<Entry>, now: int, listing: seq<string>)
    requires Sane(w) && WritesSucceed(w) && CacheLive(s, now) && DistinctKeys(entries)
    ensures var p := AfterRun(w, s, entries, now, listing); AnswersLive(p, entries) && AnswersAgree(p, entries)
  {
    var p0 := ProcessedAll(w, s, entries, now);
    WrittenAnswersLive(w, s, entries, now);
    CollectionKeepsAnswers(w, s, entries, now, listing);
    AskedIsExpected(w, s, entries, now);
    forall i, j | 0 <= i < j < |entries| && NameFor(entries[i]) == NameFor(entries[j])
      ensures SameAnswer(p0.output, entries[i].key, entries[j].key)
    {
      if entries[i].key in p0.output && p0.output[entries[i].key].Granted?
         && entries[j].key in p0.output && p0.output[entries[j].key].Granted? {
        assert AnswerStored(p0, entries[i], now) && AnswerStored(p0, entries[j], now);
      }
    }
  }

  // ---- When files may fail to be written ----

  /** No two entries ask for the same token unless the stored one will do. */
  predicate NoRepeats(s: Store, entries: seq<Entry>, now: int) {
    forall i, j :: 0 <= i < j < |entries| ==> !Repeat(s, entries[i], entries[j], now)
  }

  predicate Repeat(s: Store, e: Entry, f: Entry, now: int) {
    NameFor(e).Some? && NameFor(e) == NameFor(f) && !Reusable(s.files, NameFor(e).value, now)
  }

  lemma {:induction false} UnrepeatedAnswersLive(w: World, s: Store, entries: seq<Entry>, now: int)
    requires CacheLive(s, now) && DistinctKeys(entries) && NoRepeats(s, entries, now)
    ensures AnswersLive(ProcessedAll(w, s, entries, now), entries)
  {
    if entries != [] {
      var init, e := entries[..|entries| - 1], entries[|entries| - 1];
      assert init + [e] == entries;
      assert DistinctKeys(init);
      forall i, j | 0 <= i < j < |init| ensures !Repeat(s, init[i], init[j], now) {
        assert !Repeat(s, entries[i], entries[j], now);
      }
      UnrepeatedAnswersLive(w, s, init, now);
      ProcessedAllKeepsLive(w, s, init, now);
      var p := ProcessedAll(w, s, init, now);
      forall i | 0 <= i < |init| && NameFor(e).Some? && NameFor(init[i]) == NameFor(e)
        ensures Reusable(p.store.files, NameFor(e).value, now)
      {
        assert !Repeat(s, entries[i], entries[|init|], now);
      }
      OneMoreAnswerLive(w, p, init, e, now);
    }
  }

  lemma {:induction false} ReusableAnswered(w: World, s: Store, entries: seq<Entry>, now: int, i: nat)
    requires CacheLive(s, now) && DistinctKeys(entries) && i < |entries|
    requires NameFor(entries[i]).Some? && Reusable(s.files, NameFor(entries[i]).value, now)
    ensures var out := ProcessedAll(w, s, entries, now).output;
      && entries[i].key in out && out[entries[i].key].Granted?
      && out[entries[i].key].secret == s.files[NameFor(entries[i]).value].secret
  {
    var init := entries[..|entries| - 1];
    if i < |init| {
      assert init[i] == entries[i] && entries[i].key != entries[|init|].key;
      ReusableAnswered(w, s, init, now, i);
    } else {
      ProcessedAllKeepsLive(w, s, init, now);
    }
  }

  function Repeated(n: nat): (r: string)
    ensures |r| == n
  {
    if n == 0 then "" else "x" + Repeated(n - 1)
  }

  /** The forge answers every call, with a longer token each time; no file is ever written. */
  ghost const READ_ONLY_DISK := World((n: nat) => true, (n: nat) => Some(Repeated(n + 1)), (n: nat) => false, (n: nat) => true)

  lemma UnsavedStep(s: Store, name: string, scopes: Scopes, now: int)
    ensures var (r, response) := Processed(READ_ONLY_DISK, s, name, scopes, now);
      && r.files == s.files && r.calls >= s.calls
      && (forall t :: t in r.live ==> t in s.live || |t.secret| > s.calls)
      && (!Reusable(s.files, name, now) ==>
            && response.Granted? && s.calls < |response.secret| <= r.calls
            && forall t :: t in r.live && t.name == name ==> t.secret == response.secret)
  {
  }

  lemma {:induction false} NothingSaved(s: Store, entries: seq<Entry>, now: int)
    ensures ProcessedAll(READ_ONLY_DISK, s, entries, now).store.files == s.files
  {
    if entries != [] {
      var init, e := entries[..|entries| - 1], entries[|entries| - 1];
      NothingSaved(s, init, now);
      if NameFor(e).Some? {
        UnsavedStep(ProcessedAll(READ_ONLY_DISK, s, init, now).store, NameFor(e).value, ScopesOf(GrantedAccess(e).value), now);
      }
    }
  }

  /** The token answered to `e`, made before the calls counted so far. */
  predicate AnsweredAnew(p: Progress, e: Entry) {
    e.key in p.output && p.output[e.key].Granted? && |p.output[e.key].secret| <= p.store.calls
  }

  /** All tokens of its name are newer than the one answered to `e`. */
  ghost predicate Outlived(p: Progress, e: Entry)
    requires AnsweredAnew(p, e) && NameFor(e).Some?
  {
    forall t :: t in p.store.live && t.name == NameFor(e).value ==> |t.secret| > |p.output[e.key].secret|
  }

  lemma AnswerStands(p: Progress, e: Entry, f: Entry, now: int)
    requires AnsweredAnew(p, e) && NameFor(e).Some? && e.key != f.key
    ensures var r := ProcessedOne(READ_ONLY_DISK, p, f, now);
      AnsweredAnew(r, e) && r.output[e.key] == p.output[e.key] && (Outlived(p, e) ==> Outlived(r, e))
  {
    if NameFor(f).Some? {
      UnsavedStep(p.store, NameFor(f).value, ScopesOf(GrantedAccess(f).value), now);
    }
  }

  lemma NewAnswer(p: Progress, e: Entry, now: int)
    requires NameFor(e).Some? && !Reusable(p.store.files, NameFor(e).value, now)
    ensures var r := ProcessedOne(READ_ONLY_DISK, p, e, now);
      && AnsweredAnew(r, e) && |r.output[e.key].secret| > p.store.calls
      && forall t :: t in r.store.live && t.name == NameFor(e).value ==> |t.secret| > p.store.calls
  {
    UnsavedStep(p.store, NameFor(e).value, ScopesOf(GrantedAccess(e).value), now);
  }

  /** In that world every token asked for anew is answered. */
  lemma {:induction false} UnsavedAnswers(s: Store, entries: seq<Entry>, now: int, i: nat)
    requires DistinctKeys(entries) && i < |entries|
    requires NameFor(entries[i]).Some? && !Reusable(s.files, NameFor(entries[i]).value, now)
    ensures AnsweredAnew(ProcessedAll(READ_ONLY_DISK, s, entries, now), entries[i])
  {
    var init, e := entries[..|entries| - 1], entries[|entries| - 1];
    var p := ProcessedAll(READ_ONLY_DISK, s, init, now);
    if i < |init| {
      assert init[i] == entries[i] && entries[i].key != e.key;
      UnsavedAnswers(s, init, now, i);
      AnswerStands(p, init[i], e, now);
    } else {
      NothingSaved(s, init, now);
      NewAnswer(p, e, now);
    }
  }

  /** The token answered first is revoked for the second: what is left of its name is newer. */
  lemma {:induction false} RepeatKillsFirst(s: Store, entries: seq<Entry>, now: int, i: nat, j: nat)
    requires DistinctKeys(entries) && i < j < |entries| && Repeat(s, entries[i], entries[j], now)
    ensures var p := ProcessedAll(READ_ONLY_DISK, s, entries, now);
      && AnsweredAnew(p, entries[i]) && AnsweredAnew(p, entries[j]) && Outlived(p, entries[i])
      && |p.output[entries[i].key].secret| < |p.output[entries[j].key].secret|
  {
    var init, e := entries[..|entries| - 1], entries[|entries| - 1];
    var p := ProcessedAll(READ_ONLY_DISK, s, init, now);
    assert init[i] == entries[i] && entries[i].key != e.key;
    if j < |init| {
      assert init[j] == entries[j] && entries[j].key != e.key;
      RepeatKillsFirst(s, init, now, i, j);
      AnswerStands(p, init[j], e, now);
    } else {
      UnsavedAnswers(s, init, now, i);
      NothingSaved(s, init, now);
      NewAnswer(p, e, now);
    }
    AnswerStands(p, init[i], e, now);
  }

  /** In whatever way the forge and the disk behave. */
  ghost predicate AlwaysLive(s: Store, entries: seq<Entry>, now: int, listing: seq<string>) {
    forall w: World :: Sane(w) ==> AnswersLive(AfterRun(w, s, entries, now, listing), entries)
  }

  ghost predicate AlwaysAgree(s: Store, entries: seq<Entry>, now: int, listing: seq<string>) {
    forall w: World :: Sane(w) ==> AnswersAgree(AfterRun(w, s, entries, now, listing), entries)
  }

  /** Main result when files may fail to be written: whether every answer is live at the end,
      in whatever way the forge and the disk behave, is exactly whether no two entries ask for
      the same token anew. The same condition decides whether equal names get equal tokens. */
  lemma AnswersLiveIff(s: Store, entries: seq<Entry>, now: int, listing: seq<string>)
    requires CacheLive(s, now) && DistinctKeys(entries)
    ensures AlwaysLive(s, entries, now, listing) <==> NoRepeats(s, entries, now)
    ensures AlwaysAgree(s, entries, now, listing) <==> NoRepeats(s, entries, now)
  {
    if NoRepeats(s, entries, now) {
      forall w: World
        ensures AnswersLive(AfterRun(w, s, entries, now, listing), entries)
        ensures AnswersAgree(AfterRun(w, s, entries, now, listing), entries)
      {
        UnrepeatedRun(w, s, entries, now, listing);
      }
    } else {
      RepeatsMatter(s, entries, now, listing);
    }
  }

  lemma RepeatsMatter(s: Store, entries: seq<Entry>, now: int, listing: seq<string>)
    requires DistinctKeys(entries) && !NoRepeats(s, entries, now)
    ensures !AlwaysLive(s, entries, now, listing) && !AlwaysAgree(s, entries, now, listing)
  {
    var i: nat, j: nat :| i < j < |entries| && Repeat(s, entries[i], entries[j], now);
    var w := READ_ONLY_DISK;
    assert Sane(w) by {
      assert forall n: nat :: w.generates(n) == Some(Repeated(n + 1)) && |Repeated(n + 1)| != 0;
    }
    RepeatedRun(s, entries, now, listing, i, j);
  }

  lemma UnrepeatedRun(w: World, s: Store, entries: seq<Entry>, now: int, listing: seq<string>)
    requires CacheLive(s, now) && DistinctKeys(entries) && NoRepeats(s, entries, now)
    ensures var p := AfterRun(w, s, entries, now, listing); AnswersLive(p, entries) && AnswersAgree(p, entries)
  {
    var p0 := ProcessedAll(w, s, entries, now);
    UnrepeatedAnswersLive(w, s, entries, now);
    CollectionKeepsAnswers(w, s, entries, now, listing);
    AskedIsExpected(w, s, entries, now);
    forall i, j | 0 <= i < j < |entries| && NameFor(entries[i]) == NameFor(entries[j])
      ensures SameAnswer(p0.output, entries[i].key, entries[j].key)
    {
      assert !Repeat(s, entries[i], entries[j], now);
      if NameFor(entries[i]).Some? {
        ReusableAnswered(w, s, entries, now, i);
        ReusableAnswered(w, s, entries, now, j);
      } else {
        GrantedKeys(w, s, entries, now, i);
      }
    }
  }

  lemma RepeatedRun(s: Store, entries: seq<Entry>, now: int, listing: seq<string>, i: nat, j: nat)
    requires DistinctKeys(entries) && i < j < |entries| && Repeat(s, entries[i], entries[j], now)
    ensures var p := AfterRun(READ_ONLY_DISK, s, entries, now, listing); !AnswersLive(p, entries) && !AnswersAgree(p, entries)
  {
    var p := AfterRun(READ_ONLY_DISK, s, entries, now, listing);
    RepeatKillsFirst(s, entries, now, i, j);
    CollectionKeepsAnswers(READ_ONLY_DISK, s, entries, now, listing);
    assert !LiveAs(p.store, NameFor(entries[i]).value, p.output[entries[i].key].secret);
    assert !SameAnswer(p.output, entries[i].key, entries[j].key);
  }

  // ---- Who may write ----

  /** Names end in their access, so they determine origin and access. */
  lemma TokenNamesInjective(o: string, a: string, p: string, b: string)
    requires a in {"ro", "rw"} && b in {"ro", "rw"} && TokenName(o, a) == TokenName(p, b)
    ensures o == p && a == b
  {
    var n, m := TokenName(o, a), TokenName(p, b);
    assert n[..|o|] == o && n[|o| + 1..] == a;
    assert m[..|p|] == p && m[|p| + 1..] == b;
  }

  /** Write tokens at the forge belong to the approved hosts, and every token's scopes are
      those of the access its name ends in. */
  ghost predicate ScopesMatch(live: set<Token>) {
    forall t :: t in live ==> exists o, a :: ScopedName(t, o, a)
  }

  predicate ScopedName(t: Token, o: string, a: string) {
    t.name == TokenName(o, a) && a in {"ro", "rw"} && t.scopes == ScopesOf(a) && (a == "rw" ==> o in RW_HOSTS)
  }

  lemma {:induction false} RunScopes(w: World, s: Store, entries: seq<Entry>, now: int)
    requires ScopesMatch(s.live)
    ensures ScopesMatch(ProcessedAll(w, s, entries, now).store.live)
  {
    if entries != [] {
      var init, e := entries[..|entries| - 1], entries[|entries| - 1];
      RunScopes(w, s, init, now);
      var p, r := ProcessedAll(w, s, init, now), ProcessedAll(w, s, entries, now);
      var access := GrantedAccess(e);
      forall t | t in r.store.live ensures exists o, a :: ScopedName(t, o, a) {
        if t !in p.store.live {
          assert ScopedName(t, OriginOf(e.key), access.value);
        }
      }
    }
  }

  /** Over any sequence of runs, whatever fails: no token that can write is ever issued for a
      host that is not approved, nor under a read-only name. */
  lemma {:induction false} HistoryScopes(w: World, s: Store, runs: seq<Run>)
    requires ScopesMatch(s.live)
    ensures ScopesMatch(History(w, s, runs).live)
  {
    if runs != [] {
      var r := runs[|runs| - 1];
      var before := History(w, s, runs[..|runs| - 1]);
      HistoryScopes(w, s, runs[..|runs| - 1]);
      RunScopes(w, before, r.entries, r.now);
      var p := ProcessedAll(w, before, r.entries, r.now);
      CollectedFiles(w, p.store, r.listing, p.expected);
    }
  }

  lemma WriteTokensApproved(live: set<Token>, t: Token, origin: string, access: string)
    requires ScopesMatch(live) && t in live && access in {"ro", "rw"} && t.name == TokenName(origin, access)
    ensures t.scopes == ReadWrite <==> access == "rw"
    ensures t.scopes == ReadWrite ==> origin in RW_HOSTS
  {
    var o, a :| ScopedName(t, o, a);
    TokenNamesInjective(origin, access, o, a);
  }

  // ---- Rotation is not gratuitous ----

  /** A later run that asks for the same token while more than the threshold is left answers
      it again without any call to the forge. */
  lemma ReuseIsFree(w: World, p: Progress, e: Entry, now: int, later: int)
    requires e.key in p.output && p.output[e.key].Granted? && AnswerStored(p, e, now)
    requires p.store.files[NameFor(e).value].expiry - later > ROTATION_THRESHOLD
    ensures var (r, response) :=
        Processed(w, p.store, NameFor(e).value, ScopesOf(GrantedAccess(e).value), later);
      r == p.store && response.Granted? && response.secret == p.output[e.key].secret
  {
  }

  // ---- What a request gets ----

  /** The state key of a request from this origin, with or without a need id. */
  function KeyOf(origin: string, needId: Option<string>): string {
    if needId.Some? then origin + [':'] + needId.value else origin
  }

  /** The token a request gets is named after its origin and the access it asks for, read-only
      if it does not say; only two hosts get write access, and nothing else is granted. */
  lemma NameForRequest(origin: string, needId: Option<string>, request: Request)
    requires ':' !in origin
    ensures NameFor(Entry(KeyOf(origin, needId), request)) ==
      if request.Request? && request.access in {"", "ro"} then Some(origin + "-" + "ro")
      else if request.Request? && request.access == "rw" && origin in {"ratched", "obrien"} then Some(origin + "-" + "rw")
      else None
  {
    SplitOnceJoins(origin, ':', if needId.Some? then needId.value else "");
  }

  /** If the forge makes the tokens it is asked for, a request is answered with a token
      exactly if it is granted one. */
  lemma {:induction false} GrantedIffNamed(w: World, s: Store, entries: seq<Entry>, now: int, i: nat)
    requires DistinctKeys(entries) && i < |entries| && forall n: nat :: w.generates(n).Some?
    ensures var out := ProcessedAll(w, s, entries, now).output;
      entries[i].key in out && (out[entries[i].key].Granted? <==> NameFor(entries[i]).Some?)
  {
    var init := entries[..|entries| - 1];
    if i < |init| {
      assert init[i] == entries[i] && entries[i].key != entries[|init|].key;
      GrantedIffNamed(w, s, init, now, i);
    }
  }

  /** A token is kept exactly while more than two hours of it are left, and then answered as it
      is. Otherwise the forge is called twice: what it makes is answered with a full day to
      live, and stored so if the file can be written; if it makes nothing, so is the answer. */
  lemma RotatedIff(w: World, s: Store, name: string, scopes: Scopes, now: int)
    ensures var (r, response) := Processed(w, s, name, scopes, now);
      if name in s.files && s.files[name].secret != "" && s.files[name].expiry - now > 2 * 60 * 60
      then r == s && response == Granted(s.files[name].secret, s.files[name].expiry - now)
      else
        && r.calls == s.calls + 2
        && (match w.generates(s.calls + 1)
            case None => response == Refused && r.files == s.files
            case Some(secret) =>
              && response == Granted(secret, 24 * 60 * 60)
              && Token(name, secret, scopes) in r.live
              && r.files == if w.saves(s.calls + 1) then s.files[name := Stored(secret, now + 24 * 60 * 60)] else s.files)
  {
  }

  /** Main result on what a request gets: after a run in which files are written, the token it
      is answered with is live, under the name of its origin and access, and can write exactly
      if it asked for that. */
  lemma AnswerHasScopes(w: World, s: Store, entries: seq<Entry>, now: int, listing: seq<string>, i: nat)
    requires Sane(w) && WritesSucceed(w) && CacheLive(s, now) && DistinctKeys(entries) && ScopesMatch(s.live)
    requires i < |entries|
    requires var out := AfterRun(w, s, entries, now, listing).output;
      entries[i].key in out && out[entries[i].key].Granted?
    ensures var p, e := AfterRun(w, s, entries, now, listing), entries[i];
      e.request.Request? &&
      var access := if e.request.access == "" then "ro" else e.request.access;
      Token(TokenName(OriginOf(e.key), access), p.output[e.key].secret, if e.request.access == "rw" then ReadWrite else ReadOnly)
        in p.store.live
  {
    var p0, p, e := ProcessedAll(w, s, entries, now), AfterRun(w, s, entries, now, listing), entries[i];
    RunAnswersLive(w, s, entries, now, listing);
    RunScopes(w, s, entries, now);
    CollectedFiles(w, p0.store, listing, p0.expected);
    assert NameFor(e).Some? && LiveAs(p.store, NameFor(e).value, p.output[e.key].secret);
    var t :| t in p.store.live && t.name == NameFor(e).value && t.secret == p.output[e.key].secret;
    WriteTokensApproved(p0.store.live, t, OriginOf(e.key), GrantedAccess(e).value);
  }
}
