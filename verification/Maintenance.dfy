// The maintenance commands of the control plane (pkgs/fort-provider/main.go): triggers and
// garbage collection. Each is a process of its own that reads the state file, works on its
// copy and may write it back. Steps of different processes are serialised.
module Maintenance {
  import opened Wrappers
  import opened JsonEquality
  import opened StateKeys
  import opened ControlPlane

  datatype CapabilityConfig = CapabilityConfig(mode: string, needsGC: bool, ttl: int)

  type Capabilities = map<string, CapabilityConfig>

  /** What an origin answers when a capability's sweep asks for its declared needs; None is
      any failure to get a successful answer. */
  type Query = (string, string) -> Option<set<string>>

  /** What a capability's handler answers when invoked by the sweep; None is any failure. */
  type Handlers = string -> Option<Output>

  const ROTATION_THRESHOLD := 2 * 60 * 60

  predicate Managed(caps: Capabilities, c: string) {
    c in caps && !(caps[c].mode == "rpc" && !caps[c].needsGC)
  }

  /** The origin answered, and its answer does not list the entry's need. */
  predicate PositivelyAbsent(capability: string, key: string, query: Query) {
    var (origin, needId) := ParseStateKey(key);
    var needs := query(capability, origin);
    needs.Some? && NeedIdToPath(capability, needId) !in needs.value
  }

  function Orphaned(capability: string, entries: Entries, query: Query): set<string> {
    set k | k in entries && PositivelyAbsent(capability, k, query)
  }

  function Kept(capability: string, entries: Entries, query: Query): Entries {
    entries - Orphaned(capability, entries, query)
  }

  /** The state with orphaned entries removed from the managed capabilities among `done`. */
  function SweptOf(caps: Capabilities, st: State, query: Query, done: set<string>): State {
    map c | c in st :: if c in done && Managed(caps, c) then Kept(c, st[c], query) else st[c]
  }

  function Swept(caps: Capabilities, st: State, query: Query): State {
    SweptOf(caps, st, query, caps.Keys)
  }

  function AllEntries(st: State): set<Address> {
    set c, k | c in st && k in st[c] :: Address(c, k)
  }

  /** Capabilities that lost an entry. */
  function Modified(caps: Capabilities, st: State, query: Query): set<string> {
    set c | c in caps && Managed(caps, c) && c in st && Orphaned(c, st[c], query) != {}
  }

  /** A sweep's handler results update known entries, errors included. */
  function Refreshed(entries: Entries, output: Output, now: int): Entries {
    map k | k in entries :: if k in output then entries[k].(response := output[k], updatedAt := now) else entries[k]
  }

  /** The sweeping process's copy after the handlers of `cs` have run. */
  function RefreshedOf(st: State, cs: set<string>, handlers: Handlers, now: int): State {
    map c | c in st :: if c in cs && handlers(c).Some? then Refreshed(st[c], handlers(c).value, now) else st[c]
  }

  predicate Expiring(entry: Entry, ttl: int, now: int) {
    entry.response != "" && entry.updatedAt + ttl - now <= ROTATION_THRESHOLD
  }

  function Expired(caps: Capabilities, st: State, now: int): set<string> {
    set c | c in caps && caps[c].ttl > 0 && c in st && exists k :: k in st[c] && Expiring(st[c][k], caps[c].ttl, now)
  }

  /** Known keys whose response a rotation changed. */
  function Rotated(parse: Parser, entries: Entries, output: Output): set<string> {
    set k | k in entries && k in output && !JsonEqual(parse, entries[k].response, output[k])
  }

  /** What the rotation of the capabilities `cs` sends to one recipient; capabilities that
      were just cleaned up are skipped. */
  function RotationOf(parse: Parser, st: State, modified: set<string>, handlers: Handlers, cs: set<string>, a: Address): seq<Sent> {
    var c := a.capability;
    if c in cs && c !in modified && c in st && handlers(c).Some?
    then Batch(c, Rotated(parse, st[c], handlers(c).value), handlers(c).value, false, a) else []
  }

  /** What a whole sweep sends to one recipient. */
  function SweepSends(parse: Parser, caps: Capabilities, st: State, query: Query, handlers: Handlers, now: int, a: Address): seq<Sent> {
    if st == map[] then []
    else
      var modified := Modified(caps, st, query);
      var copy := RefreshedOf(Swept(caps, st, query), modified, handlers, now);
      RotationOf(parse, copy, modified, handlers, Expired(caps, copy, now), a)
  }

  // ---- The commands ----

  /** One iteration of a trigger's response loop. */
  method StoreResponse(parse: Parser, ghost entries: Entries, ghost done: Output, key: string, response: string, now: int,
                       state: Entries, changed: set<string>) returns (state': Entries, changed': set<string>)
    requires key !in done
    requires state == Stored(entries, done, now) && changed == Changed(parse, entries, done)
    ensures state' == Stored(entries, done[key := response], now)
    ensures changed' == Changed(parse, entries, done[key := response])
  {
    StoreOneMore(entries, done, key, response, now);
    ChangeOneMore(parse, entries, done, key, response);
    UnstoredResponse(entries, done, key, now);
    var entry := if key in state then state[key] else Entry("", "", 0);
    changed' := changed;
    if !JsonEqual(parse, entry.response, response) {
      changed' := changed + {key};
    }
    state' := state[key := entry.(response := response, updatedAt := now)];
  }

  /** A trigger's response loop: every answer is stored, whether error or new key. */
  method StoreResponses(parse: Parser, entries: Entries, output: Output, now: int) returns (state: Entries, changed: set<string>)
    ensures state == Stored(entries, output, now)
    ensures changed == Changed(parse, entries, output)
  {
    state, changed := entries, {};
    var rest := output.Keys;
    NothingStored(parse, entries, now);
    assert output - rest == map[];
    while rest != {}
      invariant rest <= output.Keys
      invariant changed == Changed(parse, entries, output - rest)
      invariant state == Stored(entries, output - rest, now)
    {
      var key :| key in rest;
      state, changed := StoreResponse(parse, entries, output - rest, key, output[key], now, state, changed);
      assert output - (rest - {key}) == (output - rest)[key := output[key]];
      rest := rest - {key};
    }
    assert output - rest == output;
  }

  lemma NothingStored(parse: Parser, entries: Entries, now: int)
    ensures Stored(entries, map[], now) == entries && Changed(parse, entries, map[]) == {}
  {
  }

  /** Asks each origin once; origins that could not be asked are left out. */
  method AskOrigins(capability: string, origins: set<string>, query: Query) returns (answers: map<string, set<string>>)
    ensures forall o :: o in answers <==> o in origins && query(capability, o).Some?
    ensures forall o :: o in answers ==> answers[o] == query(capability, o).value
  {
    answers := map[];
    var rest := origins;
    while rest != {}
      invariant rest <= origins
      invariant forall o :: o in answers <==> o in origins && o !in rest && query(capability, o).Some?
      invariant forall o :: o in answers ==> answers[o] == query(capability, o).value
    {
      var origin :| origin in rest;
      var needs := query(capability, origin);
      if needs.Some? {
        answers := answers[origin := needs.value];
      }
      rest := rest - {origin};
    }
  }

  /** The answers are those of the origins of these entries. */
  ghost predicate AnswersFor(capability: string, entries: Entries, answers: map<string, set<string>>, query: Query) {
    forall k :: k in entries ==>
      var o := ParseStateKey(k).0;
      && (o in answers <==> query(capability, o).Some?)
      && (o in answers ==> query(capability, o) == Some(answers[o]))
  }

  /** One iteration of the search for orphans: is the entry's need missing from what its
      origin declared? */
  method CheckEntry(capability: string, ghost entries: Entries, answers: map<string, set<string>>, ghost query: Query,
                    key: string, found: set<string>, ghost left: set<string>) returns (found': set<string>)
    requires AnswersFor(capability, entries, answers, query) && key in entries && key in left
    requires found == Orphaned(capability, entries, query) - left
    ensures found' == Orphaned(capability, entries, query) - (left - {key})
  {
    var (origin, needId) := ParseStateKey(key);
    assert key in Orphaned(capability, entries, query) <==> PositivelyAbsent(capability, key, query);
    found' := found;
    if origin in answers {
      var needPath := NeedIdToPath(capability, needId);
      if needPath !in answers[origin] {
        found' := found + {key};
      }
    }
  }

  method FindOrphans(capability: string, entries: Entries, answers: map<string, set<string>>, ghost query: Query)
      returns (keysToRemove: set<string>)
    requires AnswersFor(capability, entries, answers, query)
    ensures keysToRemove == Orphaned(capability, entries, query)
  {
    keysToRemove := {};
    var left := entries.Keys;
    OrphansAreEntries(capability, entries, query);
    while left != {}
      invariant left <= entries.Keys
      invariant keysToRemove == Orphaned(capability, entries, query) - left
    {
      var key :| key in left;
      keysToRemove := CheckEntry(capability, entries, answers, query, key, keysToRemove, left);
      left := left - {key};
    }
  }

  lemma OrphansAreEntries(capability: string, entries: Entries, query: Query)
    ensures Orphaned(capability, entries, query) - entries.Keys == {}
  {
  }

  /** The sweep of one capability: ask each origin, then drop what it does not declare. */
  method SweepCapability(capability: string, entries: Entries, query: Query) returns (kept: Entries, removed: nat)
    ensures kept == Kept(capability, entries, query)
    ensures removed == |Orphaned(capability, entries, query)|
  {
    var origins := set k | k in entries :: ParseStateKey(k).0;
    var answers := AskOrigins(capability, origins, query);
    forall k | k in entries
      ensures var o := ParseStateKey(k).0;
        (o in answers <==> query(capability, o).Some?) && (o in answers ==> query(capability, o) == Some(answers[o]))
    {
      assert ParseStateKey(k).0 in origins;
    }
    var keysToRemove := FindOrphans(capability, entries, answers, query);
    kept := entries - keysToRemove;
    removed := |keysToRemove|;
  }

  /** The sweep after the capabilities in `done`. */
  ghost predicate SweepProgress(caps: Capabilities, st: State, query: Query, done: set<string>,
                                swept: State, removed: nat, modified: set<string>) {
    && swept == SweptOf(caps, st, query, done)
    && removed == |AllEntries(st)| - |AllEntries(swept)|
    && modified == Modified(caps, st, query) * done
  }

  lemma SweepStarts(caps: Capabilities, st: State, query: Query)
    ensures SweepProgress(caps, st, query, {}, st, 0, {})
  {
  }

  lemma SweepEnds(caps: Capabilities, st: State, query: Query, swept: State, removed: nat, modified: set<string>)
    requires SweepProgress(caps, st, query, caps.Keys, swept, removed, modified)
    ensures swept == Swept(caps, st, query) && modified == Modified(caps, st, query)
    ensures removed == |AllEntries(st)| - |AllEntries(swept)|
  {
  }

  method SweepNext(caps: Capabilities, ghost st: State, query: Query, ghost done: set<string>, c: string,
                   swept: State, removed: nat, modified: set<string>)
      returns (swept': State, removed': nat, modified': set<string>)
    requires c in caps && c !in done && SweepProgress(caps, st, query, done, swept, removed, modified)
    ensures SweepProgress(caps, st, query, done + {c}, swept', removed', modified')
  {
    swept', removed', modified' := swept, removed, modified;
    SweptOneMore(caps, st, query, done, c);
    if caps[c].mode == "rpc" && !caps[c].needsGC {
      return;
    }
    if c !in swept || swept[c] == map[] {
      return;
    }
    var kept, n := SweepCapability(c, swept[c], query);
    RemovalCount(swept, c, Orphaned(c, swept[c], query));
    if n > 0 {
      modified' := modified + {c};
    }
    swept' := swept[c := kept];
    removed' := removed + n;
  }

  /** The sweep over all capabilities, in whatever order the configuration yields them. */
  method SweepAll(caps: Capabilities, st: State, query: Query)
      returns (swept: State, removed: nat, modified: set<string>)
    ensures swept == Swept(caps, st, query)
    ensures removed == |AllEntries(st)| - |AllEntries(swept)|
    ensures modified == Modified(caps, st, query)
  {
    swept, removed, modified := st, 0, {};
    SweepStarts(caps, st, query);
    var rest := caps.Keys;
    assert caps.Keys - rest == {};
    while rest != {}
      invariant rest <= caps.Keys
      invariant SweepProgress(caps, st, query, caps.Keys - rest, swept, removed, modified)
    {
      var c :| c in rest;
      swept, removed, modified := SweepNext(caps, st, query, caps.Keys - rest, c, swept, removed, modified);
      assert caps.Keys - (rest - {c}) == (caps.Keys - rest) + {c};
      rest := rest - {c};
    }
    assert caps.Keys - rest == caps.Keys;
    SweepEnds(caps, st, query, swept, removed, modified);
  }

  class StateFile {
    const parse: Parser
    var disk: State
    ghost var sent: History

    ghost function Contents(): Plane
      reads this
    {
      Plane(disk, disk, sent)
    }

    constructor (parse: Parser, disk: State)
      ensures this.parse == parse && Contents() == Plane(disk, disk, NOTHING_SENT)
    {
      this.parse := parse;
      this.disk := disk;
      sent := NOTHING_SENT;
    }

    method DispatchCallbacks(capability: string, keys: set<string>, responses: Output, ghost revocation: bool)
      modifies this`sent
      ensures sent == Dispatched(old(sent), capability, keys, responses, revocation)
    {
      var sender := new AgentHandler(parse, map[]);
      sender.sent := sent;
      sender.DispatchCollected(capability, keys, responses, revocation);
      sent := sender.sent;
    }

    /** A systemd trigger or forced refresh; `ok` is false on the command's error exits. */
    method RunTrigger(caps: Capabilities, capability: string, handler: Option<Output>, now: int, saveOk: bool)
        returns (ok: bool)
      modifies this
      ensures capability !in caps ==> !ok && Contents() == old(Contents())
      ensures ok <==> capability in caps && (EntriesOf(old(disk), capability) == map[] || (handler.Some? && saveOk))
      ensures capability in caps ==> disk == AfterTrigger(parse, old(Contents()), capability, handler, now, saveOk).disk
      ensures capability in caps ==> sent == AfterTrigger(parse, old(Contents()), capability, handler, now, saveOk).sent
    {
      if capability !in caps {
        return false;
      }
      if capability !in disk || disk[capability] == map[] {
        return true;
      }
      if handler.None? {
        return false;
      }
      var output := handler.value;
      ghost var entries := disk[capability];
      var state, changed := StoreResponses(parse, disk[capability], output, now);
      var revoked := set k | k in state && state[k].response != "" && k !in output;
      assert revoked == Revoked(entries, output);
      if !saveOk {
        return false;
      }
      disk := disk[capability := state];
      DispatchCallbacks(capability, changed, output, false);
      var empties := map k | k in revoked :: REVOCATION;
      DispatchCallbacks(capability, revoked, empties, true);
      return true;
    }

    /** One handler invocation of the sweep; the result reaches only the process's own copy. */
    method InvokeHandlerForGC(c: string, entries: Entries, handler: Option<Output>, now: int, dispatch: bool)
        returns (state: Entries)
      modifies this`sent
      ensures state == if handler.Some? then Refreshed(entries, handler.value, now) else entries
      ensures sent == if dispatch && handler.Some?
                      then Dispatched(old(sent), c, Rotated(parse, entries, handler.value), handler.value, false)
                      else old(sent)
    {
      state := entries;
      if handler.None? {
        return;
      }
      var output := handler.value;
      var changed: set<string> := {};
      var rest := output.Keys;
      ghost var done: Output := map[];
      while rest != {}
        invariant rest <= output.Keys
        invariant done == map k | k in output && k !in rest :: output[k]
        invariant state == Refreshed(entries, done, now)
        invariant changed == if dispatch then Rotated(parse, entries, done) else {}
      {
        var key :| key in rest;
        if key in state {
          if dispatch && !JsonEqual(parse, state[key].response, output[key]) {
            changed := changed + {key};
          }
          state := state[key := state[key].(response := output[key], updatedAt := now)];
        }
        done := done[key := output[key]];
        rest := rest - {key};
      }
      assert done == output;
      if dispatch {
        DispatchCallbacks(c, changed, output, false);
      }
    }

    /** The whole sweep: `ok` is false if the file could not be written. */
    method RunGC(caps: Capabilities, query: Query, handlers: Handlers, now: int, saveOk: bool)
        returns (ok: bool, removed: nat)
      modifies this
      ensures ok <==> saveOk || removed == 0
      ensures removed == |AllEntries(old(disk))| - |AllEntries(Swept(caps, old(disk), query))|
      ensures disk == if ok then Swept(caps, old(disk), query) else old(disk)
      ensures !ok ==> sent == old(sent)
      ensures ok ==> forall a: Address :: sent[a] == old(sent)[a] + SweepSends(parse, caps, old(disk), query, handlers, now, a)
    {
      if disk == map[] {
        assert Swept(caps, disk, query) == map[];
        assert forall a: Address :: sent[a] + [] == sent[a];
        return true, 0;
      }
      var state, modified;
      state, removed, modified := SweepAll(caps, disk, query);
      if removed > 0 {
        if !saveOk {
          return false, removed;
        }
        disk := state;
      } else {
        SameSizeSameState(caps, disk, query);
      }
      ok := true;
      var copy := CleanUp(state, modified, handlers, now);
      Rotate(caps, copy, modified, handlers, now);
    }

    method CleanUp(st: State, modified: set<string>, handlers: Handlers, now: int) returns (state: State)
      requires modified <= st.Keys
      modifies this`sent
      ensures state == RefreshedOf(st, modified, handlers, now) && sent == old(sent)
    {
      state := st;
      var rest := modified;
      while rest != {}
        invariant rest <= modified && sent == old(sent)
        invariant state == RefreshedOf(st, modified - rest, handlers, now)
      {
        var c :| c in rest;
        var entries := InvokeHandlerForGC(c, state[c], handlers(c), now, false);
        state := state[c := entries];
        rest := rest - {c};
      }
      assert modified - rest == modified;
    }

    method Rotate(caps: Capabilities, st: State, modified: set<string>, handlers: Handlers, now: int)
      modifies this`sent
      ensures RotatedSoFar(parse, st, modified, handlers, Expired(caps, st, now), old(sent), sent)
    {
      var needed := set c | c in caps && caps[c].ttl > 0 && c in st
                            && exists k :: k in st[c] && Expiring(st[c][k], caps[c].ttl, now);
      assert needed == Expired(caps, st, now);
      var rest := needed;
      RotatedNone(parse, st, modified, handlers, sent);
      assert needed - rest == {};
      while rest != {}
        invariant rest <= needed
        invariant RotatedSoFar(parse, st, modified, handlers, needed - rest, old(sent), sent)
      {
        var c :| c in rest;
        ghost var before := sent;
        if c !in modified {
          var _ := InvokeHandlerForGC(c, st[c], handlers(c), now, true);
        }
        RotatedOneMore(parse, st, modified, handlers, needed - rest, c, old(sent), before, sent);
        assert needed - (rest - {c}) == (needed - rest) + {c};
        rest := rest - {c};
      }
      assert needed - rest == needed;
    }
  }

  lemma StoreOneMore(entries: Entries, done: Output, key: string, response: string, now: int)
    requires key !in done
    ensures var st := Stored(entries, done, now);
      Stored(entries, done[key := response], now) ==
      st[key := Entry(if key in st then st[key].request else "", response, now)]
  {
  }

  lemma ChangeOneMore(parse: Parser, entries: Entries, done: Output, key: string, response: string)
    requires key !in done
    ensures Changed(parse, entries, done[key := response]) ==
      Changed(parse, entries, done) + if JsonEqual(parse, ResponseOf(entries, key), response) then {} else {key}
  {
  }

  lemma UnstoredResponse(entries: Entries, done: Output, key: string, now: int)
    requires key !in done
    ensures ResponseOf(Stored(entries, done, now), key) == ResponseOf(entries, key)
  {
  }

  lemma SweptOneMore(caps: Capabilities, st: State, query: Query, done: set<string>, c: string)
    requires c in caps && c !in done
    ensures var s := SweptOf(caps, st, query, done);
      && SweptOf(caps, st, query, done + {c}) ==
         (if Managed(caps, c) && c in s && s[c] != map[] then s[c := Kept(c, s[c], query)] else s)
      && Modified(caps, st, query) * (done + {c}) ==
         Modified(caps, st, query) * done +
         (if Managed(caps, c) && c in s && s[c] != map[] && |Orphaned(c, s[c], query)| > 0 then {c} else {})
  {
    if c in st && st[c] == map[] {
      assert Kept(c, st[c], query) == st[c];
    }
  }

  ghost predicate RotatedSoFar(parse: Parser, st: State, modified: set<string>, handlers: Handlers, cs: set<string>,
                               start: History, sent: History) {
    forall a: Address :: sent[a] == start[a] + RotationOf(parse, st, modified, handlers, cs, a)
  }

  lemma RotatedNone(parse: Parser, st: State, modified: set<string>, handlers: Handlers, sent: History)
    ensures RotatedSoFar(parse, st, modified, handlers, {}, sent, sent)
  {
    assert forall a: Address :: sent[a] + [] == sent[a];
  }

  lemma RotatedOneMore(parse: Parser, st: State, modified: set<string>, handlers: Handlers, cs: set<string>, c: string,
                       start: History, before: History, after: History)
    requires c !in cs && c in st && RotatedSoFar(parse, st, modified, handlers, cs, start, before)
    requires after == if c !in modified && handlers(c).Some?
                      then Dispatched(before, c, Rotated(parse, st[c], handlers(c).value), handlers(c).value, false)
                      else before
    ensures RotatedSoFar(parse, st, modified, handlers, cs + {c}, start, after)
  {
    forall a: Address
      ensures after[a] == start[a] + RotationOf(parse, st, modified, handlers, cs + {c}, a)
    {
      RotatedOne(parse, st, modified, handlers, cs, c, a, start[a]);
      assert before[a] + [] == before[a];
    }
  }

  lemma RotatedOne(parse: Parser, st: State, modified: set<string>, handlers: Handlers, cs: set<string>, c: string,
                   a: Address, h: seq<Sent>)
    requires c !in cs
    ensures h + RotationOf(parse, st, modified, handlers, cs + {c}, a) ==
            h + RotationOf(parse, st, modified, handlers, cs, a) + RotationOf(parse, st, modified, handlers, {c}, a)
  {
    assert h + [] == h;
  }

  lemma {:induction false} AddressCount(c: string, keys: set<string>)
    ensures |set k | k in keys :: Address(c, k)| == |keys|
  {
    if keys != {} {
      var k :| k in keys;
      AddressCount(c, keys - {k});
      assert (set x | x in keys :: Address(c, x)) == (set x | x in keys - {k} :: Address(c, x)) + {Address(c, k)};
    }
  }

  /** Removing entries of one capability lowers the number of entries by as many. */
  lemma RemovalCount(st: State, c: string, orphans: set<string>)
    requires c in st && orphans <= st[c].Keys
    ensures |AllEntries(st)| - |AllEntries(st[c := st[c] - orphans])| == |orphans|
  {
    var gone := set k | k in orphans :: Address(c, k);
    AddressCount(c, orphans);
    assert AllEntries(st[c := st[c] - orphans]) == AllEntries(st) - gone;
    assert gone <= AllEntries(st);
  }

  lemma SubsetOfSameSize<T>(a: set<T>, b: set<T>)
    requires a <= b && |a| == |b|
    ensures a == b
  {
    assert |b - a| == |b| - |a|;
  }

  lemma SameSizeSameState(caps: Capabilities, st: State, query: Query)
    requires |AllEntries(Swept(caps, st, query))| == |AllEntries(st)|
    ensures Swept(caps, st, query) == st
  {
    var swept: State := Swept(caps, st, query);
    SubsetOfSameSize(AllEntries(swept), AllEntries(st));
    forall c | c in st ensures swept[c] == st[c] {
      forall k | k in st[c] ensures k in swept[c] {
        assert Address(c, k) in AllEntries(swept);
      }
    }
  }

  // ---- What collection removes and keeps ----

  predicate Has(st: State, c: string, k: string) {
    c in st && k in st[c]
  }

  /** Main result for one sweep: an entry disappears exactly on positive absence, and what
      stays is unchanged. So after a sweep that reached an origin no undeclared entry of
      that origin is left in a managed capability, and an unreachable origin loses nothing. */
  lemma RemovedIffPositivelyAbsent(caps: Capabilities, st: State, query: Query, c: string, k: string)
    ensures var swept: State := Swept(caps, st, query);
      && (Has(swept, c, k) <==> Has(st, c, k) && !Undeclared(caps, query, c, k))
      && (Has(swept, c, k) ==> swept[c][k] == st[c][k])
  {
  }

  /** The capability is collected, and the entry's origin answered without the entry's need. */
  predicate Undeclared(caps: Capabilities, query: Query, c: string, k: string) {
    var (origin, needId) := ParseStateKey(k);
    && c in caps && (caps[c].mode != "rpc" || caps[c].needsGC)
    && query(c, origin).Some? && NeedIdToPath(c, needId) !in query(c, origin).value
  }

  /** For a recorded well-formed need, positive absence is the origin's own statement that it
      no longer declares "<capability>/<name>". */
  lemma AbsenceOfRecordedNeed(origin: string, capability: string, name: string, query: Query)
    requires ':' !in origin && capability != "" && '/' !in capability && name != ""
    ensures PositivelyAbsent(capability, MakeStateKey(origin, capability + "-" + name), query) <==>
            query(capability, origin).Some? && capability + "/" + name !in query(capability, origin).value
  {
    AddressingRoundTrip(origin, capability, name);
  }

  /** An entry recorded without a need id is collected by the first sweep that reaches its
      origin, whatever needs the origin declares. */
  lemma NamelessEntryAlwaysCollected(origin: string, capability: string, query: Query)
    requires ':' !in origin && query(capability, origin).Some? && "" !in query(capability, origin).value
    ensures PositivelyAbsent(capability, MakeStateKey(origin, ""), query)
  {
    StateKeyRoundTripIff(origin, "");
  }

  /** Serialised steps on one state: requests, boot initialisations, triggers and sweeps. */
  datatype Event =
    | Request(capability: string, origin: string, body: string, output: Option<Output>, now: int)
    | Init(capability: string, output: Option<Output>, now: int)
    | Trigger(capability: string, output: Option<Output>, now: int, saveOk: bool)
    | Sweep(caps: Capabilities, query: Query, saveOk: bool)

  ghost function Next(parse: Parser, st: State, e: Event): State {
    var b := Plane(st, st, NOTHING_SENT);
    match e
    case Request(capability, origin, body, output, now) =>
      AfterRequest(parse, b, capability, origin, body, output, now, true).memory
    case Init(capability, output, now) => AfterInit(parse, b, capability, output, now, true).memory
    case Trigger(capability, output, now, saveOk) => AfterTrigger(parse, b, capability, output, now, saveOk).disk
    case Sweep(caps, query, saveOk) => if saveOk then Swept(caps, st, query) else st
  }

  ghost function Run(parse: Parser, st: State, es: seq<Event>): State {
    if es == [] then st else Next(parse, Run(parse, st, es[..|es| - 1]), es[|es| - 1])
  }

  /** The origin's answer, whenever a sweep gets one, lists the entry's need. */
  predicate Declares(e: Event, c: string, k: string) {
    e.Sweep? ==> !PositivelyAbsent(c, k, e.query)
  }

  lemma StepKeeps(parse: Parser, st: State, e: Event, c: string, k: string)
    requires Has(st, c, k) && Declares(e, c, k)
    ensures Has(Next(parse, st, e), c, k)
  {
  }

  /** Main result over runs: as long as an entry's origin keeps declaring its need, or cannot
      be reached, the entry is never collected. */
  lemma {:induction false} DeclaredNeverCollected(parse: Parser, st: State, es: seq<Event>, c: string, k: string)
    requires Has(st, c, k)
    requires forall i :: 0 <= i < |es| ==> Declares(es[i], c, k)
    ensures Has(Run(parse, st, es), c, k)
  {
    if es != [] {
      DeclaredNeverCollected(parse, st, es[..|es| - 1], c, k);
      StepKeeps(parse, Run(parse, st, es[..|es| - 1]), es[|es| - 1], c, k);
    }
  }

  /** A collected entry stays away unless its origin asks again or a handler's trigger output
      names it. */
  lemma {:induction false} CollectedStaysAway(parse: Parser, st: State, es: seq<Event>, c: string, k: string)
    requires !Has(st, c, k)
    requires forall i :: 0 <= i < |es| ==> !Revives(parse, es[i], c, k)
    ensures !Has(Run(parse, st, es), c, k)
  {
    if es != [] {
      CollectedStaysAway(parse, st, es[..|es| - 1], c, k);
      StepStaysAway(parse, Run(parse, st, es[..|es| - 1]), es[|es| - 1], c, k);
    }
  }

  predicate RequestedBy(parse: Parser, e: Event, c: string, k: string) {
    e.Request? && e.capability == c && MakeStateKey(e.origin, ExtractNeedId(parse, e.body)) == k
  }

  lemma StepKeepsRequest(parse: Parser, st: State, e: Event, c: string, k: string)
    requires (Has(st, c, k) && Declares(e, c, k)) || RequestedBy(parse, e, c, k)
    ensures Has(Next(parse, st, e), c, k)
    ensures Next(parse, st, e)[c][k].request == if RequestedBy(parse, e, c, k) then e.body else st[c][k].request
  {
    var b, a := Plane(st, st, NOTHING_SENT), Address(c, k);
    match e {
      case Request(capability, origin, body, output, now) =>
        EntryAfter(parse, b, ControlPlane.Event.Request(capability, origin, body, output, now, true), a);
      case Init(capability, output, now) =>
        EntryAfter(parse, b, ControlPlane.Event.Init(capability, output, now, true), a);
      case Trigger(capability, output, now, saveOk) =>
        EntryAfterTrigger(parse, b, capability, output, now, saveOk, a);
      case Sweep(_, _, _) =>
    }
  }

  /** Main result: neither answers, triggers and sweeps nor requests for other entries touch
      the request an origin made: as long as the need stays declared, its entry holds the body
      of the last request for it. */
  lemma {:induction false} LastRequestStands(parse: Parser, st: State, es: seq<Event>, i: nat, c: string, k: string)
    requires i < |es| && RequestedBy(parse, es[i], c, k)
    requires forall j :: i < j < |es| ==> !RequestedBy(parse, es[j], c, k) && Declares(es[j], c, k)
    ensures Has(Run(parse, st, es), c, k) && Run(parse, st, es)[c][k].request == es[i].body
  {
    var init := es[..|es| - 1];
    if i < |init| {
      assert forall j :: 0 <= j < |init| ==> init[j] == es[j];
      LastRequestStands(parse, st, init, i, c, k);
    }
    StepKeepsRequest(parse, Run(parse, st, init), es[|es| - 1], c, k);
  }

  lemma StepStaysAway(parse: Parser, st: State, e: Event, c: string, k: string)
    requires !Has(st, c, k) && !Revives(parse, e, c, k)
    ensures !Has(Next(parse, st, e), c, k)
  {
  }

  predicate Revives(parse: Parser, e: Event, c: string, k: string) {
    match e
    case Request(capability, origin, body, _, _) =>
      capability == c && MakeStateKey(origin, ExtractNeedId(parse, body)) == k
    case Trigger(capability, output, _, _) => capability == c && output.Some? && k in output.value
    case _ => false
  }

  // ---- Rotation does not reach the file ----

  /** Capabilities whose handlers a sweep asks for new responses and calls back with them. */
  function RotationDue(caps: Capabilities, st: State, query: Query, now: int): set<string> {
    Expired(caps, st, now) - Modified(caps, st, query)
  }

  lemma UntouchedCopy(caps: Capabilities, st: State, query: Query, handlers: Handlers, now: int, c: string)
    requires c !in Modified(caps, st, query)
    ensures var copy := RefreshedOf(Swept(caps, st, query), Modified(caps, st, query), handlers, now);
      && (c in copy <==> c in st) && (c in st ==> copy[c] == st[c])
      && (c in Expired(caps, copy, now) <==> c in Expired(caps, st, now))
  {
    if c in st && Managed(caps, c) {
      assert Orphaned(c, st[c], query) == {};
    }
  }

  /** What a sweep sends comes from the entries as they are in the file. */
  lemma SweepSendsOf(parse: Parser, caps: Capabilities, st: State, query: Query, handlers: Handlers, now: int, a: Address)
    ensures SweepSends(parse, caps, st, query, handlers, now, a) ==
      var c := a.capability;
      if c in RotationDue(caps, st, query, now) && handlers(c).Some?
      then Batch(c, Rotated(parse, st[c], handlers(c).value), handlers(c).value, false, a) else []
  {
    if a.capability !in Modified(caps, st, query) {
      UntouchedCopy(caps, st, query, handlers, now, a.capability);
    }
  }

  // ---- When responses are renewed ----

  /** Some response of these entries has two hours or less of its time to live left. */
  ghost predicate RunsOut(entries: Entries, ttl: int, now: int) {
    exists k :: k in entries && entries[k].response != "" && entries[k].updatedAt + ttl - now <= 7200
  }

  ghost predicate Collects(caps: Capabilities, st: State, query: Query, c: string) {
    c in st && exists k :: k in st[c] && Undeclared(caps, query, c, k)
  }

  /** The recipient's entry is known and addressable, and its handler answers it anew. */
  predicate RenewedFor(parse: Parser, st: State, handlers: Handlers, a: Address) {
    && HasNeedId(a.key) && Has(st, a.capability, a.key)
    && handlers(a.capability).Some? && a.key in handlers(a.capability).value
    && !JsonEqual(parse, st[a.capability][a.key].response, handlers(a.capability).value[a.key])
  }

  /** Main result on what a sweep sends: exactly the new answers of capabilities that have a
      time to live, hold a response with at most two hours of it left, and had nothing
      collected. */
  lemma SweepSendsIff(parse: Parser, caps: Capabilities, st: State, query: Query, handlers: Handlers, now: int, a: Address)
    ensures var c := a.capability;
      SweepSends(parse, caps, st, query, handlers, now, a) ==
      if c in caps && caps[c].ttl > 0 && c in st && RunsOut(st[c], caps[c].ttl, now) && !Collects(caps, st, query, c)
         && RenewedFor(parse, st, handlers, a)
      then [Sent(handlers(c).value[a.key], false)] else []
  {
    var c := a.capability;
    SweepSendsOf(parse, caps, st, query, handlers, now, a);
    if c in caps && c in st {
      ModifiedIff(caps, st, query, c);
      ExpiredIff(caps, st, now, c);
    }
  }

  lemma ModifiedIff(caps: Capabilities, st: State, query: Query, c: string)
    requires c in caps && c in st
    ensures c in Modified(caps, st, query) <==> Collects(caps, st, query, c)
  {
    if k :| k in st[c] && Undeclared(caps, query, c, k) {
      assert k in Orphaned(c, st[c], query);
    }
    if c in Modified(caps, st, query) {
      var k :| k in Orphaned(c, st[c], query);
      assert Undeclared(caps, query, c, k);
    }
  }

  lemma ExpiredIff(caps: Capabilities, st: State, now: int, c: string)
    requires c in caps && c in st
    ensures c in Expired(caps, st, now) <==> caps[c].ttl > 0 && RunsOut(st[c], caps[c].ttl, now)
  {
    if k :| k in st[c] && Expiring(st[c][k], caps[c].ttl, now) {
      assert st[c][k].response != "" && st[c][k].updatedAt + caps[c].ttl - now <= 7200;
    }
    if k :| k in st[c] && st[c][k].response != "" && st[c][k].updatedAt + caps[c].ttl - now <= 7200 {
      assert Expiring(st[c][k], caps[c].ttl, now);
    }
  }

  /** What clean-up makes of the process's copy: every answer to a known entry is taken, errors
      included. SweepSendsIff says that none of it leaves the process. */
  lemma RefreshedEntries(entries: Entries, output: Output, now: int, k: string)
    ensures k in Refreshed(entries, output, now) <==> k in entries
    ensures k in entries ==>
      var e, r := entries[k], Refreshed(entries, output, now)[k];
      if k in output then r == Entry(e.request, output[k], now) else r == e
  {
  }

  lemma NothingModified(caps: Capabilities, st: State, query: Query)
    requires Swept(caps, st, query) == st
    ensures Modified(caps, st, query) == {}
  {
    forall c | c in caps && Managed(caps, c) && c in st ensures Orphaned(c, st[c], query) == {} {
      assert Kept(c, st[c], query) == st[c];
      assert Kept(c, st[c], query).Keys == st[c].Keys - Orphaned(c, st[c], query);
      OrphansAreEntries(c, st[c], query);
    }
  }

  /** What a sweep that removes nothing sent, a later one that removes nothing sends again. */
  lemma RotationSentAgain(parse: Parser, caps: Capabilities, st: State, query: Query, query': Query, handlers: Handlers,
                          now: int, later: int, a: Address)
    requires Swept(caps, st, query) == st && Swept(caps, st, query') == st && now <= later
    ensures var batch := SweepSends(parse, caps, st, query, handlers, now, a);
      batch != [] ==> SweepSends(parse, caps, st, query', handlers, later, a) == batch
  {
    NothingModified(caps, st, query);
    NothingModified(caps, st, query');
    SweepSendsOf(parse, caps, st, query, handlers, now, a);
    SweepSendsOf(parse, caps, st, query', handlers, later, a);
    ExpiredLater(caps, st, now, later);
  }

  lemma ExpiredLater(caps: Capabilities, st: State, now: int, later: int)
    requires now <= later
    ensures Expired(caps, st, now) <= Expired(caps, st, later)
  {
    forall c | c in Expired(caps, st, now) ensures c in Expired(caps, st, later) {
      var k :| k in st[c] && Expiring(st[c][k], caps[c].ttl, now);
      assert Expiring(st[c][k], caps[c].ttl, later);
    }
  }

  /** One sweep of a series, with the origins' answers and the time. */
  datatype SweepAt = SweepAt(query: Query, now: int)

  /** The file after a series of sweeps. */
  function SweptBy(caps: Capabilities, st: State, sweeps: seq<SweepAt>): State {
    if sweeps == [] then st else Swept(caps, SweptBy(caps, st, sweeps[..|sweeps| - 1]), sweeps[|sweeps| - 1].query)
  }

  /** Every response of the capability was cached at `t` or later. */
  ghost predicate CachedSince(st: State, c: string, t: int) {
    c in st ==> forall k :: k in st[c] && st[c][k].response != "" ==> st[c][k].updatedAt >= t
  }

  /** Fresh responses are left alone: as long as every response of a capability was cached at
      `t` or later, no sweep more than two hours before its time to live is over since `t`
      sends anything of it. */
  lemma {:induction false} NotRenewedEarly(parse: Parser, caps: Capabilities, st: State, sweeps: seq<SweepAt>,
                                           handlers: Handlers, a: Address, t: int)
    requires CachedSince(st, a.capability, t)
    requires a.capability in caps ==> forall x :: x in sweeps ==> x.now < t + caps[a.capability].ttl - 2 * 60 * 60
    ensures SeriesSends(parse, caps, st, sweeps, handlers, a) == []
  {
    if sweeps != [] {
      var c, next := a.capability, Swept(caps, st, sweeps[0].query);
      SweepSendsIff(parse, caps, st, sweeps[0].query, handlers, sweeps[0].now, a);
      assert sweeps[0] in sweeps && forall x :: x in sweeps[1..] ==> x in sweeps;
      forall k | c in next && k in next[c] ensures k in st[c] && next[c][k] == st[c][k] {
        RemovedIffPositivelyAbsent(caps, st, sweeps[0].query, c, k);
      }
      NotRenewedEarly(parse, caps, next, sweeps[1..], handlers, a, t);
    }
  }

  /** An entry whose need stays declared goes through any sweeps unchanged. */
  lemma {:induction false} DeclaredUnchanged(caps: Capabilities, st: State, sweeps: seq<SweepAt>, c: string, k: string)
    requires Has(st, c, k) && forall x :: x in sweeps ==> !Undeclared(caps, x.query, c, k)
    ensures var r := SweptBy(caps, st, sweeps); Has(r, c, k) && r[c][k] == st[c][k]
  {
    if sweeps != [] {
      var init := sweeps[..|sweeps| - 1];
      assert sweeps[|sweeps| - 1] in sweeps && forall x :: x in init ==> x in sweeps;
      DeclaredUnchanged(caps, st, init, c, k);
      RemovedIffPositivelyAbsent(caps, SweptBy(caps, st, init), sweeps[|sweeps| - 1].query, c, k);
    }
  }

  /** The times of a series that starts at or before `due`, reaches the two hours before it,
      and never skips more than two hours. */
  ghost predicate Regular(sweeps: seq<SweepAt>, due: int) {
    && sweeps != [] && sweeps[0].now <= due && sweeps[|sweeps| - 1].now >= due - 2 * 60 * 60
    && forall i :: 0 < i < |sweeps| ==> sweeps[i].now <= sweeps[i - 1].now + 2 * 60 * 60
  }

  lemma {:induction false} OneInTime(sweeps: seq<SweepAt>, due: int) returns (i: nat)
    requires Regular(sweeps, due)
    ensures i < |sweeps| && due - 2 * 60 * 60 <= sweeps[i].now <= due
    decreases |sweeps|
  {
    i := |sweeps| - 1;
    if sweeps[i].now > due {
      i := OneInTime(sweeps[..i], due);
    }
  }

  /** Main result on renewal: if sweeps come at most two hours apart, the consumer of an entry
      that stays declared is sent its handler's new answer within the last two hours of the
      cached one's time to live, unless that very sweep collects something from the capability:
      then the handler is invoked, but its answer is sent to nobody. */
  lemma RenewedInTime(parse: Parser, caps: Capabilities, st: State, sweeps: seq<SweepAt>, handlers: Handlers, a: Address)
    requires a.capability in caps && caps[a.capability].ttl > 0 && RenewedFor(parse, st, handlers, a)
    requires st[a.capability][a.key].response != ""
    requires forall x :: x in sweeps ==> !Undeclared(caps, x.query, a.capability, a.key)
    requires Regular(sweeps, st[a.capability][a.key].updatedAt + caps[a.capability].ttl)
    ensures exists i :: 0 <= i < |sweeps| && SentInTime(parse, caps, st, sweeps, handlers, a, i)
  {
    var c, k := a.capability, a.key;
    var i := OneInTime(sweeps, st[c][k].updatedAt + caps[c].ttl);
    var before := SweptBy(caps, st, sweeps[..i]);
    assert forall x :: x in sweeps[..i] ==> x in sweeps;
    DeclaredUnchanged(caps, st, sweeps[..i], c, k);
    SweepSendsIff(parse, caps, before, sweeps[i].query, handlers, sweeps[i].now, a);
    assert before[c][k].response != "" && before[c][k].updatedAt + caps[c].ttl - sweeps[i].now <= 7200;
    assert SentInTime(parse, caps, st, sweeps, handlers, a, i);
  }

  /** The `i`-th sweep comes in the last two hours of the entry's response, and sends the new
      one unless it collects something from the capability. */
  ghost predicate SentInTime(parse: Parser, caps: Capabilities, st: State, sweeps: seq<SweepAt>, handlers: Handlers, a: Address, i: nat)
    requires i < |sweeps| && a.capability in caps && RenewedFor(parse, st, handlers, a)
  {
    var before, due := SweptBy(caps, st, sweeps[..i]), st[a.capability][a.key].updatedAt + caps[a.capability].ttl;
    && due - 2 * 60 * 60 <= sweeps[i].now <= due
    && (Collects(caps, before, sweeps[i].query, a.capability)
        || SweepSends(parse, caps, before, sweeps[i].query, handlers, sweeps[i].now, a) ==
           [Sent(handlers(a.capability).value[a.key], false)])
  }

  /** What a series of sweeps sends to one recipient, the file passing from one to the next. */
  function SeriesSends(parse: Parser, caps: Capabilities, st: State, sweeps: seq<SweepAt>, handlers: Handlers, a: Address): seq<Sent> {
    if sweeps == [] then []
    else
      SweepSends(parse, caps, st, sweeps[0].query, handlers, sweeps[0].now, a)
      + SeriesSends(parse, caps, Swept(caps, st, sweeps[0].query), sweeps[1..], handlers, a)
  }

  /** A sweep that removes nothing and sends the recipient this batch. */
  ghost predicate Resends(parse: Parser, caps: Capabilities, st: State, sweep: SweepAt, handlers: Handlers, a: Address,
                          batch: seq<Sent>) {
    Swept(caps, st, sweep.query) == st && SweepSends(parse, caps, st, sweep.query, handlers, sweep.now, a) == batch
  }

  /** The same callback `n` times. */
  function Copies(s: Sent, n: nat): (r: seq<Sent>)
    ensures |r| == n && forall i :: 0 <= i < n ==> r[i] == s
  {
    if n == 0 then [] else [s] + Copies(s, n - 1)
  }

  lemma {:induction false} SeriesResends(parse: Parser, caps: Capabilities, st: State, sweeps: seq<SweepAt>,
                                         handlers: Handlers, a: Address, s: Sent)
    requires forall x :: x in sweeps ==> Resends(parse, caps, st, x, handlers, a, [s])
    ensures SeriesSends(parse, caps, st, sweeps, handlers, a) == Copies(s, |sweeps|)
  {
    if sweeps != [] {
      var rest := sweeps[1..];
      assert sweeps[0] in sweeps && forall x :: x in rest ==> x in sweeps;
      SeriesResends(parse, caps, st, rest, handlers, a, s);
    }
  }

  lemma AtMostOneRotation(parse: Parser, caps: Capabilities, st: State, query: Query, handlers: Handlers, now: int, a: Address)
    ensures |SweepSends(parse, caps, st, query, handlers, now, a)| <= 1
  {
  }

  /** Main result: while nothing is removed and the handlers answer the same, every sweep of a
      series sends the recipient the same response that the first one sent. */
  lemma RotationRepeats(parse: Parser, caps: Capabilities, st: State, query: Query, now: int, sweeps: seq<SweepAt>,
                        handlers: Handlers, a: Address)
    requires Swept(caps, st, query) == st
    requires forall x :: x in sweeps ==> Swept(caps, st, x.query) == st && now <= x.now
    ensures var batch := SweepSends(parse, caps, st, query, handlers, now, a);
      batch != [] ==> |batch| == 1 && SeriesSends(parse, caps, st, sweeps, handlers, a) == Copies(batch[0], |sweeps|)
  {
    var batch := SweepSends(parse, caps, st, query, handlers, now, a);
    AtMostOneRotation(parse, caps, st, query, handlers, now, a);
    if batch != [] {
      assert batch == [batch[0]];
      forall x | x in sweeps ensures Resends(parse, caps, st, x, handlers, a, batch) {
        RotationSentAgain(parse, caps, st, query, x.query, handlers, now, x.now, a);
      }
      SeriesResends(parse, caps, st, sweeps, handlers, a, batch[0]);
    }
  }

  /** The good answers of the handlers that rotate are the cached ones. */
  ghost predicate RotationUnchanged(parse: Parser, caps: Capabilities, st: State, query: Query, handlers: Handlers, now: int) {
    forall c :: c in RotationDue(caps, st, query, now) && handlers(c).Some? ==>
      AnswersUnchanged(parse, st[c], handlers(c).value)
  }

  /** After a whole sweep (the state and the callbacks RunGC promises) the file agrees with
      what consumers were told exactly if rotation brought no new answer: new ones are sent,
      but not cached. */
  lemma SweepInSyncIff(parse: Parser, caps: Capabilities, st: State, query: Query, handlers: Handlers, now: int,
                       sent: History, after: History)
    requires InSync(parse, st, sent)
    requires forall a: Address :: after[a] == sent[a] + SweepSends(parse, caps, st, query, handlers, now, a)
    ensures InSync(parse, Swept(caps, st, query), after) <==> RotationUnchanged(parse, caps, st, query, handlers, now)
  {
    var swept: State := Swept(caps, st, query);
    forall c, k | c in swept && k in swept[c] && HasNeedId(k)
      ensures EntryInSync(parse, swept[c][k].response, after[Address(c, k)]) <==>
              !(c in RotationDue(caps, st, query, now) && handlers(c).Some? && AnsweredAnew(parse, st[c], handlers(c).value, k))
    {
      SweptEntry(parse, caps, st, query, handlers, now, sent, Address(c, k));
    }
    if InSync(parse, swept, after) {
      forall c, k | c in RotationDue(caps, st, query, now) && handlers(c).Some? && k in st[c] && HasNeedId(k)
        ensures !AnsweredAnew(parse, st[c], handlers(c).value, k)
      {
        UntouchedCopy(caps, st, query, handlers, now, c);
        assert k in swept[c];
        assert EntryInSync(parse, swept[c][k].response, after[Address(c, k)]);
      }
    }
  }

  lemma SweptEntry(parse: Parser, caps: Capabilities, st: State, query: Query, handlers: Handlers, now: int,
                   sent: History, a: Address)
    requires InSync(parse, st, sent) && HasNeedId(a.key)
    requires a.capability in st && a.key in st[a.capability]
    ensures var c, k := a.capability, a.key;
      EntryInSync(parse, st[c][k].response, sent[a] + SweepSends(parse, caps, st, query, handlers, now, a)) <==>
      !(c in RotationDue(caps, st, query, now) && handlers(c).Some? && AnsweredAnew(parse, st[c], handlers(c).value, k))
  {
    var c, k := a.capability, a.key;
    SweepSendsOf(parse, caps, st, query, handlers, now, a);
    assert EntryInSync(parse, st[c][k].response, sent[a]);
    assert sent[a] + [] == sent[a];
    if c in RotationDue(caps, st, query, now) && handlers(c).Some? {
      RotatedEntry(parse, st[c][k].response, sent[a], st[c], handlers(c).value, a);
    }
  }

  lemma RotatedEntry(parse: Parser, response: string, h: seq<Sent>, entries: Entries, output: Output, a: Address)
    requires a.key in entries && entries[a.key].response == response && HasNeedId(a.key) && EntryInSync(parse, response, h)
    ensures EntryInSync(parse, response, h + Batch(a.capability, Rotated(parse, entries, output), output, false, a)) <==>
            !AnsweredAnew(parse, entries, output, a.key)
  {
    assert h + [] == h;
    if a.key in output {
      JsonEqualEquivalence(parse, response, output[a.key], response);
      JsonEqualEquivalence(parse, output[a.key], response, output[a.key]);
      LastGoodAppend(parse, h, Sent(output[a.key], false));
    }
  }
}
