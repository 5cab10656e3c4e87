// The asynchronous aggregate protocol of the control plane (pkgs/fort-provider/main.go):
// requests are recorded, a handler answers for all of them at once, changed answers are
// cached and called back, vanished ones are revoked. Handlers, callbacks' transport and
// disk writes may fail; their results are inputs.
module ControlPlane {
  import opened Wrappers
  import opened JsonEquality
  import opened StateKeys

  /** `response` is empty if there is none. */
  datatype Entry = Entry(request: string, response: string, updatedAt: int)

  /** State key -> entry, for one capability. */
  type Entries = map<string, Entry>

  type State = map<string, Entries>

  /** State key -> response. */
  type Output = map<string, string>

  type Parser = string -> Option<Doc>

  const REVOCATION := "{}"

  /** One callback handed to the transport. */
  datatype Sent = Sent(payload: string, revocation: bool)

  datatype Address = Address(capability: string, key: string)

  /** All callbacks sent so far, per recipient, oldest first. */
  type History = h: imap<Address, seq<Sent>> | forall a :: a in h
    ghost witness imap a: Address | true :: []

  ghost const NOTHING_SENT: History := imap a: Address | true :: []

  datatype Plane = Plane(memory: State, disk: State, sent: History)

  function EntriesOf(st: State, capability: string): Entries {
    if capability in st then st[capability] else map[]
  }

  function ResponseOf(entries: Entries, key: string): string {
    if key in entries then entries[key].response else ""
  }

  /** The string member `name` of a request, or "" (extractNeedID). */
  function ExtractNeedId(parse: Parser, request: string): string {
    var d := parse(request);
    if d.Some? && d.value.DObj? then
      var members := Denote(d.value).members;
      if "_fort_need_id" in members && members["_fort_need_id"].Str? then members["_fort_need_id"].s else ""
    else ""
  }

  /** The response is an object with a member "error". */
  predicate HasError(parse: Parser, response: string) {
    var d := parse(response);
    d.Some? && d.value.DObj? && "error" in Denote(d.value).members
  }

  predicate HasNeedId(key: string) {
    ParseStateKey(key).1 != ""
  }

  // ---- What one step does ----

  function Recorded(parse: Parser, st: State, capability: string, origin: string, request: string, now: int): State {
    var key := MakeStateKey(origin, ExtractNeedId(parse, request));
    st[capability := EntriesOf(st, capability)[key := Entry(request, "", now)]]
  }

  /** Keys whose response differs from the cached one. */
  function Changed(parse: Parser, entries: Entries, output: Output): set<string> {
    set k | k in output && !JsonEqual(parse, ResponseOf(entries, k), output[k])
  }

  /** Keys with a cached response the handler no longer answers for. */
  function Revoked(entries: Entries, output: Output): set<string> {
    set k | k in entries && entries[k].response != "" && k !in output
  }

  /** Responses are cached for known keys, errors are not. */
  function Cached(parse: Parser, entries: Entries, output: Output, now: int): Entries {
    map k | k in entries ::
      if k in output && !HasError(parse, output[k]) then entries[k].(response := output[k], updatedAt := now)
      else entries[k]
  }

  /** The callbacks of one batch to one recipient: keys without a need id or without a
      response are skipped. */
  function Batch(capability: string, keys: set<string>, output: Output, revocation: bool, a: Address): seq<Sent> {
    if a.capability == capability && a.key in keys && HasNeedId(a.key) && a.key in output
    then [Sent(output[a.key], revocation)] else []
  }

  ghost function Dispatched(sent: History, capability: string, keys: set<string>, output: Output, revocation: bool): History {
    imap a: Address | true :: sent[a] + Batch(capability, keys, output, revocation, a)
  }

  ghost function Appended(sent: History, a: Address, s: Sent): History {
    sent[a := sent[a] + [s]]
  }

  function Revocations(keys: set<string>): Output {
    map k | k in keys :: REVOCATION
  }

  ghost function AfterRequest(parse: Parser, b: Plane, capability: string, origin: string, request: string,
                        output: Option<Output>, now: int, saveOk: bool): Plane {
    var recorded := Recorded(parse, b.memory, capability, origin, request, now);
    if output.None? then b.(memory := recorded)
    else
      var entries := recorded[capability];
      var memory := recorded[capability := Cached(parse, entries, output.value, now)];
      var revoked := Revoked(entries, output.value);
      Plane(memory,
            if saveOk then memory else b.disk,
            Dispatched(Dispatched(b.sent, capability, Changed(parse, entries, output.value), output.value, false),
                       capability, revoked, Revocations(revoked), true))
  }

  /** Boot-time initialisation of one capability: every answered key is called back. */
  ghost function AfterInit(parse: Parser, b: Plane, capability: string, output: Option<Output>, now: int, saveOk: bool): Plane {
    var entries := EntriesOf(b.memory, capability);
    if entries == map[] || output.None? then b
    else
      var memory := b.memory[capability := Cached(parse, entries, output.value, now)];
      Plane(memory,
            if saveOk then memory else b.disk,
            Dispatched(b.sent, capability, output.value.Keys, output.value, false))
  }

  /** A systemd trigger, in a process of its own: it works on the state file, caches errors
      too, adds unknown keys, and sends nothing if the file cannot be written. */
  function Stored(entries: Entries, output: Output, now: int): Entries {
    entries + map k | k in output :: Entry(if k in entries then entries[k].request else "", output[k], now)
  }

  ghost function AfterTrigger(parse: Parser, b: Plane, capability: string, output: Option<Output>, now: int, saveOk: bool): Plane {
    var entries := EntriesOf(b.disk, capability);
    if entries == map[] || output.None? || !saveOk then b
    else
      var revoked := Revoked(entries, output.value);
      b.(disk := b.disk[capability := Stored(entries, output.value, now)],
         sent := Dispatched(Dispatched(b.sent, capability, Changed(parse, entries, output.value), output.value, false),
                            capability, revoked, Revocations(revoked), true))
  }

  // ---- The provider process ----

  class AgentHandler {
    const parse: Parser
    var providerState: State
    var disk: State
    ghost var sent: History

    ghost function Contents(): Plane
      reads this
    {
      Plane(providerState, disk, sent)
    }

    constructor (parse: Parser, loaded: State)
      ensures this.parse == parse && Contents() == Plane(loaded, loaded, NOTHING_SENT)
    {
      this.parse := parse;
      providerState, disk, sent := loaded, loaded, NOTHING_SENT;
    }

    method RecordProviderRequest(capability: string, origin: string, request: string, now: int) returns (key: string)
      modifies this`providerState
      ensures key == MakeStateKey(origin, ExtractNeedId(parse, request))
      ensures providerState == Recorded(parse, old(providerState), capability, origin, request, now)
    {
      if capability !in providerState {
        providerState := providerState[capability := map[]];
      }
      key := MakeStateKey(origin, ExtractNeedId(parse, request));
      providerState := providerState[capability := providerState[capability][key := Entry(request, "", now)]];
    }

    method UpdateProviderResponse(capability: string, key: string, response: string, now: int)
      modifies this`providerState
      ensures capability !in old(providerState) ==> providerState == old(providerState)
      ensures capability in old(providerState) ==>
        providerState == old(providerState)
          [capability := Cached(parse, old(providerState)[capability], map[key := response], now)]
    {
      if capability !in providerState {
        return;
      }
      if HasError(parse, response) {
        assert Cached(parse, providerState[capability], map[key := response], now) == providerState[capability];
        return;
      }
      if key in providerState[capability] {
        var entry := providerState[capability][key];
        entry := entry.(response := response);
        entry := entry.(updatedAt := now);
        assert providerState[capability][key := entry] ==
               Cached(parse, providerState[capability], map[key := response], now);
        providerState := providerState[capability := providerState[capability][key := entry]];
      } else {
        assert Cached(parse, providerState[capability], map[key := response], now) == providerState[capability];
      }
    }

    method SaveProviderState(saveOk: bool)
      modifies this`disk
      ensures disk == if saveOk then providerState else old(disk)
    {
      if saveOk {
        disk := providerState;
      }
    }

    method DispatchCallbacks(capability: string, keys: set<string>, responses: Output, ghost revocation: bool)
      modifies this`sent
      ensures sent == Dispatched(old(sent), capability, keys, responses, revocation)
    {
      var rest := keys;
      SentNone(sent, capability, responses, revocation);
      assert keys - rest == {};
      while rest != {}
        invariant rest <= keys
        invariant SentSoFar(old(sent), sent, capability, keys - rest, responses, revocation)
      {
        var key :| key in rest;
        ghost var before := sent;
        if HasNeedId(key) && key in responses {
          sent := Appended(sent, Address(capability, key), Sent(responses[key], revocation));
        }
        SentOneMore(old(sent), before, sent, capability, keys - rest, key, responses, revocation);
        assert keys - (rest - {key}) == (keys - rest) + {key};
        rest := rest - {key};
      }
      assert keys - rest == keys;
      SentAll(old(sent), sent, capability, keys, responses, revocation);
    }

    /** Callbacks for the keys collected, if there are any. */
    method DispatchCollected(capability: string, keys: set<string>, responses: Output, ghost revocation: bool)
      modifies this`sent
      ensures sent == Dispatched(old(sent), capability, keys, responses, revocation)
    {
      NothingDispatched(sent, capability, responses, revocation);
      if keys != {} {
        DispatchCallbacks(capability, keys, responses, revocation);
      }
    }

    /** Callbacks for changed responses, then revocations. */
    method DispatchAll(capability: string, changed: set<string>, revoked: set<string>, output: Output)
      modifies this`sent
      ensures sent == Dispatched(Dispatched(old(sent), capability, changed, output, false),
                                 capability, revoked, Revocations(revoked), true)
    {
      DispatchCollected(capability, changed, output, false);
      var empties := map k | k in revoked :: REVOCATION;
      DispatchCollected(capability, revoked, empties, true);
    }

    /** One iteration of the response loop. */
    method ProcessResponse(capability: string, key: string, response: string, now: int, changed: set<string>,
                           ghost entries: Entries, ghost done: Output) returns (changed': set<string>)
      requires capability in providerState && key !in done
      requires providerState[capability] == Cached(parse, entries, done, now) && changed == Changed(parse, entries, done)
      modifies this`providerState
      ensures changed' == Changed(parse, entries, done[key := response])
      ensures providerState == old(providerState)[capability := Cached(parse, entries, done[key := response], now)]
    {
      var previous := if key in providerState[capability] then providerState[capability][key].response else "";
      assert previous == ResponseOf(entries, key);
      changed' := changed;
      if !JsonEqual(parse, previous, response) {
        changed' := changed + {key};
      }
      CacheOneMore(parse, entries, done, key, response, now);
      UpdateProviderResponse(capability, key, response, now);
    }

    /** The response loop shared by requests and boot: caches, and collects what changed. */
    method ProcessResponses(capability: string, output: Output, now: int) returns (changed: set<string>)
      requires capability in providerState
      modifies this`providerState
      ensures changed == Changed(parse, old(providerState)[capability], output)
      ensures providerState == old(providerState)[capability := Cached(parse, old(providerState)[capability], output, now)]
    {
      ghost var entries := providerState[capability];
      changed := {};
      var rest := output.Keys;
      ghost var done: Output := map[];
      assert Cached(parse, entries, done, now) == entries;
      while rest != {}
        invariant rest <= output.Keys && done == output - rest
        invariant changed == Changed(parse, entries, done)
        invariant providerState == old(providerState)[capability := Cached(parse, entries, done, now)]
      {
        var key :| key in rest;
        changed := ProcessResponse(capability, key, output[key], now, changed, entries, done);
        assert output - (rest - {key}) == done[key := output[key]];
        done := done[key := output[key]];
        rest := rest - {key};
      }
      assert done == output;
    }

    /** Keys that have a response the handler no longer answers for. */
    method DetectRevocations(capability: string, output: Output) returns (revoked: set<string>)
      requires capability in providerState
      ensures revoked == Revoked(providerState[capability], output)
    {
      var state := providerState[capability];
      revoked := set k | k in state && state[k].response != "" && k !in output;
    }

    method ExecuteAsyncHandler(capability: string, origin: string, request: string, handler: Option<Output>,
                               now: int, saveOk: bool) returns (accepted: bool)
      modifies this
      ensures accepted == handler.Some?
      ensures Contents() == AfterRequest(parse, old(Contents()), capability, origin, request, handler, now, saveOk)
    {
      var _ := RecordProviderRequest(capability, origin, request, now);
      if handler.None? {
        return false;
      }
      var output := handler.value;
      ghost var entries := providerState[capability];
      var changed := ProcessResponses(capability, output, now);
      var revoked := DetectRevocations(capability, output);
      CachingRevokesNone(parse, entries, output, now);
      SaveProviderState(saveOk);
      DispatchAll(capability, changed, revoked, output);
      return true;
    }

    method InitializeCapability(capability: string, handler: Option<Output>, now: int, saveOk: bool)
      modifies this
      ensures Contents() == AfterInit(parse, old(Contents()), capability, handler, now, saveOk)
    {
      if capability !in providerState || providerState[capability] == map[] {
        return;
      }
      if handler.None? {
        return;
      }
      var output := handler.value;
      var _ := ProcessResponses(capability, output, now);
      SaveProviderState(saveOk);
      DispatchCollected(capability, output.Keys, output, false);
    }

    /** Boot: every capability that asks for it is initialised, in whatever order the
        configuration yields them. `events` is that order, as a run. */
    method InitializeCapabilities(initialize: map<string, bool>, handlers: string -> Option<Output>, now: int,
                                  saves: string -> bool) returns (ghost events: seq<Event>)
      modifies this
      ensures Contents() == Run(parse, old(Contents()), events)
      ensures forall c :: c in initialize && initialize[c] <==> Init(c, handlers(c), now, saves(c)) in events
      ensures forall e :: e in events ==> e.Init? && e == Init(e.capability, handlers(e.capability), now, saves(e.capability))
      ensures forall i, j :: 0 <= i < j < |events| ==> events[i] != events[j]
    {
      events := [];
      var rest := initialize.Keys;
      while rest != {}
        invariant rest <= initialize.Keys
        invariant Contents() == Run(parse, old(Contents()), events)
        invariant forall c :: c in initialize && initialize[c] && c !in rest <==> Init(c, handlers(c), now, saves(c)) in events
        invariant forall e :: e in events ==> e.Init? && e == Init(e.capability, handlers(e.capability), now, saves(e.capability))
        invariant forall i, j :: 0 <= i < j < |events| ==> events[i] != events[j]
      {
        var c :| c in rest;
        if initialize[c] {
          ghost var e := Init(c, handlers(c), now, saves(c));
          assert (events + [e])[..|events|] == events;
          InitializeCapability(c, handlers(c), now, saves(c));
          events := events + [e];
        }
        rest := rest - {c};
      }
    }
  }

  ghost predicate SentSoFar(start: History, sent: History, capability: string, done: set<string>, responses: Output,
                            revocation: bool) {
    forall a: Address :: sent[a] == start[a] + Batch(capability, done, responses, revocation, a)
  }

  lemma SentNone(start: History, capability: string, responses: Output, revocation: bool)
    ensures SentSoFar(start, start, capability, {}, responses, revocation)
  {
    assert forall a: Address :: start[a] + [] == start[a];
  }

  lemma SentAll(start: History, sent: History, capability: string, keys: set<string>, responses: Output, revocation: bool)
    requires SentSoFar(start, sent, capability, keys, responses, revocation)
    ensures sent == Dispatched(start, capability, keys, responses, revocation)
  {
  }

  lemma SentOneMore(start: History, before: History, after: History, capability: string, done: set<string>, key: string,
                    responses: Output, revocation: bool)
    requires key !in done && SentSoFar(start, before, capability, done, responses, revocation)
    requires after == if HasNeedId(key) && key in responses
                      then Appended(before, Address(capability, key), Sent(responses[key], revocation)) else before
    ensures SentSoFar(start, after, capability, done + {key}, responses, revocation)
  {
    forall a: Address
      ensures after[a] == start[a] + Batch(capability, done + {key}, responses, revocation, a)
    {
      assert before[a] == start[a] + Batch(capability, done, responses, revocation, a);
      BatchOneMore(start[a], capability, done, key, responses, revocation, a);
    }
  }

  lemma BatchOneMore(h: seq<Sent>, capability: string, done: set<string>, key: string, responses: Output, revocation: bool,
                     a: Address)
    requires key !in done
    ensures h + Batch(capability, done + {key}, responses, revocation, a) ==
            if a == Address(capability, key) && HasNeedId(key) && key in responses
            then h + Batch(capability, done, responses, revocation, a) + [Sent(responses[key], revocation)]
            else h + Batch(capability, done, responses, revocation, a)
  {
    assert h + [] == h;
  }

  lemma NothingDispatched(sent: History, capability: string, responses: Output, revocation: bool)
    ensures Dispatched(sent, capability, {}, responses, revocation) == sent
  {
    assert forall a: Address :: sent[a] + [] == sent[a];
  }

  lemma CacheOneMore(parse: Parser, entries: Entries, done: Output, key: string, response: string, now: int)
    requires key !in done
    ensures Cached(parse, Cached(parse, entries, done, now), map[key := response], now) ==
            Cached(parse, entries, done[key := response], now)
  {
  }

  lemma CachingRevokesNone(parse: Parser, entries: Entries, output: Output, now: int)
    ensures Revoked(Cached(parse, entries, output, now), output) == Revoked(entries, output)
  {
  }

  // ---- The cache agrees with what consumers were told ----

  /** The last payload sent that is neither a revocation nor an error. */
  function LastGood(parse: Parser, h: seq<Sent>): Option<string> {
    if h == [] then None
    else
      var last := h[|h| - 1];
      if last.revocation || HasError(parse, last.payload) then LastGood(parse, h[..|h| - 1])
      else Some(last.payload)
  }

  ghost predicate EntryInSync(parse: Parser, response: string, h: seq<Sent>) {
    response != "" ==> LastGood(parse, h).Some? && JsonEqual(parse, LastGood(parse, h).value, response)
  }

  /** Every cached response of an addressable entry is, up to JSON equality, the last good
      payload its consumer was sent. */
  ghost predicate InSync(parse: Parser, st: State, sent: History) {
    forall c, k :: c in st && k in st[c] && HasNeedId(k) ==>
      EntryInSync(parse, st[c][k].response, sent[Address(c, k)])
  }

  lemma LastGoodAppend(parse: Parser, h: seq<Sent>, s: Sent)
    ensures LastGood(parse, h + [s]) ==
            if s.revocation || HasError(parse, s.payload) then LastGood(parse, h) else Some(s.payload)
  {
    assert (h + [s])[..|h|] == h;
  }

  /** Caching a response while sending it if it changed keeps an entry in sync. */
  lemma AnswerKeepsSync(parse: Parser, before: string, response: string, h: seq<Sent>)
    requires EntryInSync(parse, before, h) && !HasError(parse, response)
    ensures EntryInSync(parse, response, if JsonEqual(parse, before, response) then h else h + [Sent(response, false)])
  {
    LastGoodAppend(parse, h, Sent(response, false));
    JsonEqualEquivalence(parse, response, response, response);
    if JsonEqual(parse, before, response) && response != "" {
      JsonEqualEquivalence(parse, LastGood(parse, h).value, before, response);
    }
  }

  /** Payloads that do not count leave every entry as it was. */
  lemma IgnoredKeepsSync(parse: Parser, response: string, h: seq<Sent>, s: Sent)
    requires EntryInSync(parse, response, h) && (s.revocation || HasError(parse, s.payload))
    ensures EntryInSync(parse, response, h + [s])
  {
    LastGoodAppend(parse, h, s);
  }

  /** Sending the cached response again, changed or not, keeps an entry in sync. */
  lemma ResendKeepsSync(parse: Parser, response: string, h: seq<Sent>)
    requires !HasError(parse, response)
    ensures EntryInSync(parse, response, h + [Sent(response, false)])
  {
    LastGoodAppend(parse, h, Sent(response, false));
    JsonEqualEquivalence(parse, response, response, response);
  }

  /** What a request sends to the recipient `a`. */
  function RequestBatch(parse: Parser, entries: Entries, output: Output, capability: string, a: Address): seq<Sent> {
    var revoked := Revoked(entries, output);
    Batch(capability, Changed(parse, entries, output), output, false, a)
    + Batch(capability, revoked, Revocations(revoked), true, a)
  }

  lemma RequestBatchFor(parse: Parser, entries: Entries, output: Output, capability: string, k: string)
    requires HasNeedId(k)
    ensures RequestBatch(parse, entries, output, capability, Address(capability, k)) ==
            if k in output
            then (if JsonEqual(parse, ResponseOf(entries, k), output[k]) then [] else [Sent(output[k], false)])
            else (if ResponseOf(entries, k) == "" then [] else [Sent(REVOCATION, true)])
  {
  }

  lemma RequestSends(parse: Parser, b: Plane, capability: string, origin: string, request: string,
                     output: Output, now: int, saveOk: bool, a: Address)
    ensures var entries := Recorded(parse, b.memory, capability, origin, request, now)[capability];
      AfterRequest(parse, b, capability, origin, request, Some(output), now, saveOk).sent[a] ==
      b.sent[a] + RequestBatch(parse, entries, output, capability, a)
  {
    var entries := Recorded(parse, b.memory, capability, origin, request, now)[capability];
    var revoked := Revoked(entries, output);
    var x := Batch(capability, Changed(parse, entries, output), output, false, a);
    var y := Batch(capability, revoked, Revocations(revoked), true, a);
    assert b.sent[a] + x + y == b.sent[a] + (x + y);
  }

  lemma EntryKept(parse: Parser, entries: Entries, output: Output, capability: string, k: string, now: int, h: seq<Sent>)
    requires k in entries && HasNeedId(k) && EntryInSync(parse, entries[k].response, h)
    ensures EntryInSync(parse, Cached(parse, entries, output, now)[k].response,
                        h + RequestBatch(parse, entries, output, capability, Address(capability, k)))
  {
    RequestBatchFor(parse, entries, output, capability, k);
    assert h + [] == h;
    if k in output {
      if HasError(parse, output[k]) {
        IgnoredKeepsSync(parse, entries[k].response, h, Sent(output[k], false));
      } else {
        AnswerKeepsSync(parse, entries[k].response, output[k], h);
      }
    } else {
      IgnoredKeepsSync(parse, entries[k].response, h, Sent(REVOCATION, true));
    }
  }

  lemma RequestInSync(parse: Parser, b: Plane, capability: string, origin: string, request: string,
                      output: Option<Output>, now: int, saveOk: bool)
    requires InSync(parse, b.memory, b.sent)
    ensures var r := AfterRequest(parse, b, capability, origin, request, output, now, saveOk);
      InSync(parse, r.memory, r.sent)
  {
    var recorded := Recorded(parse, b.memory, capability, origin, request, now);
    assert InSync(parse, recorded, b.sent);
    if output.Some? {
      var r := AfterRequest(parse, b, capability, origin, request, output, now, saveOk);
      var entries := recorded[capability];
      forall c, k | c in r.memory && k in r.memory[c] && HasNeedId(k)
        ensures EntryInSync(parse, r.memory[c][k].response, r.sent[Address(c, k)])
      {
        var h := b.sent[Address(c, k)];
        assert EntryInSync(parse, recorded[c][k].response, h);
        RequestSends(parse, b, capability, origin, request, output.value, now, saveOk, Address(c, k));
        if c == capability {
          EntryKept(parse, entries, output.value, capability, k, now, h);
        } else {
          assert h + [] == h;
        }
      }
    }
  }

  lemma InitInSync(parse: Parser, b: Plane, capability: string, output: Option<Output>, now: int, saveOk: bool)
    requires InSync(parse, b.memory, b.sent)
    ensures var r := AfterInit(parse, b, capability, output, now, saveOk);
      InSync(parse, r.memory, r.sent)
  {
    var r := AfterInit(parse, b, capability, output, now, saveOk);
    var entries := EntriesOf(b.memory, capability);
    if entries != map[] && output.Some? {
      forall c, k | c in r.memory && k in r.memory[c] && HasNeedId(k)
        ensures EntryInSync(parse, r.memory[c][k].response, r.sent[Address(c, k)])
      {
        var h := b.sent[Address(c, k)];
        assert EntryInSync(parse, b.memory[c][k].response, h);
        assert h + [] == h;
        if c == capability && k in output.value {
          if HasError(parse, output.value[k]) {
            IgnoredKeepsSync(parse, entries[k].response, h, Sent(output.value[k], false));
          } else {
            ResendKeepsSync(parse, output.value[k], h);
          }
        }
      }
    }
  }

  // ---- Runs ----

  datatype Event =
    | Request(capability: string, origin: string, body: string, output: Option<Output>, now: int, saveOk: bool)
    | Init(capability: string, output: Option<Output>, now: int, saveOk: bool)
    | Restart(loaded: State)

  ghost function Next(parse: Parser, b: Plane, e: Event): Plane {
    match e
    case Request(capability, origin, body, output, now, saveOk) =>
      AfterRequest(parse, b, capability, origin, body, output, now, saveOk)
    case Init(capability, output, now, saveOk) => AfterInit(parse, b, capability, output, now, saveOk)
    case Restart(loaded) => b.(memory := loaded)
  }

  ghost function Run(parse: Parser, b: Plane, es: seq<Event>): Plane {
    if es == [] then b else Next(parse, Run(parse, b, es[..|es| - 1]), es[|es| - 1])
  }

  /** Reading the state file back: the encoder may have changed the layout of requests and
      responses. */
  ghost predicate Reread(parse: Parser, disk: State, loaded: State) {
    && loaded.Keys == disk.Keys
    && (forall c :: c in disk ==> loaded[c].Keys == disk[c].Keys)
    && (forall c, k :: c in disk && k in disk[c] ==> RereadEntry(parse, disk[c][k], loaded[c][k]))
  }

  predicate RereadEntry(parse: Parser, saved: Entry, loaded: Entry) {
    && JsonEqual(parse, saved.response, loaded.response)
    && JsonEqual(parse, saved.request, loaded.request)
    && saved.updatedAt == loaded.updatedAt
  }

  ghost predicate Legal(parse: Parser, b: Plane, e: Event) {
    e.Restart? ==> Reread(parse, b.disk, e.loaded)
  }

  /** Every restart reads what the last save wrote. */
  ghost predicate LegalRun(parse: Parser, b: Plane, es: seq<Event>) {
    forall i :: 0 <= i < |es| ==> Legal(parse, Run(parse, b, es[..i]), es[i])
  }

  lemma LegalPrefix(parse: Parser, b: Plane, es: seq<Event>)
    requires LegalRun(parse, b, es) && es != []
    ensures LegalRun(parse, b, es[..|es| - 1])
    ensures Legal(parse, Run(parse, b, es[..|es| - 1]), es[|es| - 1])
  {
    var init := es[..|es| - 1];
    forall i | 0 <= i < |init| ensures Legal(parse, Run(parse, b, init[..i]), init[i]) {
      assert init[..i] == es[..i];
    }
  }

  /** The event gets as far as saving the state. */
  predicate Saves(b: Plane, e: Event) {
    match e
    case Request(_, _, _, output, _, _) => output.Some?
    case Init(capability, output, _, _) => output.Some? && EntriesOf(b.memory, capability) != map[]
    case Restart(_) => false
  }

  /** The last attempt to save failed. */
  ghost predicate FileStale(parse: Parser, es: seq<Event>) {
    es != [] &&
    var init, e := es[..|es| - 1], es[|es| - 1];
    if Saves(Run(parse, EMPTY, init), e) then !e.saveOk else FileStale(parse, init)
  }

  ghost predicate RestartsFresh(parse: Parser, es: seq<Event>) {
    forall i :: 0 <= i < |es| && es[i].Restart? ==> !FileStale(parse, es[..i])
  }

  lemma FreshPrefix(parse: Parser, es: seq<Event>)
    requires RestartsFresh(parse, es) && es != []
    ensures RestartsFresh(parse, es[..|es| - 1])
    ensures es[|es| - 1].Restart? ==> !FileStale(parse, es[..|es| - 1])
  {
    var init := es[..|es| - 1];
    forall i | 0 <= i < |init| && init[i].Restart? ensures !FileStale(parse, init[..i]) {
      assert init[i] == es[i] && init[..i] == es[..i];
    }
  }

  ghost const EMPTY := Plane(map[], map[], NOTHING_SENT)

  lemma RestartInSync(parse: Parser, disk: State, loaded: State, sent: History)
    requires InSync(parse, disk, sent) && Reread(parse, disk, loaded)
    ensures InSync(parse, loaded, sent)
  {
    forall c, k | c in loaded && k in loaded[c] && HasNeedId(k)
      ensures EntryInSync(parse, loaded[c][k].response, sent[Address(c, k)])
    {
      var h := sent[Address(c, k)];
      assert EntryInSync(parse, disk[c][k].response, h) && RereadEntry(parse, disk[c][k], loaded[c][k]);
      if loaded[c][k].response != "" {
        JsonEqualEquivalence(parse, LastGood(parse, h).value, disk[c][k].response, loaded[c][k].response);
      }
    }
  }

  lemma NextInSync(parse: Parser, b: Plane, e: Event)
    requires InSync(parse, b.memory, b.sent) && !e.Restart?
    ensures var r := Next(parse, b, e); InSync(parse, r.memory, r.sent)
  {
    match e {
      case Request(capability, origin, body, output, now, saveOk) =>
        RequestInSync(parse, b, capability, origin, body, output, now, saveOk);
      case Init(capability, output, now, saveOk) =>
        InitInSync(parse, b, capability, output, now, saveOk);
    }
  }

  lemma UnsavedUnsent(parse: Parser, b: Plane, e: Event)
    requires !e.Restart?
    ensures var r := Next(parse, b, e);
      if Saves(b, e) then (e.saveOk ==> r.disk == r.memory) && (!e.saveOk ==> r.disk == b.disk)
      else r.disk == b.disk && r.sent == b.sent
  {
  }

  /** Main result: over any run of requests, boot initialisations and restarts, with arbitrary
      handler outputs and failures, the cache agrees with the consumers, provided the last save
      before each restart succeeded; and so does the file after a successful last save. */
  lemma {:induction false} RunInSync(parse: Parser, es: seq<Event>)
    requires LegalRun(parse, EMPTY, es) && RestartsFresh(parse, es)
    ensures var r := Run(parse, EMPTY, es);
      InSync(parse, r.memory, r.sent) && (!FileStale(parse, es) ==> InSync(parse, r.disk, r.sent))
  {
    if es != [] {
      LegalPrefix(parse, EMPTY, es);
      FreshPrefix(parse, es);
      RunInSync(parse, es[..|es| - 1]);
      var b, e := Run(parse, EMPTY, es[..|es| - 1]), es[|es| - 1];
      if e.Restart? {
        RestartInSync(parse, b.disk, e.loaded, b.sent);
      } else {
        NextInSync(parse, b, e);
        UnsavedUnsent(parse, b, e);
      }
    }
  }

  ghost predicate InSyncThroughout(parse: Parser, b: Plane, es: seq<Event>) {
    forall i: nat :: i <= |es| ==> var r := Run(parse, b, es[..i]); InSync(parse, r.memory, r.sent)
  }

  ghost predicate RestartsInSync(parse: Parser, b: Plane, es: seq<Event>) {
    forall i :: 0 <= i < |es| && es[i].Restart? ==> var r := Run(parse, b, es[..i]); InSync(parse, r.disk, r.sent)
  }

  /** Whatever saves fail: the cache agrees with the consumers throughout a run exactly if
      every restart meets a file that does. */
  lemma InSyncThroughoutIff(parse: Parser, b: Plane, es: seq<Event>)
    requires LegalRun(parse, b, es) && InSync(parse, b.memory, b.sent)
    ensures InSyncThroughout(parse, b, es) <==> RestartsInSync(parse, b, es)
  {
    if InSyncThroughout(parse, b, es) {
      forall i | 0 <= i < |es| && es[i].Restart?
        ensures var r := Run(parse, b, es[..i]); InSync(parse, r.disk, r.sent)
      {
        var r := Run(parse, b, es[..i]);
        RunPrefix(parse, b, es, i + 1);
        assert Legal(parse, r, es[i]);
        RereadSymmetric(parse, r.disk, es[i].loaded);
        RestartInSync(parse, es[i].loaded, r.disk, r.sent);
      }
    }
    if RestartsInSync(parse, b, es) {
      forall i: nat | i <= |es| ensures var r := Run(parse, b, es[..i]); InSync(parse, r.memory, r.sent) {
        PrefixInSync(parse, b, es, i);
      }
    }
  }

  lemma RunPrefix(parse: Parser, b: Plane, es: seq<Event>, i: nat)
    requires 0 < i <= |es|
    ensures Run(parse, b, es[..i]) == Next(parse, Run(parse, b, es[..i - 1]), es[i - 1])
  {
    assert es[..i][..i - 1] == es[..i - 1];
  }

  lemma {:induction false} PrefixInSync(parse: Parser, b: Plane, es: seq<Event>, i: nat)
    requires LegalRun(parse, b, es) && InSync(parse, b.memory, b.sent) && RestartsInSync(parse, b, es) && i <= |es|
    ensures var r := Run(parse, b, es[..i]); InSync(parse, r.memory, r.sent)
  {
    if i > 0 {
      PrefixInSync(parse, b, es, i - 1);
      var r, e := Run(parse, b, es[..i - 1]), es[i - 1];
      RunPrefix(parse, b, es, i);
      assert Legal(parse, r, e);
      AnyNextInSync(parse, r, e);
    }
  }

  lemma AnyNextInSync(parse: Parser, b: Plane, e: Event)
    requires InSync(parse, b.memory, b.sent) && Legal(parse, b, e) && (e.Restart? ==> InSync(parse, b.disk, b.sent))
    ensures InSync(parse, Next(parse, b, e).memory, Next(parse, b, e).sent)
  {
    if e.Restart? {
      RestartInSync(parse, b.disk, e.loaded, b.sent);
    } else {
      NextInSync(parse, b, e);
    }
  }

  lemma RereadSymmetric(parse: Parser, disk: State, loaded: State)
    requires Reread(parse, disk, loaded)
    ensures Reread(parse, loaded, disk)
  {
    forall c, k | c in disk && k in disk[c] ensures RereadEntry(parse, loaded[c][k], disk[c][k]) {
      assert RereadEntry(parse, disk[c][k], loaded[c][k]);
      JsonEqualEquivalence(parse, disk[c][k].response, loaded[c][k].response, "");
      JsonEqualEquivalence(parse, disk[c][k].request, loaded[c][k].request, "");
    }
  }

  /** Within one process not even the saves matter. */
  lemma {:induction false} ProcessInSync(parse: Parser, b: Plane, es: seq<Event>)
    requires InSync(parse, b.memory, b.sent)
    requires forall i :: 0 <= i < |es| ==> !es[i].Restart?
    ensures var r := Run(parse, b, es); InSync(parse, r.memory, r.sent)
  {
    if es != [] {
      ProcessInSync(parse, b, es[..|es| - 1]);
      NextInSync(parse, Run(parse, b, es[..|es| - 1]), es[|es| - 1]);
    }
  }

  /** No entry is both updated and revoked by one request: its consumer gets at most one
      callback, a payload exactly if the response changed, a revocation exactly if a cached
      response is no longer answered for. */
  lemma OneCallbackPerRequest(parse: Parser, b: Plane, e: Event, k: string)
    requires e.Request? && e.output.Some? && HasNeedId(k)
    ensures var a := Address(e.capability, k);
      var h, h' := b.sent[a], Next(parse, b, e).sent[a];
      var before := ResponseOf(Recorded(parse, b.memory, e.capability, e.origin, e.body, e.now)[e.capability], k);
      h' == h + (if k in e.output.value
                 then (if JsonEqual(parse, before, e.output.value[k]) then [] else [Sent(e.output.value[k], false)])
                 else (if before == "" then [] else [Sent(REVOCATION, true)]))
  {
    var entries := Recorded(parse, b.memory, e.capability, e.origin, e.body, e.now)[e.capability];
    RequestBatchFor(parse, entries, e.output.value, e.capability, k);
    RequestSends(parse, b, e.capability, e.origin, e.body, e.output.value, e.now, e.saveOk, Address(e.capability, k));
  }

  /** The origin that asks is always told the handler's answer, even if it is the one it was
      told before: recording its request forgets the cached response. */
  lemma RequesterAlwaysTold(parse: Parser, b: Plane, e: Event)
    requires e.Request? && e.output.Some? && HasNeedId(Asker(parse, e))
    ensures var k := Asker(parse, e);
      var a, out := Address(e.capability, k), e.output.value;
      Next(parse, b, e).sent[a] == b.sent[a] + if k in out && out[k] != "" then [Sent(out[k], false)] else []
  {
    OneCallbackPerRequest(parse, b, e, Asker(parse, e));
  }

  /** Boot initialisation tells every answered consumer, whether or not its answer changed. */
  lemma InitTellsEveryone(parse: Parser, b: Plane, capability: string, output: Output, now: int, saveOk: bool, k: string)
    requires EntriesOf(b.memory, capability) != map[] && HasNeedId(k)
    ensures var a := Address(capability, k);
      AfterInit(parse, b, capability, Some(output), now, saveOk).sent[a] ==
      b.sent[a] + if k in output then [Sent(output[k], false)] else []
  {
  }

  /** If boot initialisation cannot save, the file (and so the next restart) still agrees with
      the consumers exactly if every answered entry kept its response up to JSON equality. */
  lemma UnsavedInitInSyncIff(parse: Parser, b: Plane, capability: string, output: Output, now: int)
    requires InSync(parse, b.disk, b.sent) && b.memory == b.disk && EntriesOf(b.disk, capability) != map[]
    ensures var r := AfterInit(parse, b, capability, Some(output), now, false);
      InSync(parse, r.disk, r.sent) <==> AnswersUnchanged(parse, EntriesOf(b.disk, capability), output)
  {
    var r := AfterInit(parse, b, capability, Some(output), now, false);
    var entries := EntriesOf(b.disk, capability);
    forall c, k | c in r.disk && k in r.disk[c] && HasNeedId(k)
      ensures EntryInSync(parse, r.disk[c][k].response, r.sent[Address(c, k)]) <==>
              !(c == capability && AnsweredAnew(parse, entries, output, k))
    {
      var h := b.sent[Address(c, k)];
      assert EntryInSync(parse, b.disk[c][k].response, h);
      assert h + [] == h;
      if c == capability && k in output {
        LastGoodAppend(parse, h, Sent(output[k], false));
      }
    }
    if InSync(parse, r.disk, r.sent) {
      forall k | k in entries && HasNeedId(k) ensures !AnsweredAnew(parse, entries, output, k) {
        assert EntryInSync(parse, r.disk[capability][k].response, r.sent[Address(capability, k)]);
      }
    }
  }

  /** If a request cannot save, the same holds, except that the origin that asks is not sent an
      empty answer, so that one does no harm. */
  lemma UnsavedRequestInSyncIff(parse: Parser, b: Plane, e: Event)
    requires e.Request? && e.output.Some? && !e.saveOk
    requires InSync(parse, b.disk, b.sent) && b.memory == b.disk
    ensures var r, entries := Next(parse, b, e), EntriesOf(b.disk, e.capability);
      InSync(parse, r.disk, r.sent) <==>
      forall k :: k in entries && HasNeedId(k) && AnsweredAnew(parse, entries, e.output.value, k) ==>
        k == Asker(parse, e) && e.output.value[k] == ""
  {
    var r, entries := Next(parse, b, e), EntriesOf(b.disk, e.capability);
    forall c, k | c in r.disk && k in r.disk[c] && HasNeedId(k)
      ensures EntryInSync(parse, r.disk[c][k].response, r.sent[Address(c, k)]) <==>
              !(c == e.capability && AnsweredAnew(parse, entries, e.output.value, k)
                && !(k == Asker(parse, e) && e.output.value[k] == ""))
    {
      UnsavedRequestEntry(parse, b, e, c, k);
    }
    if InSync(parse, r.disk, r.sent) {
      forall k | k in entries && HasNeedId(k) && AnsweredAnew(parse, entries, e.output.value, k)
        ensures k == Asker(parse, e) && e.output.value[k] == ""
      {
        assert EntryInSync(parse, r.disk[e.capability][k].response, r.sent[Address(e.capability, k)]);
      }
    }
  }

  lemma UnsavedRequestEntry(parse: Parser, b: Plane, e: Event, c: string, k: string)
    requires e.Request? && e.output.Some? && !e.saveOk
    requires InSync(parse, b.disk, b.sent) && b.memory == b.disk && c in b.disk && k in b.disk[c] && HasNeedId(k)
    ensures EntryInSync(parse, b.disk[c][k].response, Next(parse, b, e).sent[Address(c, k)]) <==>
            !(c == e.capability && AnsweredAnew(parse, EntriesOf(b.disk, c), e.output.value, k)
              && !(k == Asker(parse, e) && e.output.value[k] == ""))
  {
    var h, out := b.sent[Address(c, k)], e.output.value;
    assert EntryInSync(parse, b.disk[c][k].response, h);
    assert h + [] == h;
    if c == e.capability {
      OneCallbackPerRequest(parse, b, e, k);
      if k in out {
        LastGoodAppend(parse, h, Sent(out[k], false));
        JsonEqualEquivalence(parse, b.disk[c][k].response, out[k], "");
        JsonEqualEquivalence(parse, out[k], b.disk[c][k].response, "");
      } else {
        LastGoodAppend(parse, h, Sent(REVOCATION, true));
      }
      if k in out && JsonEqual(parse, b.disk[c][k].response, out[k]) && b.disk[c][k].response != "" {
        JsonEqualEquivalence(parse, LastGood(parse, h).value, b.disk[c][k].response, out[k]);
      }
    } else {
      RequestSends(parse, b, e.capability, e.origin, e.body, out, e.now, e.saveOk, Address(c, k));
    }
  }

  /** The state key of the origin that asks. */
  function Asker(parse: Parser, e: Event): string
    requires e.Request?
  {
    MakeStateKey(e.origin, ExtractNeedId(parse, e.body))
  }

  /** The handler's good answer differs from the cached one. */
  predicate AnsweredAnew(parse: Parser, entries: Entries, output: Output, k: string) {
    k in entries && entries[k].response != "" && k in output && !HasError(parse, output[k])
    && !JsonEqual(parse, output[k], entries[k].response)
  }

  ghost predicate AnswersUnchanged(parse: Parser, entries: Entries, output: Output) {
    forall k :: k in entries && HasNeedId(k) ==> !AnsweredAnew(parse, entries, output, k)
  }

  // ---- What one event makes of one entry ----

  predicate Known(st: State, a: Address) {
    a.capability in st && a.key in st[a.capability]
  }

  function EntryAt(st: State, a: Address): Entry
    requires Known(st, a)
  {
    st[a.capability][a.key]
  }

  /** The event is a request of this entry's origin for this entry's need. */
  predicate Requests(parse: Parser, e: Event, a: Address) {
    e.Request? && e.capability == a.capability && Asker(parse, e) == a.key
  }

  /** The handler answered the entry, and not with an error. */
  predicate AnsweredWell(parse: Parser, e: Event, a: Address) {
    !e.Restart? && e.capability == a.capability && e.output.Some?
    && a.key in e.output.value && !HasError(parse, e.output.value[a.key])
  }

  /** The request of the origin that asks is stored, each good answer to a known entry is
      cached with its time, the answer of the one that asks is forgotten, and the rest stays. */
  ghost predicate EntryStep(parse: Parser, before: State, e: Event, after: State, a: Address) {
    var asks, answered := Requests(parse, e, a), AnsweredWell(parse, e, a);
    && (Known(after, a) <==> Known(before, a) || asks)
    && (Known(after, a) ==>
          && EntryAt(after, a).request == (if asks then e.body else EntryAt(before, a).request)
          && EntryAt(after, a).response == (if answered then e.output.value[a.key] else if asks then "" else EntryAt(before, a).response)
          && EntryAt(after, a).updatedAt == (if answered || asks then e.now else EntryAt(before, a).updatedAt))
  }

  lemma RequestEntry(parse: Parser, b: Plane, e: Event, a: Address)
    requires e.Request?
    ensures EntryStep(parse, b.memory, e, Next(parse, b, e).memory, a)
  {
    RecordedEntry(parse, b.memory, e, a);
    var recorded := Recorded(parse, b.memory, e.capability, e.origin, e.body, e.now);
    if e.output.Some? {
      var entries := recorded[e.capability];
      assert Next(parse, b, e).memory == recorded[e.capability := Cached(parse, entries, e.output.value, e.now)];
    }
  }

  lemma RecordedEntry(parse: Parser, st: State, e: Event, a: Address)
    requires e.Request?
    ensures var r := Recorded(parse, st, e.capability, e.origin, e.body, e.now);
      && (Known(r, a) <==> Known(st, a) || Requests(parse, e, a))
      && (Known(r, a) ==> EntryAt(r, a) == if Requests(parse, e, a) then Entry(e.body, "", e.now) else EntryAt(st, a))
  {
  }

  lemma InitEntry(parse: Parser, b: Plane, e: Event, a: Address)
    requires e.Init?
    ensures EntryStep(parse, b.memory, e, Next(parse, b, e).memory, a)
  {
  }

  /** What a request or a boot initialisation makes of each entry. */
  lemma EntryAfter(parse: Parser, b: Plane, e: Event, a: Address)
    requires !e.Restart?
    ensures EntryStep(parse, b.memory, e, Next(parse, b, e).memory, a)
  {
    if e.Request? {
      RequestEntry(parse, b, e, a);
    } else {
      InitEntry(parse, b, e, a);
    }
  }

  /** A trigger stores every answer with its time, errors and unknown entries included, and
      touches nothing else; if its handler or its save fails, it touches and sends nothing. */
  lemma EntryAfterTrigger(parse: Parser, b: Plane, capability: string, output: Option<Output>, now: int, saveOk: bool, a: Address)
    ensures var r := AfterTrigger(parse, b, capability, output, now, saveOk);
      && r.memory == b.memory
      && (output.None? || !saveOk || EntriesOf(b.disk, capability) == map[] ==> r == b)
    ensures var r := AfterTrigger(parse, b, capability, output, now, saveOk);
      var stored := output.Some? && saveOk && EntriesOf(b.disk, capability) != map[]
                    && a.capability == capability && a.key in output.value;
      && (Known(r.disk, a) <==> Known(b.disk, a) || stored)
      && (Known(r.disk, a) ==>
            EntryAt(r.disk, a) == if stored
                                  then Entry(if Known(b.disk, a) then EntryAt(b.disk, a).request else "", output.value[a.key], now)
                                  else EntryAt(b.disk, a))
  {
  }

  // ---- Entries without a need id are called by nobody ----

  lemma HasNeedIdIff(origin: string, needId: string)
    requires ':' !in origin
    ensures HasNeedId(MakeStateKey(origin, needId)) <==> needId != ""
  {
    StateKeyRoundTripIff(origin, needId);
  }

  lemma NextSkipsNameless(parse: Parser, b: Plane, e: Event, a: Address)
    requires !HasNeedId(a.key)
    ensures Next(parse, b, e).sent[a] == b.sent[a]
  {
    assert b.sent[a] + [] == b.sent[a];
  }

  /** An origin that asks without a need id is never called back. */
  lemma {:induction false} NamelessNeverCalled(parse: Parser, es: seq<Event>, capability: string, origin: string)
    requires ':' !in origin
    ensures Run(parse, EMPTY, es).sent[Address(capability, origin)] == []
  {
    if es != [] {
      NamelessNeverCalled(parse, es[..|es| - 1], capability, origin);
      HasNeedIdIff(origin, "");
      NextSkipsNameless(parse, Run(parse, EMPTY, es[..|es| - 1]), es[|es| - 1], Address(capability, origin));
    }
  }

  // ---- The stored request is the last one made ----

  /** The body of the last request for this entry that memory and file must hold, if any: the
      file holds what the memory held at the last successful save, and a restart reads it. */
  datatype Asked = Asked(memory: Option<string>, file: Option<string>)

  ghost function LastAsked(parse: Parser, es: seq<Event>, a: Address): Asked {
    if es == [] then Asked(None, None)
    else
      var init, e := es[..|es| - 1], es[|es| - 1];
      var p := LastAsked(parse, init, a);
      var memory := if Requests(parse, e, a) then Some(e.body) else if e.Restart? then p.file else p.memory;
      Asked(memory, if Saves(Run(parse, EMPTY, init), e) && e.saveOk then memory else p.file)
  }

  /** The entry exists exactly if it must, and holds that request up to JSON equality. */
  predicate Holds(parse: Parser, st: State, a: Address, asked: Option<string>) {
    && (Known(st, a) <==> asked.Some?)
    && (Known(st, a) ==> JsonEqual(parse, EntryAt(st, a).request, asked.value))
  }

  lemma RereadHolds(parse: Parser, disk: State, loaded: State, a: Address, asked: Option<string>)
    requires Reread(parse, disk, loaded) && Holds(parse, disk, a, asked)
    ensures Holds(parse, loaded, a, asked)
  {
    if Known(disk, a) {
      assert RereadEntry(parse, EntryAt(disk, a), EntryAt(loaded, a));
      JsonEqualEquivalence(parse, EntryAt(disk, a).request, EntryAt(loaded, a).request, "");
      JsonEqualEquivalence(parse, EntryAt(loaded, a).request, EntryAt(disk, a).request, asked.value);
    }
  }

  lemma NextHolds(parse: Parser, b: Plane, e: Event, a: Address, asked: Option<string>)
    requires !e.Restart? && Holds(parse, b.memory, a, asked)
    ensures Holds(parse, Next(parse, b, e).memory, a, if Requests(parse, e, a) then Some(e.body) else asked)
  {
    EntryAfter(parse, b, e, a);
    if Requests(parse, e, a) {
      JsonEqualEquivalence(parse, e.body, e.body, "");
    }
  }

  /** Over every run from an empty provider, whatever fails: an entry is in memory (in the
      file) exactly if a request for it got there, and holds the last such request. */
  lemma {:induction false} RequestsHeld(parse: Parser, es: seq<Event>, a: Address)
    requires LegalRun(parse, EMPTY, es)
    ensures var r, asked := Run(parse, EMPTY, es), LastAsked(parse, es, a);
      Holds(parse, r.memory, a, asked.memory) && Holds(parse, r.disk, a, asked.file)
  {
    if es != [] {
      var init, e := es[..|es| - 1], es[|es| - 1];
      var b := Run(parse, EMPTY, init);
      LegalPrefix(parse, EMPTY, es);
      RequestsHeld(parse, init, a);
      if e.Restart? {
        RereadHolds(parse, b.disk, e.loaded, a, LastAsked(parse, init, a).file);
      } else {
        NextHolds(parse, b, e, a, LastAsked(parse, init, a).memory);
        UnsavedUnsent(parse, b, e);
      }
    }
  }

  /** A save succeeded at the `i`-th event or later. */
  ghost predicate SavedSince(parse: Parser, es: seq<Event>, i: nat) {
    i < |es| &&
    var init, e := es[..|es| - 1], es[|es| - 1];
    (Saves(Run(parse, EMPTY, init), e) && e.saveOk) || SavedSince(parse, init, i)
  }

  /** The `i`-th event is the last request for this entry, and every later restart comes after
      a successful save. */
  ghost predicate LastRequest(parse: Parser, es: seq<Event>, a: Address, i: nat) {
    && i < |es| && Requests(parse, es[i], a)
    && (forall j :: i < j < |es| ==> !Requests(parse, es[j], a))
    && (forall j :: i < j < |es| && es[j].Restart? ==> SavedSince(parse, es[..j], i))
  }

  lemma LastRequestPrefix(parse: Parser, es: seq<Event>, a: Address, i: nat)
    requires LastRequest(parse, es, a, i) && i < |es| - 1
    ensures LastRequest(parse, es[..|es| - 1], a, i)
    ensures es[|es| - 1].Restart? ==> SavedSince(parse, es[..|es| - 1], i)
  {
    var init := es[..|es| - 1];
    forall j | i < j < |init| && init[j].Restart? ensures SavedSince(parse, init[..j], i) {
      assert es[j] == init[j] && init[..j] == es[..j];
    }
  }

  /** The memory must hold this request, and so must the file if a save came since. */
  ghost predicate AskedSince(parse: Parser, es: seq<Event>, a: Address, i: nat, body: string) {
    && LastAsked(parse, es, a).memory == Some(body)
    && (SavedSince(parse, es, i) ==> LastAsked(parse, es, a).file == Some(body))
  }

  lemma AskedNow(parse: Parser, es: seq<Event>, a: Address)
    requires es != [] && Requests(parse, es[|es| - 1], a)
    ensures AskedSince(parse, es, a, |es| - 1, es[|es| - 1].body)
  {
    var init, e := es[..|es| - 1], es[|es| - 1];
    assert !SavedSince(parse, init, |init|);
    assert LastAsked(parse, es, a).memory == Some(e.body);
  }

  lemma AskedBefore(parse: Parser, es: seq<Event>, a: Address, i: nat, body: string)
    requires i < |es| - 1 && !Requests(parse, es[|es| - 1], a) && AskedSince(parse, es[..|es| - 1], a, i, body)
    requires es[|es| - 1].Restart? ==> SavedSince(parse, es[..|es| - 1], i)
    ensures AskedSince(parse, es, a, i, body)
  {
  }

  lemma {:induction false} LastRequestAsked(parse: Parser, es: seq<Event>, a: Address, i: nat)
    requires LastRequest(parse, es, a, i)
    ensures AskedSince(parse, es, a, i, es[i].body)
  {
    if i < |es| - 1 {
      LastRequestPrefix(parse, es, a, i);
      LastRequestAsked(parse, es[..|es| - 1], a, i);
      AskedBefore(parse, es, a, i, es[i].body);
    } else {
      AskedNow(parse, es, a);
    }
  }

  /** Main result: a handler is always given the last request an origin made for a need. In any
      run, the entry holds the body of the last request for it, unless a restart came before
      anything was saved again. */
  lemma LastRequestHeld(parse: Parser, es: seq<Event>, a: Address, i: nat)
    requires LegalRun(parse, EMPTY, es)
    ensures var st := Run(parse, EMPTY, es).memory;
      LastRequest(parse, es, a, i) ==> Known(st, a) && JsonEqual(parse, EntryAt(st, a).request, es[i].body)
  {
    RequestsHeld(parse, es, a);
    if LastRequest(parse, es, a, i) {
      LastRequestAsked(parse, es, a, i);
    }
  }

  // ---- What counts as an error, and as a need id ----

  /** A response is an error exactly if it is an object with a member named "error". */
  lemma HasErrorIff(parse: Parser, response: string)
    ensures HasError(parse, response) <==>
      parse(response).Some? && parse(response).value.DObj? && NamesEntry(parse(response).value.entries, "error")
  {
    if parse(response).Some? && parse(response).value.DObj? {
      var _ := MemberOf(parse(response).value.entries, "error");
    }
  }

  /** The need id of a request is the string its last member "_fort_need_id" holds, and empty
      if there is no such member or it holds something else. */
  lemma NeedIdIs(parse: Parser, request: string, entries: seq<Member>)
    requires parse(request) == Some(DObj(entries))
    ensures !NamesEntry(entries, "_fort_need_id") ==> ExtractNeedId(parse, request) == ""
    ensures forall i :: LastOf(entries, i) && entries[i].name == "_fort_need_id" ==>
      ExtractNeedId(parse, request) == if entries[i].doc.DStr? then entries[i].doc.s else ""
  {
    var _ := MemberOf(entries, "_fort_need_id");
    forall i | LastOf(entries, i) && entries[i].name == "_fort_need_id"
      ensures ExtractNeedId(parse, request) == if entries[i].doc.DStr? then entries[i].doc.s else ""
    {
      MemberAt(entries, i);
    }
  }

  // ---- Triggers ----

  /** A JSON text that equals an error response is one. */
  lemma ErrorsAreEqualOnlyToErrors(parse: Parser, x: string, y: string)
    requires JsonEqual(parse, x, y) && HasError(parse, y) && x != "" && y != ""
    ensures HasError(parse, x)
  {
    if x != y {
      JsonEqualIffDenote(parse, x, y);
    }
  }

  lemma {:induction false} LastGoodIsGood(parse: Parser, h: seq<Sent>)
    ensures LastGood(parse, h).Some? ==> !HasError(parse, LastGood(parse, h).value)
  {
    if h != [] {
      LastGoodIsGood(parse, h[..|h| - 1]);
    }
  }

  ghost predicate AnswersWithoutErrors(parse: Parser, output: Output) {
    forall k :: k in output && HasNeedId(k) ==> output[k] == "" || !HasError(parse, output[k])
  }

  /** A trigger keeps the file in agreement with the consumers exactly if the handler
      answers no addressable entry with an error: unlike a request it caches errors. */
  lemma TriggerInSyncIff(parse: Parser, b: Plane, capability: string, output: Output, now: int)
    requires InSync(parse, b.disk, b.sent) && EntriesOf(b.disk, capability) != map[]
    ensures var r := AfterTrigger(parse, b, capability, Some(output), now, true);
      InSync(parse, r.disk, r.sent) <==> AnswersWithoutErrors(parse, output)
  {
    var r := AfterTrigger(parse, b, capability, Some(output), now, true);
    var entries := EntriesOf(b.disk, capability);
    forall c, k | c in r.disk && k in r.disk[c] && HasNeedId(k)
      ensures EntryInSync(parse, r.disk[c][k].response, r.sent[Address(c, k)]) <==>
              !(c == capability && k in output && output[k] != "" && HasError(parse, output[k]))
    {
      TriggeredEntry(parse, b, capability, output, now, c, k);
    }
    if InSync(parse, r.disk, r.sent) {
      forall k | k in output && HasNeedId(k) ensures output[k] == "" || !HasError(parse, output[k]) {
        assert k in r.disk[capability];
        assert EntryInSync(parse, r.disk[capability][k].response, r.sent[Address(capability, k)]);
      }
    }
  }

  lemma TriggeredEntry(parse: Parser, b: Plane, capability: string, output: Output, now: int, c: string, k: string)
    requires InSync(parse, b.disk, b.sent) && EntriesOf(b.disk, capability) != map[] && HasNeedId(k)
    ensures var r := AfterTrigger(parse, b, capability, Some(output), now, true);
      c in r.disk && k in r.disk[c] ==>
        (EntryInSync(parse, r.disk[c][k].response, r.sent[Address(c, k)]) <==>
         !(c == capability && k in output && output[k] != "" && HasError(parse, output[k])))
  {
    var h := b.sent[Address(c, k)];
    TriggerSends(parse, b, capability, output, now, Address(c, k));
    if c == capability {
      if k in Stored(EntriesOf(b.disk, c), output, now) {
        TriggeredHere(parse, b, capability, output, now, k);
      }
    } else if c in b.disk && k in b.disk[c] {
      assert EntryInSync(parse, b.disk[c][k].response, h);
      assert h + [] == h;
    }
  }

  lemma TriggeredHere(parse: Parser, b: Plane, capability: string, output: Output, now: int, k: string)
    requires InSync(parse, b.disk, b.sent) && HasNeedId(k)
    requires k in Stored(EntriesOf(b.disk, capability), output, now)
    ensures var entries, a := EntriesOf(b.disk, capability), Address(capability, k);
      EntryInSync(parse, Stored(entries, output, now)[k].response, b.sent[a] + RequestBatch(parse, entries, output, capability, a))
      <==> !(k in output && output[k] != "" && HasError(parse, output[k]))
  {
    var entries, a := EntriesOf(b.disk, capability), Address(capability, k);
    var h, before := b.sent[a], ResponseOf(entries, k);
    assert EntryInSync(parse, before, h);
    RequestBatchFor(parse, entries, output, capability, k);
    if k in output {
      assert h + [] == h;
      TriggeredAnswer(parse, before, output[k], h);
    } else if before != "" {
      IgnoredKeepsSync(parse, before, h, Sent(REVOCATION, true));
    }
  }

  lemma TriggerSends(parse: Parser, b: Plane, capability: string, output: Output, now: int, a: Address)
    requires EntriesOf(b.disk, capability) != map[]
    ensures AfterTrigger(parse, b, capability, Some(output), now, true).sent[a] ==
            b.sent[a] + RequestBatch(parse, EntriesOf(b.disk, capability), output, capability, a)
  {
    var entries := EntriesOf(b.disk, capability);
    var revoked := Revoked(entries, output);
    var x := Batch(capability, Changed(parse, entries, output), output, false, a);
    var y := Batch(capability, revoked, Revocations(revoked), true, a);
    assert b.sent[a] + x + y == b.sent[a] + (x + y);
  }

  lemma TriggeredAnswer(parse: Parser, before: string, response: string, h: seq<Sent>)
    requires EntryInSync(parse, before, h)
    ensures EntryInSync(parse, response, if JsonEqual(parse, before, response) then h else h + [Sent(response, false)]) <==>
            !(response != "" && HasError(parse, response))
  {
    if HasError(parse, response) {
      LastGoodAppend(parse, h, Sent(response, false));
      LastGoodIsGood(parse, h);
      if response != "" && LastGood(parse, h).Some? && JsonEqual(parse, LastGood(parse, h).value, response) {
        ErrorsAreEqualOnlyToErrors(parse, LastGood(parse, h).value, response);
      }
    } else {
      AnswerKeepsSync(parse, before, response, h);
    }
  }
}
