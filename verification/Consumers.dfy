// What the consumers of asynchronous capabilities make of the callbacks they are sent
// (pkgs/fort-provider/main.go, handleCallback), and whether what they hold is what the
// provider has cached.
module Consumers {
  import opened Wrappers
  import opened JsonEquality
  import opened ControlPlane

  // ---- What the consumer makes of a callback ----

  /** What bytes.TrimSpace trims: white space in the sense of Unicode. */
  predicate WhiteSpace(c: char) {
    c in " \t\n\r\U{0B}\U{0C}\U{85}\U{A0}\U{1680}\U{2028}\U{2029}\U{202F}\U{205F}\U{3000}" || '\U{2000}' <= c <= '\U{200A}'
  }

  predicate Blank(s: string) {
    forall c :: c in s ==> WhiteSpace(c)
  }

  /** A need with a handler is satisfied if the handler accepts the payload, one without if
      the payload is not blank. */
  predicate Satisfied(handler: Option<string -> bool>, payload: string) {
    match handler
    case Some(accepts) => accepts(payload)
    case None => !Blank(payload)
  }

  /** A handler alone decides; without one, any character but white space satisfies. */
  lemma SatisfiedIff(handler: Option<string -> bool>, payload: string)
    ensures handler.Some? ==> (Satisfied(handler, payload) <==> handler.value(payload))
    ensures handler.None? ==> (Satisfied(handler, payload) <==> exists i :: 0 <= i < |payload| && !WhiteSpace(payload[i]))
  {
    if handler.None? && !Blank(payload) {
      var c :| c in payload && !WhiteSpace(c);
      var i :| 0 <= i < |payload| && payload[i] == c;
      assert !WhiteSpace(payload[i]);
    }
  }

  /** The consumer reads a blank payload as a revocation, but the provider revokes with "{}":
      a revocation leaves a need unsatisfied exactly if the need has a handler that refuses
      this payload. So one without a handler counts as satisfied by being revoked. */
  lemma RevocationUnsatisfiesIff(parse: Parser, b: Plane, e: Event, k: string, handler: Option<string -> bool>)
    requires e.Request? && e.output.Some? && HasNeedId(k) && k !in e.output.value
    requires k != Asker(parse, e) && ResponseOf(EntriesOf(b.memory, e.capability), k) != ""
    ensures var h, h' := b.sent[Address(e.capability, k)], Next(parse, b, e).sent[Address(e.capability, k)];
      && |h'| == |h| + 1 && h'[..|h|] == h && h'[|h|] == Sent("{}", true)
      && (!Satisfied(handler, h'[|h|].payload) <==> handler.Some? && !handler.value("{}"))
  {
    OneCallbackPerRequest(parse, b, e, k);
    BracesNotBlank();
  }

  lemma BracesNotBlank()
    ensures !Blank("{}")
  {
    assert "{}"[0] in "{}" && !WhiteSpace('{');
  }

  // ---- Is the consumer still using what is cached? ----

  function CachedFor(st: State, a: Address): string {
    ResponseOf(EntriesOf(st, a.capability), a.key)
  }

  /** The last callback of any kind carried this response. */
  predicate LastTold(parse: Parser, response: string, h: seq<Sent>) {
    h != [] && !h[|h| - 1].revocation && JsonEqual(parse, h[|h| - 1].payload, response)
  }

  /** The event sends the recipient a good answer: a new one, or the one it asked for itself,
      or any at boot. */
  predicate Tells(parse: Parser, b: Plane, e: Event, a: Address) {
    match e
    case Request(capability, _, _, output, _, _) =>
      capability == a.capability && output.Some? && a.key in output.value && !HasError(parse, output.value[a.key])
      && !JsonEqual(parse, if a.key == Asker(parse, e) then "" else CachedFor(b.memory, a), output.value[a.key])
    case Init(capability, output, _, _) =>
      capability == a.capability && output.Some? && EntriesOf(b.memory, capability) != map[]
      && a.key in output.value && !HasError(parse, output.value[a.key])
    case Restart(_) => false
  }

  /** The event sends the recipient an error or a revocation, while its cached response stays. */
  predicate Misleads(parse: Parser, b: Plane, e: Event, a: Address) {
    match e
    case Request(capability, _, _, output, _, _) =>
      capability == a.capability && output.Some? && a.key != Asker(parse, e) && CachedFor(b.memory, a) != ""
      && (a.key in output.value ==> HasError(parse, output.value[a.key]))
    case Init(capability, output, _, _) =>
      capability == a.capability && output.Some? && EntriesOf(b.memory, capability) != map[]
      && a.key in output.value && HasError(parse, output.value[a.key])
    case Restart(_) => false
  }

  /** A response that agrees with a good payload is no error. */
  lemma InSyncIsGood(parse: Parser, response: string, h: seq<Sent>, error: string)
    requires EntryInSync(parse, response, h) && response != "" && HasError(parse, error)
    ensures !JsonEqual(parse, response, error) && !JsonEqual(parse, error, response)
  {
    LastGoodIsGood(parse, h);
    JsonEqualEquivalence(parse, error, response, "");
    if JsonEqual(parse, response, error) {
      JsonEqualEquivalence(parse, LastGood(parse, h).value, response, error);
      ErrorsAreEqualOnlyToErrors(parse, LastGood(parse, h).value, error);
    }
  }

  lemma LastToldOf(parse: Parser, x: string, y: string, h: seq<Sent>)
    requires JsonEqual(parse, x, y)
    ensures LastTold(parse, x, h) <==> LastTold(parse, y, h)
  {
    if h != [] {
      var p := h[|h| - 1].payload;
      JsonEqualEquivalence(parse, p, x, y);
      JsonEqualEquivalence(parse, x, y, x);
      JsonEqualEquivalence(parse, p, y, x);
    }
  }

  /** If a response is cached after the step, the last callback carried it exactly if the step
      told the recipient, or it did so before and the step did not mislead it. */
  ghost predicate StepTold(parse: Parser, b: Plane, e: Event, r: Plane, a: Address) {
    CachedFor(r.memory, a) != "" ==>
      && (CachedFor(b.memory, a) == "" ==> Tells(parse, b, e, a))
      && (LastTold(parse, CachedFor(r.memory, a), r.sent[a]) <==>
          Tells(parse, b, e, a) ||
          (!Misleads(parse, b, e, a) && LastTold(parse, CachedFor(b.memory, a), b.sent[a])))
  }

  /** The same for one entry of a request's capability. `before` is its cached response, if it
      has an entry, `asker` whether its origin is the one that asks. */
  lemma AnswerTold(parse: Parser, before: string, asker: bool, answer: Option<string>, h: seq<Sent>)
    requires EntryInSync(parse, before, h)
    ensures var recorded := if asker then "" else before;
      var good := answer.Some? && !HasError(parse, answer.value);
      var tells := good && !JsonEqual(parse, recorded, answer.value);
      var misleads := !asker && before != "" && !good;
      var after := if good then answer.value else recorded;
      var h' := h + if answer.Some?
                    then (if JsonEqual(parse, recorded, answer.value) then [] else [Sent(answer.value, false)])
                    else (if recorded == "" then [] else [Sent(REVOCATION, true)]);
      after != "" ==>
        && (before == "" ==> tells)
        && (LastTold(parse, after, h') <==> tells || (!misleads && LastTold(parse, before, h)))
  {
    assert h + [] == h;
    if answer.Some? {
      var x := answer.value;
      JsonEqualEquivalence(parse, x, x, "");
      if HasError(parse, x) {
        if before != "" {
          InSyncIsGood(parse, before, h, x);
        }
      } else if JsonEqual(parse, before, x) {
        LastToldOf(parse, before, x, h);
      }
    }
  }

  lemma RequestTold(parse: Parser, b: Plane, e: Event, a: Address)
    requires e.Request? && e.output.Some? && e.capability == a.capability && HasNeedId(a.key)
    requires InSync(parse, b.memory, b.sent)
    ensures StepTold(parse, b, e, Next(parse, b, e), a)
  {
    var out, before := e.output.value, CachedFor(b.memory, a);
    OneCallbackPerRequest(parse, b, e, a.key);
    CachedAfterRequest(parse, b, e, a);
    assert EntryInSync(parse, before, b.sent[a]);
    AnswerTold(parse, before, a.key == Asker(parse, e), if a.key in out then Some(out[a.key]) else None, b.sent[a]);
  }

  lemma InitTold(parse: Parser, b: Plane, e: Event, a: Address)
    requires e.Init? && Saves(b, e) && e.capability == a.capability && HasNeedId(a.key)
    requires InSync(parse, b.memory, b.sent)
    ensures StepTold(parse, b, e, Next(parse, b, e), a)
  {
    var out, h, before := e.output.value, b.sent[a], CachedFor(b.memory, a);
    InitTellsEveryone(parse, b, e.capability, out, e.now, e.saveOk, a.key);
    assert h + [] == h;
    if a.key in out {
      JsonEqualEquivalence(parse, out[a.key], out[a.key], "");
      if before != "" && HasError(parse, out[a.key]) {
        assert EntryInSync(parse, before, h);
        InSyncIsGood(parse, before, h, out[a.key]);
      }
    }
  }

  lemma NextTold(parse: Parser, b: Plane, e: Event, a: Address)
    requires !e.Restart? && HasNeedId(a.key) && InSync(parse, b.memory, b.sent)
    ensures StepTold(parse, b, e, Next(parse, b, e), a)
  {
    if !Saves(b, e) {
      UnsavedTold(parse, b, e, a);
    } else if e.capability != a.capability {
      ElsewhereTold(parse, b, e, a);
    } else if e.Request? {
      RequestTold(parse, b, e, a);
    } else {
      InitTold(parse, b, e, a);
    }
  }

  lemma UnsavedTold(parse: Parser, b: Plane, e: Event, a: Address)
    requires !e.Restart? && !Saves(b, e)
    ensures var r := Next(parse, b, e);
      && r.sent == b.sent && !Tells(parse, b, e, a) && !Misleads(parse, b, e, a)
      && (CachedFor(r.memory, a) == CachedFor(b.memory, a) || CachedFor(r.memory, a) == "")
  {
  }

  lemma ElsewhereTold(parse: Parser, b: Plane, e: Event, a: Address)
    requires !e.Restart? && Saves(b, e) && e.capability != a.capability
    ensures var r := Next(parse, b, e);
      && r.sent[a] == b.sent[a] && !Tells(parse, b, e, a) && !Misleads(parse, b, e, a)
      && CachedFor(r.memory, a) == CachedFor(b.memory, a)
  {
    assert b.sent[a] + [] == b.sent[a];
    if e.Request? {
      RequestSends(parse, b, e.capability, e.origin, e.body, e.output.value, e.now, e.saveOk, a);
    }
    OtherCapabilityKept(parse, b, e, a);
  }

  lemma OtherCapabilityKept(parse: Parser, b: Plane, e: Event, a: Address)
    requires !e.Restart? && e.capability != a.capability
    ensures CachedFor(Next(parse, b, e).memory, a) == CachedFor(b.memory, a)
  {
    EntryAfter(parse, b, e, a);
  }

  /** Of the events that sent the recipient something, the last one told it. */
  ghost predicate Told(parse: Parser, es: seq<Event>, a: Address) {
    es != [] &&
    var b, e := Run(parse, EMPTY, es[..|es| - 1]), es[|es| - 1];
    Tells(parse, b, e, a) || (!Misleads(parse, b, e, a) && Told(parse, es[..|es| - 1], a))
  }

  ghost predicate ToldExactly(parse: Parser, st: State, sent: History, es: seq<Event>, a: Address) {
    CachedFor(st, a) != "" ==> (LastTold(parse, CachedFor(st, a), sent[a]) <==> Told(parse, es, a))
  }

  /** Main result on what consumers hold: over any run in which the last save before each
      restart succeeded, the last callback of any kind carried the cached response exactly if
      the last event that sent the recipient anything sent it a good answer. A revocation or an
      error does not, and the cached response outlives it: an answer that comes back unchanged
      is not sent again. */
  lemma {:induction false} LastToldIff(parse: Parser, es: seq<Event>, a: Address)
    requires LegalRun(parse, EMPTY, es) && RestartsFresh(parse, es) && HasNeedId(a.key)
    ensures var r := Run(parse, EMPTY, es);
      ToldExactly(parse, r.memory, r.sent, es, a) && (!FileStale(parse, es) ==> ToldExactly(parse, r.disk, r.sent, es, a))
  {
    if es != [] {
      var init, e := es[..|es| - 1], es[|es| - 1];
      var b := Run(parse, EMPTY, init);
      LegalPrefix(parse, EMPTY, es);
      FreshPrefix(parse, es);
      LastToldIff(parse, init, a);
      RunInSync(parse, init);
      if e.Restart? {
        RestartTold(parse, b, e.loaded, a);
      } else {
        NextToldExactly(parse, es, b, e, a);
      }
    }
  }

  lemma NextToldExactly(parse: Parser, es: seq<Event>, b: Plane, e: Event, a: Address)
    requires es != [] && b == Run(parse, EMPTY, es[..|es| - 1]) && e == es[|es| - 1] && !e.Restart?
    requires HasNeedId(a.key) && InSync(parse, b.memory, b.sent)
    requires ToldExactly(parse, b.memory, b.sent, es[..|es| - 1], a)
    requires !FileStale(parse, es[..|es| - 1]) ==> ToldExactly(parse, b.disk, b.sent, es[..|es| - 1], a)
    ensures var r := Next(parse, b, e);
      ToldExactly(parse, r.memory, r.sent, es, a) && (!FileStale(parse, es) ==> ToldExactly(parse, r.disk, r.sent, es, a))
  {
    var r := Next(parse, b, e);
    NextTold(parse, b, e, a);
    MemoryToldExactly(parse, es, b, r, a);
    FileToldExactly(parse, es, b, r, a);
  }

  lemma MemoryToldExactly(parse: Parser, es: seq<Event>, b: Plane, r: Plane, a: Address)
    requires es != [] && b == Run(parse, EMPTY, es[..|es| - 1])
    requires ToldExactly(parse, b.memory, b.sent, es[..|es| - 1], a) && StepTold(parse, b, es[|es| - 1], r, a)
    ensures ToldExactly(parse, r.memory, r.sent, es, a)
  {
  }

  lemma FileToldExactly(parse: Parser, es: seq<Event>, b: Plane, r: Plane, a: Address)
    requires es != [] && !es[|es| - 1].Restart?
    requires b == Run(parse, EMPTY, es[..|es| - 1]) && r == Next(parse, b, es[|es| - 1])
    requires !FileStale(parse, es[..|es| - 1]) ==> ToldExactly(parse, b.disk, b.sent, es[..|es| - 1], a)
    requires ToldExactly(parse, r.memory, r.sent, es, a)
    ensures !FileStale(parse, es) ==> ToldExactly(parse, r.disk, r.sent, es, a)
  {
    UnsavedUnsent(parse, b, es[|es| - 1]);
    if !Saves(b, es[|es| - 1]) {
      UnsavedTold(parse, b, es[|es| - 1], a);
    }
  }

  lemma RestartTold(parse: Parser, b: Plane, loaded: State, a: Address)
    requires Reread(parse, b.disk, loaded)
    ensures CachedFor(loaded, a) != "" <==> CachedFor(b.disk, a) != ""
    ensures LastTold(parse, CachedFor(loaded, a), b.sent[a]) <==> LastTold(parse, CachedFor(b.disk, a), b.sent[a])
  {
    JsonEqualEquivalence(parse, "", "", "");
    if a.capability in b.disk && a.key in b.disk[a.capability] {
      assert RereadEntry(parse, b.disk[a.capability][a.key], loaded[a.capability][a.key]);
    }
    assert JsonEqual(parse, CachedFor(b.disk, a), CachedFor(loaded, a));
    LastToldOf(parse, CachedFor(b.disk, a), CachedFor(loaded, a), b.sent[a]);
  }

  lemma UnansweredKept(parse: Parser, b: Plane, e: Event, a: Address)
    requires e.Request? && e.output.Some? && e.capability == a.capability && a.key != Asker(parse, e)
    requires HasNeedId(a.key) && CachedFor(b.memory, a) != "" && a.key !in e.output.value
    ensures Next(parse, b, e).sent[a] == b.sent[a] + [Sent(REVOCATION, true)]
    ensures CachedFor(Next(parse, b, e).memory, a) == CachedFor(b.memory, a)
  {
    OneCallbackPerRequest(parse, b, e, a.key);
  }

  lemma UnchangedNotSent(parse: Parser, b: Plane, e: Event, a: Address)
    requires e.Request? && e.output.Some? && e.capability == a.capability && a.key != Asker(parse, e)
    requires HasNeedId(a.key) && a.key in e.output.value
    requires JsonEqual(parse, CachedFor(b.memory, a), e.output.value[a.key])
    ensures Next(parse, b, e).sent[a] == b.sent[a]
    ensures JsonEqual(parse, CachedFor(b.memory, a), CachedFor(Next(parse, b, e).memory, a))
  {
    OneCallbackPerRequest(parse, b, e, a.key);
    assert b.sent[a] + [] == b.sent[a];
    CachedAfterRequest(parse, b, e, a);
    JsonEqualEquivalence(parse, CachedFor(b.memory, a), "", "");
  }

  lemma CachedAfterRequest(parse: Parser, b: Plane, e: Event, a: Address)
    requires e.Request? && e.output.Some? && e.capability == a.capability
    ensures CachedFor(Next(parse, b, e).memory, a) ==
      var before := if a.key == Asker(parse, e) then "" else CachedFor(b.memory, a);
      if a.key !in EntriesOf(b.memory, a.capability) && a.key != Asker(parse, e) then ""
      else if a.key in e.output.value && !HasError(parse, e.output.value[a.key]) then e.output.value[a.key]
      else before
  {
  }

  /** The shortest such case: revoked by one request of others, answered again by the next. */
  lemma ReturningAnswerNotSent(parse: Parser, b: Plane, e: Event, f: Event, a: Address)
    requires e.Request? && e.output.Some? && f.Request? && f.output.Some?
    requires e.capability == f.capability == a.capability && a.key != Asker(parse, e) && a.key != Asker(parse, f)
    requires HasNeedId(a.key) && CachedFor(b.memory, a) != "" && a.key !in e.output.value
    requires a.key in f.output.value && JsonEqual(parse, CachedFor(b.memory, a), f.output.value[a.key])
    ensures var r := Next(parse, Next(parse, b, e), f);
      && r.sent[a] == b.sent[a] + [Sent(REVOCATION, true)]
      && JsonEqual(parse, CachedFor(b.memory, a), CachedFor(r.memory, a))
  {
    UnansweredKept(parse, b, e, a);
    UnchangedNotSent(parse, Next(parse, b, e), f, a);
  }
}
