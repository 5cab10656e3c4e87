// The OIDC client provider (apps/pocket-id/provider): reconciles the identity server's
// clients with the requests of all hosts. The server's answers are inputs, numbered by the
// calls made; a call that reports failure may still have taken effect.
module IdentityClients {
  import opened Numbers
  import opened Wrappers

  datatype Client = Client(id: string, name: string)

  /** A request after decoding. */
  datatype Request = Malformed | Request(name: string, callbacks: bool, groups: bool)

  datatype Response = Credentials(id: string, secret: string) | Failed

  datatype Input = Input(key: string, request: Request, cached: Option<Response>)

  datatype Call = Created(id: string) | Deleted(id: string) | Regenerated(id: string)

  /** The server's clients by id, the calls that changed clients or secrets, and the number
      of all calls made. */
  datatype Server = Server(clients: map<string, string>, log: seq<Call>, calls: nat)

  /** How the n-th call ends: whether it reports success, whether it takes effect if it does
      not, and what the server makes up: ids, secrets, and the name left by an update. */
  datatype World = World(
    ok: nat -> bool,
    applied: nat -> bool,
    newId: nat -> string,
    newSecret: nat -> string,
    renamed: nat -> string)

  ghost predicate Sane(w: World) {
    forall n: nat :: w.newId(n) != "" && w.newSecret(n) != ""
  }

  ghost predicate NoFailures(w: World) {
    forall n: nat :: w.ok(n)
  }

  predicate TakesEffect(w: World, n: nat) {
    w.ok(n) || w.applied(n)
  }

  // ---- The API, as seen by the provider ----

  function GroupsSet(s: Server): Server {
    s.(calls := s.calls + 1)
  }

  /** The update sends an empty name; what the server then calls the client is its business. */
  function CallbacksUpdated(w: World, s: Server, id: string): Server {
    Server(if TakesEffect(w, s.calls) && id in s.clients then s.clients[id := w.renamed(s.calls)] else s.clients,
           s.log, s.calls + 1)
  }

  function ClientCreated(w: World, s: Server, name: string): (Server, Option<string>) {
    var id := w.newId(s.calls);
    (if TakesEffect(w, s.calls) then Server(s.clients[id := name], s.log + [Created(id)], s.calls + 1)
     else s.(calls := s.calls + 1),
     if w.ok(s.calls) then Some(id) else None)
  }

  function ClientDeleted(w: World, s: Server, id: string): (Server, bool) {
    (if TakesEffect(w, s.calls) then Server(s.clients - {id}, s.log + [Deleted(id)], s.calls + 1)
     else s.(calls := s.calls + 1),
     w.ok(s.calls))
  }

  function SecretRegenerated(w: World, s: Server, id: string): (Server, Option<string>) {
    (if TakesEffect(w, s.calls) then s.(log := s.log + [Regenerated(id)], calls := s.calls + 1)
     else s.(calls := s.calls + 1),
     if w.ok(s.calls) then Some(w.newSecret(s.calls)) else None)
  }

  // ---- What one run does ----

  predicate Lists(existing: seq<Client>, id: string) {
    exists i :: 0 <= i < |existing| && existing[i].id == id
  }

  /** The id of the first listed client of that name. */
  function FindByName(existing: seq<Client>, name: string): (r: Option<string>)
    ensures r.Some? ==> exists i :: 0 <= i < |existing| && existing[i] == Client(r.value, name)
                                    && forall j :: 0 <= j < i ==> existing[j].name != name
    ensures r.None? ==> forall i :: 0 <= i < |existing| ==> existing[i].name != name
  {
    if existing == [] then None
    else if existing[0].name == name then
      assert existing[0] == Client(existing[0].id, name);
      Some(existing[0].id)
    else
      var r := FindByName(existing[1..], name);
      assert r.Some? ==> forall i :: 0 <= i < |existing[1..]| ==> existing[1..][i] == existing[i + 1];
      r
  }

  function Synced(w: World, s: Server, id: string, callbacks: bool): Server {
    var s1 := GroupsSet(s);
    if callbacks then CallbacksUpdated(w, s1, id) else s1
  }

  datatype Outcome = Outcome(server: Server, response: Response)

  function NewClient(w: World, s: Server, name: string, groups: bool): Outcome {
    var (s1, id) := ClientCreated(w, s, name);
    if id.None? then Outcome(s1, Failed)
    else
      var s2 := if groups then GroupsSet(s1) else s1;
      var (s3, secret) := SecretRegenerated(w, s2, id.value);
      Outcome(s3, if secret.Some? then Credentials(id.value, secret.value) else Failed)
  }

  predicate UsableCache(existing: seq<Client>, cached: Option<Response>) {
    cached.Some? && cached.value.Credentials? && cached.value.id != "" && cached.value.secret != ""
    && Lists(existing, cached.value.id)
  }

  /** Reuse the cached credentials, else the client of that name with a new secret, else a new
      client; a client whose secret cannot be regenerated is deleted and recreated. */
  function ClientProcessed(w: World, s: Server, existing: seq<Client>, r: Request, cached: Option<Response>): Outcome
    requires r.Request?
  {
    if UsableCache(existing, cached) then
      Outcome(Synced(w, s, cached.value.id, r.callbacks), cached.value)
    else
      var found := FindByName(existing, r.name);
      if found.None? then NewClient(w, s, r.name, r.groups)
      else
        var s1 := Synced(w, s, found.value, r.callbacks);
        var (s2, secret) := SecretRegenerated(w, s1, found.value);
        if secret.Some? then Outcome(s2, Credentials(found.value, secret.value))
        else
          var (s3, ok) := ClientDeleted(w, s2, found.value);
          if !ok then Outcome(s3, Failed) else NewClient(w, s3, r.name, r.groups)
  }

  /** The run so far: the server, the answers, and the ids garbage collection must keep. */
  datatype Progress = Progress(server: Server, output: map<string, Response>, kept: set<string>)

  function Kept(r: Response): set<string> {
    if r.Credentials? then {r.id} else {}
  }

  function InputProcessed(w: World, existing: seq<Client>, p: Progress, i: Input): Progress {
    if i.request.Malformed? || i.request.name == "" then p.(output := p.output[i.key := Failed])
    else
      var o := ClientProcessed(w, p.server, existing, i.request, i.cached);
      Progress(o.server, p.output[i.key := o.response], p.kept + Kept(o.response))
  }

  function AllProcessed(w: World, s: Server, existing: seq<Client>, inputs: seq<Input>): Progress {
    if inputs == [] then Progress(s, map[], {})
    else InputProcessed(w, existing, AllProcessed(w, s, existing, inputs[..|inputs| - 1]), inputs[|inputs| - 1])
  }

  function Collected(w: World, s: Server, listed: seq<Client>, kept: set<string>): Server {
    if listed == [] then s
    else
      var s1, id := Collected(w, s, listed[..|listed| - 1], kept), listed[|listed| - 1].id;
      if id in kept then s1 else ClientDeleted(w, s1, id).0
  }

  /** A whole run; `relisted` is the listing garbage collection gets, None if it fails. */
  function AfterRun(w: World, s: Server, existing: seq<Client>, inputs: seq<Input>, relisted: Option<seq<Client>>): Progress {
    var p := AllProcessed(w, s, existing, inputs);
    if relisted.None? then p else p.(server := Collected(w, p.server, relisted.value, p.kept))
  }

  // ---- The provider ----

  /** The server's answer to one listing request: some clients, and where it says it is. */
  datatype Listing = Listing(data: seq<Client>, currentPage: int, totalPages: int)

  /** The answer to the request for page n, counted from 1; None is any failure. */
  type Pages = nat -> Option<Listing>

  predicate Ends(pages: Pages, n: nat) {
    pages(n).None? || pages(n).value.currentPage >= pages(n).value.totalPages
  }

  /** The first `n` answers put together. */
  function Gathered(pages: Pages, n: nat): seq<Client> {
    if n == 0 then [] else Gathered(pages, n - 1) + if pages(n).Some? then pages(n).value.data else []
  }

  /** The pagination loop asks for page after page until one fails or says it is the last;
      `limit` witnesses that one does. It returns all of them in order, unless one failed. */
  method GetAllClients(pages: Pages, ghost limit: nat) returns (all: Option<seq<Client>>, requests: nat)
    requires limit >= 1 && Ends(pages, limit)
    ensures requests >= 1 && Ends(pages, requests) && forall n: nat :: 1 <= n < requests ==> !Ends(pages, n)
    ensures all.Some? <==> pages(requests).Some?
    ensures all.Some? ==> all.value == Gathered(pages, requests)
  {
    var clients: seq<Client> := [];
    var page: nat := 1;
    while true
      invariant 1 <= page <= limit && clients == Gathered(pages, page - 1)
      invariant forall n: nat :: 1 <= n < page ==> !Ends(pages, n)
      decreases limit - page
    {
      var list := pages(page);
      if list.None? {
        return None, page;
      }
      clients := clients + list.value.data;
      if list.value.currentPage >= list.value.totalPages {
        break;
      }
      page := page + 1;
    }
    return Some(clients), page;
  }

  function Flatten(pages: seq<seq<Client>>): seq<Client> {
    if pages == [] then [] else Flatten(pages[..|pages| - 1]) + pages[|pages| - 1]
  }

  /** A server that says which page it sends, and cuts its clients into the same pages
      throughout; there are no clients beyond the last page. */
  ghost predicate Serves(pages: Pages, content: seq<seq<Client>>) {
    forall n: nat :: n >= 1 ==>
      pages(n) == Some(Listing(if n <= |content| then content[n - 1] else [], n, |content|))
  }

  lemma {:induction false} GatheredPrefix(pages: Pages, content: seq<seq<Client>>, n: nat)
    requires Serves(pages, content) && n <= |content|
    ensures Gathered(pages, n) == Flatten(content[..n])
  {
    if n > 0 {
      GatheredPrefix(pages, content, n - 1);
      assert content[..n][..n - 1] == content[..n - 1];
    }
  }

  /** From such a server the loop gets every client, with one request a page (one if there is
      none). */
  lemma AllPagesGathered(pages: Pages, content: seq<seq<Client>>, requests: nat)
    requires Serves(pages, content)
    requires requests >= 1 && Ends(pages, requests) && forall n: nat :: 1 <= n < requests ==> !Ends(pages, n)
    ensures requests == Max(1, |content|) && Gathered(pages, requests) == Flatten(content)
  {
    assert requests > 1 ==> !Ends(pages, requests - 1);
    assert |content| >= 1 ==> Ends(pages, |content|);
    if content == [] {
      assert Gathered(pages, 1) == Gathered(pages, 0);
    } else {
      GatheredPrefix(pages, content, |content|);
      assert content[..|content|] == content;
    }
  }

  method FindClientByID(clients: seq<Client>, id: string) returns (found: bool)
    ensures found == Lists(clients, id)
  {
    var i := 0;
    while i < |clients|
      invariant 0 <= i <= |clients|
      invariant forall j :: 0 <= j < i ==> clients[j].id != id
    {
      if clients[i].id == id {
        return true;
      }
      i := i + 1;
    }
    return false;
  }

  method FindClientByName(clients: seq<Client>, name: string) returns (found: Option<string>)
    ensures found == FindByName(clients, name)
  {
    var i := 0;
    while i < |clients|
      invariant 0 <= i <= |clients|
      invariant FindByName(clients, name) == FindByName(clients[i..], name)
    {
      if clients[i].name == name {
        return Some(clients[i].id);
      }
      i := i + 1;
    }
    return None;
  }

  class Provider {
    const w: World
    ghost var clients: map<string, string>
    ghost var log: seq<Call>
    var calls: nat

    ghost function Contents(): Server
      reads this
    {
      Server(clients, log, calls)
    }

    constructor (w: World, ghost clients: map<string, string>)
      ensures this.w == w && Contents() == Server(clients, [], 0)
    {
      this.w, this.clients, log, calls := w, clients, [], 0;
    }

    method SetAllowedGroups(id: string)
      modifies this
      ensures Contents() == GroupsSet(old(Contents()))
    {
      calls := calls + 1;
    }

    method UpdateClientCallbacks(id: string)
      modifies this
      ensures Contents() == CallbacksUpdated(w, old(Contents()), id)
    {
      clients := CallbacksUpdated(w, Contents(), id).clients;
      calls := calls + 1;
    }

    method CreateClient(name: string) returns (id: Option<string>)
      modifies this
      ensures (Contents(), id) == ClientCreated(w, old(Contents()), name)
    {
      ghost var s := ClientCreated(w, Contents(), name).0;
      id := if w.ok(calls) then Some(w.newId(calls)) else None;
      clients, log, calls := s.clients, s.log, calls + 1;
    }

    method DeleteClient(id: string) returns (ok: bool)
      modifies this
      ensures (Contents(), ok) == ClientDeleted(w, old(Contents()), id)
    {
      ghost var s := ClientDeleted(w, Contents(), id).0;
      ok := w.ok(calls);
      clients, log, calls := s.clients, s.log, calls + 1;
    }

    method RegenerateSecret(id: string) returns (secret: Option<string>)
      modifies this
      ensures (Contents(), secret) == SecretRegenerated(w, old(Contents()), id)
    {
      ghost var s := SecretRegenerated(w, Contents(), id).0;
      secret := if w.ok(calls) then Some(w.newSecret(calls)) else None;
      log, calls := s.log, calls + 1;
    }

    method CreateNewClient(name: string, groups: bool, keptIDs: set<string>) returns (response: Response, kept: set<string>)
      modifies this
      ensures Outcome(Contents(), response) == NewClient(w, old(Contents()), name, groups)
      ensures kept == keptIDs + Kept(response)
    {
      kept := keptIDs;
      var id := CreateClient(name);
      if id.None? {
        return Failed, kept;
      }
      if groups {
        SetAllowedGroups(id.value);
      }
      var secret := RegenerateSecret(id.value);
      if secret.None? {
        return Failed, kept;
      }
      return Credentials(id.value, secret.value), kept + {id.value};
    }

    method ProcessClient(existing: seq<Client>, r: Request, cached: Option<Response>, keptIDs: set<string>)
        returns (response: Response, kept: set<string>)
      requires r.Request?
      modifies this
      ensures Outcome(Contents(), response) == ClientProcessed(w, old(Contents()), existing, r, cached)
      ensures kept == keptIDs + Kept(response)
    {
      kept := keptIDs;
      if cached.Some? && cached.value.Credentials? && cached.value.id != "" && cached.value.secret != "" {
        var found := FindClientByID(existing, cached.value.id);
        if found {
          SetAllowedGroups(cached.value.id);
          if r.callbacks {
            UpdateClientCallbacks(cached.value.id);
          }
          return cached.value, kept + {cached.value.id};
        }
      }
      var client := FindClientByName(existing, r.name);
      if client.Some? {
        SetAllowedGroups(client.value);
        if r.callbacks {
          UpdateClientCallbacks(client.value);
        }
        var secret := RegenerateSecret(client.value);
        if secret.None? {
          var ok := DeleteClient(client.value);
          if !ok {
            return Failed, kept;
          }
          response, kept := CreateNewClient(r.name, r.groups, kept);
          return;
        }
        return Credentials(client.value, secret.value), kept + {client.value};
      }
      response, kept := CreateNewClient(r.name, r.groups, kept);
    }

    /** One iteration of the request loop. */
    method ProcessEntry(existing: seq<Client>, input: Input, output: map<string, Response>, keptIDs: set<string>)
        returns (output': map<string, Response>, keptIDs': set<string>)
      modifies this
      ensures Progress(Contents(), output', keptIDs') ==
              InputProcessed(w, existing, Progress(old(Contents()), output, keptIDs), input)
    {
      if input.request.Malformed? {
        return output[input.key := Failed], keptIDs;
      }
      if input.request.name == "" {
        return output[input.key := Failed], keptIDs;
      }
      var response;
      response, keptIDs' := ProcessClient(existing, input.request, input.cached, keptIDs);
      output' := output[input.key := response];
    }

    method ProcessEntries(existing: seq<Client>, inputs: seq<Input>, relisted: Option<seq<Client>>)
        returns (output: map<string, Response>)
      modifies this
      ensures var p := AfterRun(w, old(Contents()), existing, inputs, relisted);
        Contents() == p.server && output == p.output
    {
      output := map[];
      var keptIDs: set<string> := {};
      var i := 0;
      while i < |inputs|
        invariant 0 <= i <= |inputs|
        invariant Progress(Contents(), output, keptIDs) == AllProcessed(w, old(Contents()), existing, inputs[..i])
      {
        assert inputs[..i + 1][..i] == inputs[..i];
        output, keptIDs := ProcessEntry(existing, inputs[i], output, keptIDs);
        i := i + 1;
      }
      assert inputs[..i] == inputs;
      if relisted.Some? {
        GarbageCollect(relisted.value, keptIDs);
      }
    }

    method GarbageCollect(listed: seq<Client>, keptIDs: set<string>)
      modifies this
      ensures Contents() == Collected(w, old(Contents()), listed, keptIDs)
    {
      var i := 0;
      while i < |listed|
        invariant 0 <= i <= |listed|
        invariant Contents() == Collected(w, old(Contents()), listed[..i], keptIDs)
      {
        assert listed[..i + 1][..i] == listed[..i];
        if listed[i].id !in keptIDs {
          var _ := DeleteClient(listed[i].id);
        }
        i := i + 1;
      }
      assert listed[..i] == listed;
    }
  }

  // ---- What a run guarantees ----

  ghost predicate DistinctKeys(inputs: seq<Input>) {
    forall i, j :: 0 <= i < j < |inputs| ==> inputs[i].key != inputs[j].key
  }

  /** `id` is named in a non-error answer. */
  ghost predicate Named(output: map<string, Response>, id: string) {
    exists k :: k in output && output[k].Credentials? && output[k].id == id
  }

  lemma {:induction false} OutputKeys(w: World, s: Server, existing: seq<Client>, inputs: seq<Input>, key: string)
    ensures key in AllProcessed(w, s, existing, inputs).output <==>
            exists i :: 0 <= i < |inputs| && inputs[i].key == key
  {
    if inputs != [] {
      var init := inputs[..|inputs| - 1];
      OutputKeys(w, s, existing, init, key);
      if i :| 0 <= i < |init| && init[i].key == key {
        assert inputs[i].key == key;
      }
      if i :| 0 <= i < |inputs| && inputs[i].key == key {
        assert i < |init| ==> init[i].key == key;
      }
    }
  }

  /** The ids kept are exactly those named in the answers. */
  lemma {:induction false} KeptAreNamed(w: World, s: Server, existing: seq<Client>, inputs: seq<Input>)
    requires DistinctKeys(inputs)
    ensures var p := AllProcessed(w, s, existing, inputs);
      forall id :: id in p.kept <==> Named(p.output, id)
  {
    if inputs != [] {
      var init, last := inputs[..|inputs| - 1], inputs[|inputs| - 1];
      KeptAreNamed(w, s, existing, init);
      var p, r := AllProcessed(w, s, existing, init), AllProcessed(w, s, existing, inputs);
      OutputKeys(w, s, existing, init, last.key);
      assert last.key !in p.output;
      forall id ensures id in r.kept <==> Named(r.output, id) {
        if Named(p.output, id) {
          var k :| k in p.output && p.output[k].Credentials? && p.output[k].id == id;
          assert r.output[k] == p.output[k];
        }
        if Named(r.output, id) {
          var k :| k in r.output && r.output[k].Credentials? && r.output[k].id == id;
          if k != last.key {
            assert p.output[k] == r.output[k];
          }
        }
        assert r.output[last.key].Credentials? ==> Named(r.output, r.output[last.key].id);
      }
    }
  }

  ghost predicate DeletedIn(log: seq<Call>, from: nat, id: string) {
    exists i :: from <= i < |log| && log[i] == Deleted(id)
  }

  /** Garbage collection only adds deletions, only of listed ids it was not told to keep. */
  lemma {:induction false} CollectionSparesKept(w: World, s: Server, listed: seq<Client>, kept: set<string>)
    ensures var r := Collected(w, s, listed, kept);
      && s.log <= r.log
      && (forall id :: DeletedIn(r.log, |s.log|, id) ==> id !in kept)
      && (forall id :: id in kept ==> (id in r.clients <==> id in s.clients))
      && (forall id :: id in r.clients ==> id in s.clients)
  {
    if listed != [] {
      var init := listed[..|listed| - 1];
      CollectionSparesKept(w, s, init, kept);
      var s1, r := Collected(w, s, init, kept), Collected(w, s, listed, kept);
      forall id | DeletedIn(r.log, |s.log|, id) ensures id !in kept {
        var i :| |s.log| <= i < |r.log| && r.log[i] == Deleted(id);
        if i < |s1.log| {
          assert s1.log[i] == Deleted(id);
        }
      }
    }
  }

  /** Main result under arbitrary failures: garbage collection never deletes a client that is
      named in a non-error answer. */
  lemma CollectionSparesNamed(w: World, s: Server, existing: seq<Client>, inputs: seq<Input>,
                              relisted: Option<seq<Client>>, id: string)
    requires DistinctKeys(inputs) && Named(AfterRun(w, s, existing, inputs, relisted).output, id)
    ensures var p, r := AllProcessed(w, s, existing, inputs), AfterRun(w, s, existing, inputs, relisted);
      && p.server.log <= r.server.log
      && !DeletedIn(r.server.log, |p.server.log|, id)
      && (id in p.server.clients ==> id in r.server.clients)
  {
    var p := AllProcessed(w, s, existing, inputs);
    KeptAreNamed(w, s, existing, inputs);
    if relisted.Some? {
      CollectionSparesKept(w, p.server, relisted.value, p.kept);
    }
  }

  /** The listing shows exactly the server's clients. */
  ghost predicate Complete(listed: seq<Client>, s: Server) {
    forall id :: Lists(listed, id) <==> id in s.clients
  }

  /** Without failures processing deletes nothing, keeps only existing clients, and answers
      every well-formed request. */
  lemma {:induction false} ProcessingWithoutFailures(w: World, s: Server, existing: seq<Client>, inputs: seq<Input>)
    requires NoFailures(w) && (forall id :: Lists(existing, id) ==> id in s.clients)
    ensures var p := AllProcessed(w, s, existing, inputs);
      && s.clients.Keys <= p.server.clients.Keys
      && p.kept <= p.server.clients.Keys
  {
    if inputs != [] {
      var init, last := inputs[..|inputs| - 1], inputs[|inputs| - 1];
      ProcessingWithoutFailures(w, s, existing, init);
      var p := AllProcessed(w, s, existing, init);
      if last.request.Request? && last.request.name != "" {
        ClientWithoutFailures(w, p.server, existing, last.request, last.cached);
      }
    }
  }

  lemma ClientWithoutFailures(w: World, s: Server, existing: seq<Client>, r: Request, cached: Option<Response>)
    requires NoFailures(w) && r.Request? && (forall id :: Lists(existing, id) ==> id in s.clients)
    ensures var o := ClientProcessed(w, s, existing, r, cached);
      && s.clients.Keys <= o.server.clients.Keys
      && o.response.Credentials? && o.response.id in o.server.clients
      && (Sane(w) && (forall i :: 0 <= i < |existing| ==> existing[i].id != "") ==>
            o.response.id != "" && o.response.secret != "")
  {
    if !UsableCache(existing, cached) {
      var found := FindByName(existing, r.name);
      if found.Some? {
        var i :| 0 <= i < |existing| && existing[i] == Client(found.value, r.name);
        assert Lists(existing, found.value);
      }
    }
  }

  lemma {:induction false} CollectionWithoutFailures(w: World, s: Server, listed: seq<Client>, kept: set<string>)
    requires NoFailures(w)
    ensures forall id :: id in Collected(w, s, listed, kept).clients <==>
                         id in s.clients && (id in kept || !Lists(listed, id))
  {
    if listed != [] {
      var init, last := listed[..|listed| - 1], listed[|listed| - 1];
      CollectionWithoutFailures(w, s, init, kept);
      forall id ensures Lists(listed, id) <==> Lists(init, id) || last.id == id {
        if Lists(init, id) {
          var i :| 0 <= i < |init| && init[i].id == id;
          assert listed[i].id == id;
        }
        if last.id == id {
          assert listed[|listed| - 1].id == id;
        }
        if i :| 0 <= i < |listed| && listed[i].id == id {
          assert i < |init| ==> init[i].id == id;
        }
      }
    }
  }

  /** Without failures a listed client is never replaced: by cache or by name its id is
      reused, and only the latter regenerates a secret; an unlisted one is created once. */
  lemma ListedClientReused(w: World, s: Server, existing: seq<Client>, r: Request, cached: Option<Response>)
    requires NoFailures(w) && r.Request?
    ensures var o, found := ClientProcessed(w, s, existing, r, cached), FindByName(existing, r.name);
      && o.response.Credentials?
      && (UsableCache(existing, cached) ==> o.response == cached.value && o.server.log == s.log)
      && (!UsableCache(existing, cached) && found.Some? ==>
            o.response.id == found.value && o.server.log == s.log + [Regenerated(found.value)])
      && (!UsableCache(existing, cached) && found.None? ==>
            o.server.log == s.log + [Created(o.response.id), Regenerated(o.response.id)])
  {
    assert forall c: Call, d: Call :: s.log + [c] + [d] == s.log + [c, d];
  }

  /** Main result without failures: afterwards the server holds exactly the clients named in
      the non-error answers. */
  lemma ServerHoldsExactlyNamed(w: World, s: Server, existing: seq<Client>, inputs: seq<Input>, relisted: seq<Client>)
    requires NoFailures(w) && DistinctKeys(inputs) && Complete(existing, s)
    requires Complete(relisted, AllProcessed(w, s, existing, inputs).server)
    ensures var p := AfterRun(w, s, existing, inputs, Some(relisted));
      forall id :: id in p.server.clients <==> Named(p.output, id)
  {
    var p := AllProcessed(w, s, existing, inputs);
    ProcessingWithoutFailures(w, s, existing, inputs);
    KeptAreNamed(w, s, existing, inputs);
    CollectionWithoutFailures(w, p.server, relisted, p.kept);
  }

  /** The next run's inputs: the same requests, with the previous answers as cache. */
  function Fed(inputs: seq<Input>, output: map<string, Response>): seq<Input> {
    seq(|inputs|, i requires 0 <= i < |inputs| =>
      inputs[i].(cached := if inputs[i].key in output then Some(output[inputs[i].key]) else None))
  }

  /** An answer the next run reuses: an error for a request that cannot be served, or
      credentials of a client that is still listed. */
  ghost predicate Reusable(existing: seq<Client>, i: Input, answer: Response) {
    if i.request.Malformed? || i.request.name == "" then answer == Failed
    else UsableCache(existing, Some(answer))
  }

  /** One fed input: its answer comes back, and no client or secret changes. */
  lemma FedInputUnchanged(w: World, existing: seq<Client>, p: Progress, i: Input, answer: Response)
    requires i.cached == Some(answer) && Reusable(existing, i, answer)
    ensures var r := InputProcessed(w, existing, p, i);
      && r.output == p.output[i.key := answer]
      && r.kept == p.kept + Kept(answer)
      && r.server.log == p.server.log && r.server.clients.Keys == p.server.clients.Keys
  {
  }

  lemma {:induction false} FedRunUnchanged(w: World, s: Server, existing: seq<Client>, inputs: seq<Input>, output: map<string, Response>)
    requires DistinctKeys(inputs)
    requires forall i :: 0 <= i < |inputs| ==>
      inputs[i].key in output && Reusable(existing, inputs[i], output[inputs[i].key])
    ensures var p := AllProcessed(w, s, existing, Fed(inputs, output));
      && (forall i :: 0 <= i < |inputs| ==> inputs[i].key in p.output && p.output[inputs[i].key] == output[inputs[i].key])
      && p.server.log == s.log && p.server.clients.Keys == s.clients.Keys
  {
    if inputs != [] {
      var init, last := inputs[..|inputs| - 1], inputs[|inputs| - 1];
      FedRunUnchanged(w, s, existing, init, output);
      var fed := Fed(inputs, output);
      assert fed[..|fed| - 1] == Fed(init, output);
      FedInputUnchanged(w, existing, AllProcessed(w, s, existing, Fed(init, output)), fed[|fed| - 1], output[last.key]);
      assert forall i :: 0 <= i < |init| ==> init[i] == inputs[i] && inputs[i].key != last.key;
    }
  }

  /** Without failures every answer is one the next run can reuse. */
  lemma {:induction false} AnswersReusable(w: World, s: Server, existing: seq<Client>, inputs: seq<Input>, next: seq<Client>)
    requires Sane(w) && NoFailures(w) && DistinctKeys(inputs)
    requires (forall id :: Lists(existing, id) ==> id in s.clients)
    requires forall i :: 0 <= i < |existing| ==> existing[i].id != ""
    requires forall id :: Named(AllProcessed(w, s, existing, inputs).output, id) ==> Lists(next, id)
    ensures var output := AllProcessed(w, s, existing, inputs).output;
      forall i :: 0 <= i < |inputs| ==> inputs[i].key in output && Reusable(next, inputs[i], output[inputs[i].key])
  {
    if inputs != [] {
      var init, last := inputs[..|inputs| - 1], inputs[|inputs| - 1];
      var p, r := AllProcessed(w, s, existing, init), AllProcessed(w, s, existing, inputs);
      OutputKeys(w, s, existing, init, last.key);
      assert last.key !in p.output;
      forall id | Named(p.output, id) ensures Lists(next, id) {
        var k :| k in p.output && p.output[k].Credentials? && p.output[k].id == id;
        assert r.output[k] == p.output[k];
        assert Named(r.output, id);
      }
      AnswersReusable(w, s, existing, init, next);
      ProcessingWithoutFailures(w, s, existing, init);
      if last.request.Request? && last.request.name != "" {
        ClientWithoutFailures(w, p.server, existing, last.request, last.cached);
        assert Named(r.output, r.output[last.key].id);
      }
      assert forall i :: 0 <= i < |init| ==> init[i] == inputs[i] && inputs[i].key != last.key;
    }
  }

  /** Main result: after a run without failures, a second one fed its answers gives the same
      answers with no create, delete or secret regeneration; whatever may fail in it. */
  lemma SecondRunChangesNothing(w: World, s: Server, existing: seq<Client>, inputs: seq<Input>, relisted: seq<Client>,
                                w': World, next: seq<Client>, relisted': Option<seq<Client>>)
    requires Sane(w) && NoFailures(w) && DistinctKeys(inputs) && Complete(existing, s)
    requires forall i :: 0 <= i < |existing| ==> existing[i].id != ""
    requires Complete(relisted, AllProcessed(w, s, existing, inputs).server)
    requires var p := AfterRun(w, s, existing, inputs, Some(relisted));
      && Complete(next, p.server)
      && (relisted'.Some? ==> forall id :: Lists(relisted'.value, id) ==> id in p.server.clients)
    ensures var p := AfterRun(w, s, existing, inputs, Some(relisted));
      var q := AfterRun(w', p.server, next, Fed(inputs, p.output), relisted');
      && q.output == p.output
      && q.server.log == p.server.log && q.server.clients.Keys == p.server.clients.Keys
  {
    var p0, p := AllProcessed(w, s, existing, inputs), AfterRun(w, s, existing, inputs, Some(relisted));
    ServerHoldsExactlyNamed(w, s, existing, inputs, relisted);
    AnswersReusable(w, s, existing, inputs, next);
    FedRunUnchanged(w', p.server, next, inputs, p.output);
    var fed := Fed(inputs, p.output);
    var q0 := AllProcessed(w', p.server, next, fed);
    SameOutput(w, s, existing, w', p.server, next, inputs, fed);
    KeptAreNamed(w', p.server, next, fed);
    if relisted'.Some? {
      NothingToCollect(w', q0.server, relisted'.value, q0.kept);
    }
  }

  lemma SameOutput(w: World, s: Server, existing: seq<Client>, w': World, s': Server, next: seq<Client>,
                   inputs: seq<Input>, fed: seq<Input>)
    requires |fed| == |inputs| && forall i :: 0 <= i < |inputs| ==> fed[i].key == inputs[i].key
    requires var p, q := AllProcessed(w, s, existing, inputs), AllProcessed(w', s', next, fed);
      forall i :: 0 <= i < |inputs| ==>
        inputs[i].key in p.output && inputs[i].key in q.output && p.output[inputs[i].key] == q.output[inputs[i].key]
    ensures AllProcessed(w, s, existing, inputs).output == AllProcessed(w', s', next, fed).output
  {
    var p, q := AllProcessed(w, s, existing, inputs), AllProcessed(w', s', next, fed);
    forall k
      ensures k in p.output <==> k in q.output
      ensures k in p.output ==> p.output[k] == q.output[k]
    {
      OutputKeys(w, s, existing, inputs, k);
      OutputKeys(w', s', next, fed, k);
      if k in p.output {
        var i :| 0 <= i < |inputs| && inputs[i].key == k;
        assert fed[i].key == k;
      }
      if k in q.output {
        var i :| 0 <= i < |fed| && fed[i].key == k;
        assert inputs[i].key == k;
      }
    }
  }

  lemma {:induction false} NothingToCollect(w: World, s: Server, listed: seq<Client>, kept: set<string>)
    requires forall id :: Lists(listed, id) ==> id in kept
    ensures Collected(w, s, listed, kept) == s
  {
    if listed != [] {
      var init := listed[..|listed| - 1];
      forall id | Lists(init, id) ensures id in kept {
        var i :| 0 <= i < |init| && init[i].id == id;
        assert listed[i].id == id;
        assert Lists(listed, id);
      }
      NothingToCollect(w, s, init, kept);
      assert listed[|listed| - 1].id in kept by {
        assert Lists(listed, listed[|listed| - 1].id);
      }
    }
  }

  // ---- What failing calls do to the answers ----

  /** Some call among these reported a failure. */
  ghost predicate FailedCall(w: World, from: nat, to: nat) {
    exists n: nat :: from <= n < to && !w.ok(n)
  }

  /** Some successful call among these made this secret. */
  ghost predicate SecretMade(w: World, from: nat, to: nat, secret: string) {
    exists n: nat :: from <= n < to && w.ok(n) && w.newSecret(n) == secret
  }

  /** A new client is answered exactly if its creation and its secret succeed, under the id and
      with the secret of those very calls; setting its groups may fail. If its creation takes
      effect, it is at the server under the requested name. */
  lemma NewClientOutcome(w: World, s: Server, name: string, groups: bool)
    ensures var o, n, m := NewClient(w, s, name, groups), s.calls, s.calls + if groups then 2 else 1;
      && o.response == (if w.ok(n) && w.ok(m) then Credentials(w.newId(n), w.newSecret(m)) else Failed)
      && (w.ok(n) || w.applied(n) ==> w.newId(n) in o.server.clients && o.server.clients[w.newId(n)] == name)
      && (!w.ok(n) && !w.applied(n) ==> o.server.clients == s.clients)
      && o.server.calls == (if w.ok(n) then m + 1 else n + 1)
  {
  }

  /** Updating a client's callbacks touches no other client; what its own name is afterwards is
      up to the server, which is sent an empty one. */
  lemma CallbacksRename(w: World, s: Server, id: string)
    ensures var r := CallbacksUpdated(w, s, id);
      && r.clients.Keys == s.clients.Keys && r.log == s.log
      && forall c :: c in s.clients ==>
           r.clients[c] == if c == id && (w.ok(s.calls) || w.applied(s.calls)) then w.renamed(s.calls) else s.clients[c]
  {
  }

  /** A request with credentials to reuse gets them back. Any other that names a listed client
      gets that client with a new secret, or, if the secret fails, a new client once the old
      one is deleted; and one that names none gets a new client. */
  lemma ClientOutcome(w: World, s: Server, existing: seq<Client>, r: Request, cached: Option<Response>)
    requires r.Request?
    ensures var o, found := ClientProcessed(w, s, existing, r, cached), FindByName(existing, r.name);
      var synced := s.calls + if r.callbacks then 2 else 1;
      if UsableCache(existing, cached) then o.response == cached.value && o.server.calls == synced
      else if found.None? then o == NewClient(w, s, r.name, r.groups)
      else if w.ok(synced) then o.response == Credentials(found.value, w.newSecret(synced)) && o.server.calls == synced + 1
      else if !w.ok(synced + 1) then o.response == Failed && o.server.calls == synced + 2
      else exists t: Server :: t.calls == synced + 2 && found.value !in t.clients && o == NewClient(w, t, r.name, r.groups)
  {
    var found := FindByName(existing, r.name);
    if !UsableCache(existing, cached) && found.Some? {
      var s1 := Synced(w, s, found.value, r.callbacks);
      var (s2, secret) := SecretRegenerated(w, s1, found.value);
      var (s3, ok) := ClientDeleted(w, s2, found.value);
      assert s3.calls == s2.calls + 1;
      assert ok ==> found.value !in s3.clients;
    }
  }

  /** What the answer to one request rests on: credentials on the cache or on a secret made
      while it was processed, an error on a call that failed. */
  ghost predicate AnswerBacked(w: World, existing: seq<Client>, i: Input, answer: Response, from: nat, to: nat) {
    match answer
    case Credentials(_, secret) => (UsableCache(existing, i.cached) && i.cached == Some(answer)) || SecretMade(w, from, to, secret)
    case Failed => i.request.Malformed? || i.request.name == "" || FailedCall(w, from, to)
  }

  lemma InputBacked(w: World, existing: seq<Client>, p: Progress, i: Input)
    ensures var r := InputProcessed(w, existing, p, i);
      && r.output == p.output[i.key := r.output[i.key]] && r.server.calls >= p.server.calls
      && AnswerBacked(w, existing, i, r.output[i.key], p.server.calls, r.server.calls)
  {
    if i.request.Request? && i.request.name != "" {
      ClientBacked(w, p.server, existing, i.request, i.cached);
    }
  }

  /** The same for a response and the calls made for it. */
  ghost predicate ResponseBacked(w: World, existing: seq<Client>, cached: Option<Response>, response: Response, from: nat, to: nat) {
    && from < to
    && (response.Credentials? ==>
          (UsableCache(existing, cached) && cached == Some(response)) || SecretMade(w, from, to, response.secret))
    && (response.Failed? ==> FailedCall(w, from, to))
  }

  lemma NewClientBacked(w: World, existing: seq<Client>, cached: Option<Response>, s: Server, name: string, groups: bool, from: nat)
    requires from <= s.calls
    ensures ResponseBacked(w, existing, cached, NewClient(w, s, name, groups).response, from, NewClient(w, s, name, groups).server.calls)
  {
    NewClientOutcome(w, s, name, groups);
  }

  lemma RecreatedBacked(w: World, s: Server, existing: seq<Client>, r: Request, cached: Option<Response>, synced: nat)
    requires r.Request? && !UsableCache(existing, cached) && FindByName(existing, r.name).Some?
    requires synced == (s.calls + if r.callbacks then 2 else 1) && !w.ok(synced) && w.ok(synced + 1)
    ensures var o := ClientProcessed(w, s, existing, r, cached);
      ResponseBacked(w, existing, cached, o.response, s.calls, o.server.calls)
  {
    ClientOutcome(w, s, existing, r, cached);
    var t: Server :| t.calls == synced + 2 && ClientProcessed(w, s, existing, r, cached) == NewClient(w, t, r.name, r.groups);
    NewClientBacked(w, existing, cached, t, r.name, r.groups, s.calls);
  }

  lemma ClientBacked(w: World, s: Server, existing: seq<Client>, r: Request, cached: Option<Response>)
    requires r.Request?
    ensures var o := ClientProcessed(w, s, existing, r, cached);
      ResponseBacked(w, existing, cached, o.response, s.calls, o.server.calls)
  {
    var found, synced := FindByName(existing, r.name), s.calls + if r.callbacks then 2 else 1;
    if UsableCache(existing, cached) || (found.Some? && (w.ok(synced) || !w.ok(synced + 1))) {
      ClientOutcome(w, s, existing, r, cached);
    } else if found.None? {
      NewClientBacked(w, existing, cached, s, r.name, r.groups, s.calls);
    } else {
      RecreatedBacked(w, s, existing, r, cached, synced);
    }
  }

  /** Main result on the answers under arbitrary failures: every request is answered, with
      credentials only if they were cached for a listed client or their secret was made by a
      successful call of this run, and with an error only if it is malformed or a call failed. */
  lemma {:induction false} AnswersBacked(w: World, s: Server, existing: seq<Client>, inputs: seq<Input>, i: nat)
    requires DistinctKeys(inputs) && i < |inputs|
    ensures var p := AllProcessed(w, s, existing, inputs);
      && p.server.calls >= s.calls && inputs[i].key in p.output
      && AnswerBacked(w, existing, inputs[i], p.output[inputs[i].key], s.calls, p.server.calls)
  {
    var init, last := inputs[..|inputs| - 1], inputs[|inputs| - 1];
    var p := AllProcessed(w, s, existing, init);
    InputBacked(w, existing, p, last);
    CallsGrow(w, s, existing, init);
    if i < |init| {
      assert init[i] == inputs[i] && inputs[i].key != last.key;
      AnswersBacked(w, s, existing, init, i);
    }
  }

  lemma {:induction false} CallsGrow(w: World, s: Server, existing: seq<Client>, inputs: seq<Input>)
    ensures AllProcessed(w, s, existing, inputs).server.calls >= s.calls
  {
    if inputs != [] {
      CallsGrow(w, s, existing, inputs[..|inputs| - 1]);
      InputBacked(w, existing, AllProcessed(w, s, existing, inputs[..|inputs| - 1]), inputs[|inputs| - 1]);
    }
  }
}
