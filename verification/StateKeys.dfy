// Addressing in the control plane (pkgs/fort-provider/main.go): state keys "origin:needID",
// callback paths "/fort/needs/<capability>/<name>", and the paths garbage collection asks for.
module StateKeys {
  import opened Wrappers

  predicate HasPrefix(s: string, p: string) {
    p <= s
  }

  function TrimPrefix(s: string, p: string): string {
    if HasPrefix(s, p) then s[|p|..] else s
  }

  /** Position of the first `c`, or the length if there is none. */
  function IndexOf(s: string, c: char): (i: nat)
    ensures i <= |s| && forall j :: 0 <= j < i ==> s[j] != c
    ensures i < |s| ==> s[i] == c
    ensures i == |s| ==> c !in s
  {
    if s == "" then 0 else if s[0] == c then 0
    else
      var i := IndexOf(s[1..], c);
      assert forall j :: 1 <= j < i + 1 ==> s[j] == s[1..][j - 1];
      assert s == [s[0]] + s[1..];
      i + 1
  }

  /** strings.SplitN(s, c, 2): the part before the first `c`, and the rest if there is one. */
  function SplitOnce(s: string, c: char): (r: (string, Option<string>)) {
    var i := IndexOf(s, c);
    if i == |s| then (s, None) else (s[..i], Some(s[i + 1..]))
  }

  lemma SplitOnceJoins(a: string, c: char, b: string)
    requires c !in a
    ensures SplitOnce(a + [c] + b, c) == (a, Some(b))
    ensures SplitOnce(a, c) == (a, None)
  {
    var s := a + [c] + b;
    assert s[|a|] == c;
    assert forall j :: 0 <= j < |a| ==> s[j] == a[j] && a[j] in a;
    assert IndexOf(s, c) == |a|;
    assert s[..|a|] == a && s[|a| + 1..] == b;
  }

  /** strings.LastIndex for one character; -1 if there is none. */
  function LastIndex(s: string, c: char): int {
    if s == "" then -1 else if s[|s| - 1] == c then |s| - 1 else LastIndex(s[..|s| - 1], c)
  }

  // ---- State keys ----

  function MakeStateKey(origin: string, needId: string): string {
    if needId != "" then origin + ":" + needId else origin
  }

  /** Origin and need id; the latter is empty if the key has none. */
  function ParseStateKey(key: string): (string, string) {
    var parts := SplitOnce(key, ':');
    (parts.0, if parts.1.Some? then parts.1.value else "")
  }

  /** Recording and splitting a key gives back origin and need id exactly for origins
      without a colon; the need id may be anything, even empty or with colons. */
  lemma StateKeyRoundTripIff(origin: string, needId: string)
    ensures ParseStateKey(MakeStateKey(origin, needId)) == (origin, needId) <==> ':' !in origin
    ensures MakeStateKey(origin, needId) == origin <==> needId == ""
  {
    var key := MakeStateKey(origin, needId);
    if ':' !in origin {
      SplitOnceJoins(origin, ':', needId);
      assert origin + ":" + needId == origin + [':'] + needId;
    } else {
      assert ':' !in ParseStateKey(key).0;
    }
  }

  lemma StateKeysInjective(o: string, n: string, p: string, m: string)
    requires ':' !in o && ':' !in p && MakeStateKey(o, n) == MakeStateKey(p, m)
    ensures o == p && n == m
  {
    StateKeyRoundTripIff(o, n);
    StateKeyRoundTripIff(p, m);
  }

  // ---- Callback paths ----

  const NEEDS_PREFIX := "/fort/needs/"

  /** Where a response for `needId` is posted. */
  function CallbackPath(capability: string, needId: string): string {
    NEEDS_PREFIX + capability + "/" + TrimPrefix(needId, capability + "-")
  }

  /** The need id the consumer reads off a callback path; None is "invalid callback path". */
  function ParseCallback(path: string): Option<string> {
    var parts := SplitOnce(TrimPrefix(path, NEEDS_PREFIX), '/');
    if parts.1.None? || parts.0 == "" || parts.1.value == "" then None
    else Some(parts.0 + "-" + parts.1.value)
  }

  /** "<capability>-<name>", with a capability that is one path segment and a non-empty name. */
  predicate WellFormedNeed(capability: string, needId: string) {
    && capability != "" && '/' !in capability
    && HasPrefix(needId, capability + "-") && |needId| > |capability| + 1
  }

  /** What the consumer sees below the prefix. */
  lemma CallbackSuffix(capability: string, needId: string)
    ensures TrimPrefix(CallbackPath(capability, needId), NEEDS_PREFIX) ==
            capability + ['/'] + TrimPrefix(needId, capability + "-")
  {
    var name := TrimPrefix(needId, capability + "-");
    assert NEEDS_PREFIX + capability + "/" + name == NEEDS_PREFIX + (capability + ['/'] + name);
  }

  /** Main result: the consumer recovers the need id a callback was sent for exactly if the
      id is well formed for the capability. */
  lemma CallbackRoundTripIff(capability: string, needId: string)
    ensures ParseCallback(CallbackPath(capability, needId)) == Some(needId) <==> WellFormedNeed(capability, needId)
  {
    var name := TrimPrefix(needId, capability + "-");
    CallbackSuffix(capability, needId);
    var suffix := capability + ['/'] + name;
    if '/' !in capability {
      SplitOnceJoins(capability, '/', name);
      var got := capability + "-" + name;
      assert HasPrefix(got, capability + "-") by {
        assert got[..|capability| + 1] == capability + "-";
      }
      if HasPrefix(needId, capability + "-") {
        assert needId == capability + "-" + name;
      }
    } else {
      SplitInsideCapability(capability, needId);
    }
  }

  /** A capability with a slash is split inside, and the dash lands on the slash's place. */
  lemma SplitInsideCapability(capability: string, needId: string)
    requires '/' in capability
    ensures ParseCallback(CallbackPath(capability, needId)) != Some(needId)
  {
    var name := TrimPrefix(needId, capability + "-");
    CallbackSuffix(capability, needId);
    var suffix := capability + ['/'] + name;
    var i := IndexOf(capability, '/');
    var rest := capability[i + 1..] + ['/'] + name;
    assert capability == capability[..i] + ['/'] + capability[i + 1..];
    assert suffix == capability[..i] + ['/'] + rest;
    SplitOnceJoins(capability[..i], '/', rest);
    var got := capability[..i] + "-" + rest;
    assert got[i] == '-';
    if HasPrefix(needId, capability + "-") {
      assert needId[i] == (capability + "-")[i] == '/';
    } else {
      assert |got| > |name| == |needId|;
    }
  }

  // ---- The path garbage collection looks for ----

  function NeedIdToPath(capability: string, needId: string): string {
    var prefix := capability + "-";
    if HasPrefix(needId, prefix) then capability + "/" + TrimPrefix(needId, prefix)
    else
      var i := LastIndex(needId, '-');
      if i == -1 then needId
      else
        LastIndexInRange(needId, '-');
        needId[..i] + "/" + needId[i + 1..]
  }

  lemma {:induction false} LastIndexInRange(s: string, c: char)
    ensures -1 <= LastIndex(s, c) < |s|
  {
    if s != "" {
      LastIndexInRange(s[..|s| - 1], c);
    }
  }

  lemma {:induction false} LastIndexIs(s: string, c: char)
    ensures var i := LastIndex(s, c);
      -1 <= i < |s| && (i >= 0 ==> s[i] == c) && forall j :: i < j < |s| ==> s[j] != c
  {
    if s != "" && s[|s| - 1] != c {
      LastIndexIs(s[..|s| - 1], c);
    }
  }

  lemma LastIndexAt(s: string, c: char, i: nat)
    requires i < |s| && s[i] == c && forall j :: i < j < |s| ==> s[j] != c
    ensures LastIndex(s, c) == i
  {
    LastIndexIs(s, c);
  }

  lemma OneDashThen(a: string, b: string, s: string)
    requires '-' !in b && s == a + "-" + b
    ensures |s| > |a| && s[|a|] == '-' && forall j :: |a| < j < |s| ==> s[j] != '-'
  {
    forall j | |a| < j < |s| ensures s[j] != '-' {
      assert s[j] == b[j - |a| - 1];
    }
  }

  /** For other ids, the last dash is taken for the one after the capability. */
  lemma UnprefixedPath(capability: string, a: string, b: string)
    requires '-' !in b && !HasPrefix(a + "-" + b, capability + "-")
    ensures NeedIdToPath(capability, a + "-" + b) == a + "/" + b
  {
    var s := a + "-" + b;
    OneDashThen(a, b, s);
    LastIndexAt(s, '-', |a|);
    assert s[..|a|] == a && s[|a| + 1..] == b;
  }

  lemma DashlessPath(capability: string, needId: string)
    requires '-' !in needId
    ensures NeedIdToPath(capability, needId) == needId
  {
    assert (capability + "-")[|capability|] == '-';
    LastIndexIs(needId, '-');
  }

  /** For ids that carry the capability, collection asks for the very path callbacks go to. */
  lemma CollectedPathIsCallbackPath(capability: string, needId: string)
    requires HasPrefix(needId, capability + "-")
    ensures CallbackPath(capability, needId) == NEEDS_PREFIX + NeedIdToPath(capability, needId)
  {
  }

  /** Whole trip: from a recorded request to the consumer's need id and to the path its
      origin must declare. */
  lemma AddressingRoundTrip(origin: string, capability: string, name: string)
    requires ':' !in origin && capability != "" && '/' !in capability && name != ""
    ensures var needId := capability + "-" + name;
      var parsed := ParseStateKey(MakeStateKey(origin, needId));
      && parsed == (origin, needId)
      && ParseCallback(CallbackPath(capability, parsed.1)) == Some(needId)
      && NeedIdToPath(capability, parsed.1) == capability + "/" + name
  {
    var needId := capability + "-" + name;
    assert needId[..|capability| + 1] == capability + "-";
    StateKeyRoundTripIff(origin, needId);
    CallbackRoundTripIff(capability, needId);
    assert needId[|capability| + 1..] == name;
  }

  /** Two ids, one with and one without the capability, share a callback path: without
      well-formedness the address does not identify the entry. */
  lemma UnprefixedNeedCollides(capability: string, name: string)
    requires !HasPrefix(name, capability + "-")
    ensures CallbackPath(capability, name) == CallbackPath(capability, capability + "-" + name)
    ensures name != capability + "-" + name
  {
    var long := capability + "-" + name;
    assert long[..|capability| + 1] == capability + "-";
    assert long[|capability| + 1..] == name;
  }
}
