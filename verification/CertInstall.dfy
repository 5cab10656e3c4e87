// Certificate lifecycle decisions (pkgs/fort-certcheck/check.go). PEM and key decoding are
// inputs; times are in nanoseconds.
module CertInstall {
  import opened Numbers
  import opened Wrappers

  type Bytes = string

  /** First certificate of a file: its expiry and public key. */
  datatype Cert = Cert(notAfter: int, publicKey: string)

  /** How the decoders read files. `keyOf` gives the public half of a private key. */
  datatype Decoders = Decoders(
    cert: Bytes -> Option<Cert>,
    keyOf: Bytes -> Option<string>,
    supported: string -> bool,
    trim: Bytes -> Bytes)

  /** Decoding ignores white space around the file. */
  ghost predicate TrimIrrelevant(d: Decoders) {
    forall a: Bytes, b: Bytes :: d.trim(a) == d.trim(b) ==> d.cert(a) == d.cert(b)
  }

  datatype PairCheck = PairValid | CertUnreadable | KeyUnreadable | KeyMismatch

  /** `None` is an error: unreadable certificate or key, or an unsupported kind of key. */
  function KeyMatches(d: Decoders, certPem: Bytes, keyPem: Bytes): Option<bool> {
    if d.cert(certPem).None? || d.keyOf(keyPem).None? || !d.supported(d.cert(certPem).value.publicKey) then None
    else Some(d.cert(certPem).value.publicKey == d.keyOf(keyPem).value)
  }

  function ValidatePair(d: Decoders, certPem: Bytes, keyPem: Bytes): PairCheck {
    if d.cert(certPem).None? then CertUnreadable
    else
      match KeyMatches(d, certPem, keyPem)
      case None => KeyUnreadable
      case Some(matches) => if matches then PairValid else KeyMismatch
  }

  /** Should a pushed pair replace the installed certificate? */
  function ShouldInstall(d: Decoders, certPem: Bytes, keyPem: Bytes, current: Bytes, now: int): bool {
    var cand := d.cert(certPem);
    if cand.None? then false
    else
      match KeyMatches(d, certPem, keyPem)
      case None => false
      case Some(false) => false
      case Some(true) =>
        var cur := d.cert(current);
        if cur.None? then true
        else if d.trim(certPem) == d.trim(current) then false
        else if cand.value.notAfter <= now && cur.value.notAfter > now then false
        else if cand.value.notAfter < cur.value.notAfter then false
        else true
  }

  /** Certificate and key can be read, and the key is the certificate's. */
  predicate Matching(d: Decoders, certPem: Bytes, keyPem: Bytes) {
    && d.cert(certPem).Some? && d.keyOf(keyPem).Some? && d.supported(d.cert(certPem).value.publicKey)
    && d.cert(certPem).value.publicKey == d.keyOf(keyPem).value
  }

  /** A pair is reported valid exactly if it matches; otherwise the report tells an unreadable
      certificate from an unreadable key and from a key that is another certificate's. */
  lemma ValidatePairTells(d: Decoders, certPem: Bytes, keyPem: Bytes)
    ensures ValidatePair(d, certPem, keyPem) == PairValid <==> Matching(d, certPem, keyPem)
    ensures ValidatePair(d, certPem, keyPem) == CertUnreadable <==> d.cert(certPem).None?
    ensures ValidatePair(d, certPem, keyPem) == KeyMismatch <==>
      && d.cert(certPem).Some? && d.keyOf(keyPem).Some? && d.supported(d.cert(certPem).value.publicKey)
      && d.cert(certPem).value.publicKey != d.keyOf(keyPem).value
  {
  }

  /** An unusable pair is never installed, and over an unreadable certificate every usable
      pair is; over a readable one exactly those that differ and do not expire earlier. In
      particular the rule about expired candidates decides nothing on its own. */
  lemma InstallsIff(d: Decoders, certPem: Bytes, keyPem: Bytes, current: Bytes, now: int)
    ensures ShouldInstall(d, certPem, keyPem, current, now) <==>
      && Matching(d, certPem, keyPem)
      && (d.cert(current).None? ||
          (d.trim(certPem) != d.trim(current) && d.cert(certPem).value.notAfter >= d.cert(current).value.notAfter))
  {
  }

  // ---- Delivery sequences ----

  datatype Delivery = Delivery(cert: Bytes, key: Bytes, now: int)

  function Deliver(d: Decoders, installed: Bytes, x: Delivery): Bytes {
    if ShouldInstall(d, x.cert, x.key, installed, x.now) then x.cert else installed
  }

  function DeliverAll(d: Decoders, installed: Bytes, xs: seq<Delivery>): Bytes {
    if xs == [] then installed else Deliver(d, DeliverAll(d, installed, xs[..|xs| - 1]), xs[|xs| - 1])
  }

  /** The expiry a delivery offers, if its pair is usable. */
  function Offered(d: Decoders, x: Delivery): Option<int> {
    if ValidatePair(d, x.cert, x.key) == PairValid then Some(d.cert(x.cert).value.notAfter) else None
  }

  function Expiry(d: Decoders, installed: Bytes): Option<int> {
    if d.cert(installed).Some? then Some(d.cert(installed).value.notAfter) else None
  }

  /** `m` is the latest among `start` and the expiries of the usable pairs; None if there is none. */
  ghost predicate IsLatest(d: Decoders, start: Option<int>, xs: seq<Delivery>, m: Option<int>) {
    && (m.None? ==> start.None? && forall x :: x in xs ==> Offered(d, x).None?)
    && (m.Some? ==>
          && (start == m || exists x :: x in xs && Offered(d, x) == m)
          && (start.Some? ==> start.value <= m.value)
          && (forall x :: x in xs && Offered(d, x).Some? ==> Offered(d, x).value <= m.value))
  }

  /** One delivery never lowers a readable expiry, and reaches the one it offers. */
  lemma DeliverRaises(d: Decoders, installed: Bytes, x: Delivery)
    requires TrimIrrelevant(d)
    ensures var before, after := Expiry(d, installed), Expiry(d, Deliver(d, installed, x));
      && (after == before || after == Offered(d, x))
      && (before.Some? ==> after.Some? && after.value >= before.value)
      && (Offered(d, x).Some? ==> after.Some? && after.value >= Offered(d, x).value)
      && (after.None? ==> Offered(d, x).None?)
  {
    InstallsIff(d, x.cert, x.key, installed, x.now);
  }

  /** Main result: after any deliveries, at any times, from a missing, corrupt or valid
      certificate, the installed expiry is the maximum over the initial certificate and all
      usable pairs. */
  lemma {:induction false} ConvergesToLatest(d: Decoders, installed: Bytes, xs: seq<Delivery>)
    requires TrimIrrelevant(d)
    ensures IsLatest(d, Expiry(d, installed), xs, Expiry(d, DeliverAll(d, installed, xs)))
  {
    if xs != [] {
      var init, last := xs[..|xs| - 1], xs[|xs| - 1];
      ConvergesToLatest(d, installed, init);
      DeliverRaises(d, DeliverAll(d, installed, init), last);
      assert forall x :: x in xs <==> x in init || x == last;
    }
  }

  lemma LatestUnique(d: Decoders, start: Option<int>, xs: seq<Delivery>, m: Option<int>, n: Option<int>)
    requires IsLatest(d, start, xs, m) && IsLatest(d, start, xs, n)
    ensures m == n
  {
  }

  /** Every expiry on offer in `ys` is on offer in `xs`. */
  ghost predicate OffersAlso(d: Decoders, xs: seq<Delivery>, ys: seq<Delivery>) {
    forall y :: y in ys ==> exists x :: x in xs && Offered(d, x) == Offered(d, y)
  }

  /** The order (and repetition, and timing) of deliveries does not matter for the expiry. */
  lemma DeliveryOrderImmaterial(d: Decoders, installed: Bytes, xs: seq<Delivery>, ys: seq<Delivery>)
    requires TrimIrrelevant(d)
    requires OffersAlso(d, xs, ys) && OffersAlso(d, ys, xs)
    ensures Expiry(d, DeliverAll(d, installed, xs)) == Expiry(d, DeliverAll(d, installed, ys))
  {
    ConvergesToLatest(d, installed, xs);
    ConvergesToLatest(d, installed, ys);
    var start, m := Expiry(d, installed), Expiry(d, DeliverAll(d, installed, ys));
    assert IsLatest(d, start, xs, m);
    LatestUnique(d, start, xs, Expiry(d, DeliverAll(d, installed, xs)), m);
  }

  // ---- Renewal and freshness ----

  /** `time.Duration(days) * 24 * time.Hour`, in 64-bit arithmetic. */
  function Threshold(days: int): int {
    Wrap64(Wrap64(days * 24) * HOUR)
  }

  function NeedsRenewal(d: Decoders, markerExists: bool, certPem: Bytes, now: int, minValidDays: int): bool {
    if certPem == "" then true
    else if d.cert(certPem).None? then true
    else
      var remaining := Saturate64(d.cert(certPem).value.notAfter - now);
      remaining <= 0 || remaining < Threshold(minValidDays)
  }

  function IsFresh(d: Decoders, certPem: Bytes, now: int, minValidDays: int): bool {
    !NeedsRenewal(d, false, certPem, now, minValidDays)
  }

  const MAX_DAYS := 106751

  /** The largest threshold that does not wrap is 106751 days. */
  lemma ThresholdExact(days: int)
    requires 0 <= days <= MAX_DAYS
    ensures Threshold(days) == days * 24 * HOUR
  {
  }

  /** A certificate is fresh exactly if it is there, readable, not expired, and valid for at
      least the threshold; the success marker has no say in its renewal. */
  lemma FreshIff(d: Decoders, marker: bool, certPem: Bytes, now: int, days: int)
    requires 0 <= days <= MAX_DAYS
    ensures IsFresh(d, certPem, now, days) <==>
      && certPem != "" && d.cert(certPem).Some?
      && d.cert(certPem).value.notAfter > now
      && d.cert(certPem).value.notAfter - now >= days * 24 * 60 * 60 * 1_000_000_000
    ensures NeedsRenewal(d, marker, certPem, now, days) <==> !IsFresh(d, certPem, now, days)
  {
    ThresholdExact(days);
    assert days * 24 * 60 * 60 * 1_000_000_000 == days * 24 * HOUR;
  }

  /** A consumer whose freshness threshold is at most the broker's renewal threshold never
      finds a certificate stale that the broker would not renew, at that time or later, with
      or without the success marker. */
  lemma StaleImpliesRenewal(d: Decoders, marker: bool, certPem: Bytes, now: int, later: int, freshDays: int, renewDays: int)
    requires 0 <= freshDays <= renewDays <= MAX_DAYS && now <= later
    requires !IsFresh(d, certPem, now, freshDays)
    ensures NeedsRenewal(d, marker, certPem, later, renewDays)
  {
    ThresholdExact(freshDays);
    ThresholdExact(renewDays);
  }
}
