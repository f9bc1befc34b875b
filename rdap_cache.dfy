/**
 * The per-domain lookup cache of lib/rdap.ts: `lookupSingleDomain` and the
 * batch entry point `fetchRdapForDomains`, over the module-level
 * `rdapCache` map, modelled as the class `Cache`.
 *
 * The remote call is an input: a `FetchOutcome` says what `fetch` and
 * `response.json()` produced. The clock is an input too: `now` is the
 * `Date.now()` reading a lookup takes before its remote call, and
 * `Responded.clock` the `new Date()` reading `computeStatus` takes after it.
 */
module RdapCache {
  import opened Wrappers
  import opened Text
  import opened RdapResponse
  import opened Status

  /** What one lookup reports about one domain. */
  datatype DomainResult = DomainResult(
    domain: string,
    status: Status,
    expiryDate: Option<string>,
    message: Message,
    registrarName: Option<string>,
    createdDate: Option<string>,
    updatedDate: Option<string>,
    tld: Option<string>)

  datatype CachedEntry = CachedEntry(result: DomainResult, expiresAt: int)

  /**
   * What the remote call gave: an HTTP response with its status code and its
   * body (`None` when `response.json()` or the extraction helpers throw, which
   * the source's `catch` handles like a network failure), or a failure of
   * `fetch` itself.
   */
  datatype FetchOutcome =
    | Responded(httpStatus: int, body: Option<Rdap>, clock: int)
    | NetworkFailure

  const SuccessTtlMs: int := 24 * 60 * 60 * 1000
  const FailureTtlMs: int := 5 * 60 * 1000

  /** `response.ok` */
  predicate IsOkStatus(code: int) {
    200 <= code <= 299
  }

  /** The outcome is a 2xx response whose body was read. */
  predicate Parsed(outcome: FetchOutcome) {
    outcome.Responded? && IsOkStatus(outcome.httpStatus) && outcome.body.Some?
  }

  /** The first expiry event of the response exists and carries a date. */
  ghost predicate HasExpiryEvent(rdap: Rdap) {
    exists i :: IsFirstMatch(EventsOf(rdap), ExpiryActions, i) && EventsOf(rdap)[i].eventDate.Some?
  }

  function FailureResult(key: string, message: Message): DomainResult {
    DomainResult(key, Error, None, message, None, None, None, GetTldFromDomain(key))
  }

  /** The result `lookupSingleDomain` returns for an input that normalises to the empty string. */
  function EmptyDomainResult(domain: string): DomainResult {
    DomainResult(domain, Error, None, EmptyDomainValue, None, None, None, None)
  }

  /**
   * The entry a remote attempt for `key` writes: an HTTP or network failure
   * is kept five minutes, a read response a day, whatever its status.
   */
  function FetchedEntry(key: string, outcome: FetchOutcome, now: int, parse: string -> Option<int>): (e: CachedEntry)
    ensures e.result.domain == key
    ensures e.expiresAt == now + (if Parsed(outcome) then SuccessTtlMs else FailureTtlMs)
  {
    match outcome
    case NetworkFailure => CachedEntry(FailureResult(key, NetworkError), now + FailureTtlMs)
    case Responded(code, body, clock) =>
      if !IsOkStatus(code) then CachedEntry(FailureResult(key, HttpStatus(code)), now + FailureTtlMs)
      else
        match body
        case None => CachedEntry(FailureResult(key, NetworkError), now + FailureTtlMs)
        case Some(rdap) =>
          var expiry := GetExpiryFromRdap(rdap);
          var report := ComputeStatus(expiry, clock, parse);
          var result := DomainResult(
            key, report.status, expiry, report.message, GetRegistrarNameFromRdap(rdap),
            GetCreatedFromRdap(rdap), GetUpdatedFromRdap(rdap), GetTldFromDomain(key));
          CachedEntry(result, now + SuccessTtlMs)
  }

  /**
   * What a fetched entry reports: the top-level label of its key; for every
   * failure, `error` with the HTTP code or the network-error message and no
   * dates or registrar; for a read response, the expiry date exactly when the
   * first expiry event carries one, the status and message `computeStatus`
   * gives it, and the registrar, creation and update fields of the body.
   */
  lemma FetchedEntryReport(key: string, outcome: FetchOutcome, now: int, parse: string -> Option<int>)
    ensures var e := FetchedEntry(key, outcome, now, parse);
      && e.result.tld == GetTldFromDomain(key)
      && (!Parsed(outcome) ==> e.result.status == Error && e.result.expiryDate.None?)
      && (!Parsed(outcome) ==>
            e.result.registrarName.None? && e.result.createdDate.None? && e.result.updatedDate.None?)
      && (e.result.expiryDate.Some? <==> Parsed(outcome) && HasExpiryEvent(outcome.body.value))
      && (Parsed(outcome) ==>
            e.result.status == ComputeStatus(GetExpiryFromRdap(outcome.body.value), outcome.clock, parse).status)
  {
  }

  /** Each failure kind carries its own message. */
  lemma FetchedEntryFailureMessage(key: string, outcome: FetchOutcome, now: int, parse: string -> Option<int>)
    ensures var r := FetchedEntry(key, outcome, now, parse).result;
      && (outcome.NetworkFailure? ==> r.message == NetworkError)
      && (outcome.Responded? && !IsOkStatus(outcome.httpStatus) ==> r.message == HttpStatus(outcome.httpStatus))
      && (outcome.Responded? && IsOkStatus(outcome.httpStatus) && outcome.body.None? ==> r.message == NetworkError)
  {
  }

  /** A read response's result carries exactly what the extraction helpers and `computeStatus` give. */
  lemma FetchedEntryFromBody(key: string, outcome: FetchOutcome, now: int, parse: string -> Option<int>)
    requires Parsed(outcome)
    ensures var r := FetchedEntry(key, outcome, now, parse).result;
      var rdap := outcome.body.value;
      && r.expiryDate == GetExpiryFromRdap(rdap)
      && r.message == ComputeStatus(GetExpiryFromRdap(rdap), outcome.clock, parse).message
      && r.registrarName == GetRegistrarNameFromRdap(rdap)
      && r.createdDate == GetCreatedFromRdap(rdap)
      && r.updatedDate == GetUpdatedFromRdap(rdap)
  {
  }

  /**
   * The part of a lookup that runs before its remote call: the input is
   * empty, or a fresh cached result answers it, or it goes to the network
   * under the normalised key.
   */
  datatype Probe = EmptyInput(result: DomainResult) | Hit(result: DomainResult) | Miss(key: string)

  function ProbeCache(entries: map<string, CachedEntry>, domain: string, now: int): (p: Probe)
    ensures p.Miss? ==> p.key == Normalize(domain) && p.key != ""
  {
    var key := Normalize(domain);
    if key == "" then EmptyInput(EmptyDomainResult(domain))
    else if key in entries && entries[key].expiresAt > now then Hit(entries[key].result)
    else Miss(key)
  }

  /** The result a probe ends with once the remote call, if any, has answered. */
  function Resolve(p: Probe, outcome: FetchOutcome, now: int, parse: string -> Option<int>): DomainResult {
    match p
    case EmptyInput(r) => r
    case Hit(r) => r
    case Miss(key) => FetchedEntry(key, outcome, now, parse).result
  }

  /** The cache after a probe's remote call, if any, has answered. */
  function Record(entries: map<string, CachedEntry>, p: Probe, outcome: FetchOutcome, now: int,
                  parse: string -> Option<int>): map<string, CachedEntry>
  {
    if p.Miss? then entries[p.key := FetchedEntry(p.key, outcome, now, parse)] else entries
  }

  /** Every key is a non-empty normalised domain, and its result is about that domain. */
  ghost predicate WellFormed(entries: map<string, CachedEntry>) {
    forall k :: k in entries ==> k != "" && IsNormalized(k) && entries[k].result.domain == k
  }

  /**
   * The cache check for a key that is normalised already, as every batch
   * key is: an empty key, a fresh entry, or a miss.
   */
  function ProbeKey(entries: map<string, CachedEntry>, key: string, now: int): (p: Probe)
    ensures p.Miss? ==> p.key == key && key != ""
    ensures p.Hit? ==> key in entries && entries[key].expiresAt > now && p.result == entries[key].result
  {
    if key == "" then EmptyInput(EmptyDomainResult(key))
    else if key in entries && entries[key].expiresAt > now then Hit(entries[key].result)
    else Miss(key)
  }

  /** For a key that is normalised already, `ProbeKey` is the lookup's own cache check. */
  lemma ProbeKeyIsProbeCache(entries: map<string, CachedEntry>, key: string, now: int)
    requires IsNormalized(key)
    ensures ProbeKey(entries, key, now) == ProbeCache(entries, key, now)
  {
    assert Normalize(key) == key;
  }

  /** The two maps hold the same entry, or none, under `key`. */
  ghost predicate AgreeAt(m1: map<string, CachedEntry>, m2: map<string, CachedEntry>, key: string) {
    (key in m1 <==> key in m2) && (key in m1 ==> m1[key] == m2[key])
  }

  /** A lookup reads nothing of the cache but the entry under its own key. */
  lemma ProbeLocal(m1: map<string, CachedEntry>, m2: map<string, CachedEntry>, domain: string, now: int)
    requires AgreeAt(m1, m2, Normalize(domain))
    ensures ProbeCache(m1, domain, now) == ProbeCache(m2, domain, now)
  {
  }

  // ---------------------------------------------------------------------
  // lookupSingleDomain

  function Lookup(entries: map<string, CachedEntry>, domain: string, now: int, outcome: FetchOutcome,
                  parse: string -> Option<int>): (DomainResult, map<string, CachedEntry>)
  {
    var p := ProbeCache(entries, domain, now);
    (Resolve(p, outcome, now, parse), Record(entries, p, outcome, now, parse))
  }

  /**
   * An input that normalises to nothing is answered with an error about the
   * original input, with no expiry, top-level label, registrar or dates, and
   * the cache is not touched.
   */
  lemma LookupEmptyDomain(entries: map<string, CachedEntry>, domain: string, now: int, outcome: FetchOutcome,
                          parse: string -> Option<int>)
    requires Normalize(domain) == ""
    ensures var (r, after) := Lookup(entries, domain, now, outcome, parse);
      && r.domain == domain && r.status == Error && r.message == EmptyDomainValue
      && r.expiryDate.None? && r.tld.None? && r.registrarName.None? && r.createdDate.None? && r.updatedDate.None?
      && after == entries
  {
  }

  /** A fresh entry is returned as stored and the cache is not touched; the remote call is not made. */
  lemma LookupFreshHit(entries: map<string, CachedEntry>, domain: string, now: int, outcome: FetchOutcome,
                       parse: string -> Option<int>)
    requires Normalize(domain) in entries && entries[Normalize(domain)].expiresAt > now
    requires WellFormed(entries)
    ensures Lookup(entries, domain, now, outcome, parse) == (entries[Normalize(domain)].result, entries)
  {
  }

  /**
   * Without a fresh entry the remote outcome decides: exactly the normalised
   * key is overwritten with the fetched entry, and the result is about the
   * normalised domain.
   */
  lemma LookupMiss(entries: map<string, CachedEntry>, domain: string, now: int, outcome: FetchOutcome,
                   parse: string -> Option<int>)
    requires Normalize(domain) != ""
    requires Normalize(domain) !in entries || entries[Normalize(domain)].expiresAt <= now
    ensures var key := Normalize(domain);
      var (r, after) := Lookup(entries, domain, now, outcome, parse);
      && r == FetchedEntry(key, outcome, now, parse).result
      && r.domain == key
      && after == entries[key := FetchedEntry(key, outcome, now, parse)]
      && after[key].expiresAt == now + (if Parsed(outcome) then SuccessTtlMs else FailureTtlMs)
  {
  }

  /** No key but the normalised one ever changes. */
  lemma LookupTouchesOnlyItsKey(entries: map<string, CachedEntry>, domain: string, now: int, outcome: FetchOutcome,
                                parse: string -> Option<int>, k: string)
    requires k != Normalize(domain)
    ensures AgreeAt(Lookup(entries, domain, now, outcome, parse).1, entries, k)
  {
  }

  /** Lookups keep the cache well formed, and every result names the normalised domain or, if that is empty, the input. */
  lemma {:induction false} LookupWellFormed(entries: map<string, CachedEntry>, domain: string, now: int,
                                            outcome: FetchOutcome, parse: string -> Option<int>)
    requires WellFormed(entries)
    ensures WellFormed(Lookup(entries, domain, now, outcome, parse).1)
    ensures var r := Lookup(entries, domain, now, outcome, parse).0;
      r.domain == if Normalize(domain) == "" then domain else Normalize(domain)
  {
    var key := Normalize(domain);
    NormalizeIdempotent(domain);
    var p := ProbeCache(entries, domain, now);
    if p.Miss? {
      var after := entries[key := FetchedEntry(key, outcome, now, parse)];
      assert Lookup(entries, domain, now, outcome, parse).1 == after;
      forall k | k in after ensures k != "" && IsNormalized(k) && after[k].result.domain == k {
        if k != key {
          assert after[k] == entries[k];
        }
      }
    } else {
      assert Lookup(entries, domain, now, outcome, parse).1 == entries;
    }
  }

  /**
   * A second lookup of the same domain, in any spelling that normalises
   * alike, before the written entry expires, returns the very same result
   * and makes no remote call.
   */
  lemma RepeatLookupHits(entries: map<string, CachedEntry>, domain: string, now: int, outcome: FetchOutcome,
                         parse: string -> Option<int>, again: string, later: int, outcome2: FetchOutcome)
    requires ProbeCache(entries, domain, now).Miss?
    requires Normalize(again) == Normalize(domain)
    requires later < now + (if Parsed(outcome) then SuccessTtlMs else FailureTtlMs)
    ensures var (r, after) := Lookup(entries, domain, now, outcome, parse);
      Lookup(after, again, later, outcome2, parse) == (r, after)
  {
  }

  // ---------------------------------------------------------------------
  // fetchRdapForDomains

  /** The skip set: each `skipCacheFor` value lower-cased, then trimmed. */
  function SkipKeys(skipCacheFor: seq<string>): set<string> {
    set v | v in skipCacheFor :: Normalize(v)
  }

  /** The key each input of the batch is looked up under: trimmed, then lower-cased. */
  function BatchKeys(domains: seq<string>): (keys: seq<string>)
    ensures |keys| == |domains|
  {
    seq(|domains|, i requires 0 <= i < |domains| => TrimLower(domains[i]))
  }

  /** The keys the batch deletes: the batch keys that are in the skip set. */
  function DeletedKeys(keys: seq<string>, skip: set<string>): set<string> {
    set k | k in keys && k in skip
  }

  /**
   * What each lookup of the batch sees. Every lookup probes the cache before
   * any remote call returns, so it sees the pre-batch cache less the
   * deleted keys; duplicates of one domain therefore all miss together.
   */
  function BatchProbes(entries: map<string, CachedEntry>, keys: seq<string>, skip: set<string>, now: int): (ps: seq<Probe>)
    ensures |ps| == |keys|
  {
    seq(|keys|, i requires 0 <= i < |keys| => ProbeKey(entries - DeletedKeys(keys, skip), keys[i], now))
  }

  /** The cache after the remote calls of `probes` have answered, in order. */
  function Commit(entries: map<string, CachedEntry>, probes: seq<Probe>, outcomes: seq<FetchOutcome>, now: int,
                  parse: string -> Option<int>): map<string, CachedEntry>
    requires |probes| <= |outcomes|
    decreases |probes|
  {
    if probes == [] then entries
    else
      var n := |probes| - 1;
      Record(Commit(entries, probes[..n], outcomes, now, parse), probes[n], outcomes[n], now, parse)
  }

  function BatchResults(entries: map<string, CachedEntry>, domains: seq<string>, skipCacheFor: seq<string>, now: int,
                        outcomes: seq<FetchOutcome>, parse: string -> Option<int>): (rs: seq<DomainResult>)
    requires |outcomes| == |domains|
    ensures |rs| == |domains|
  {
    var ps := BatchProbes(entries, BatchKeys(domains), SkipKeys(skipCacheFor), now);
    seq(|domains|, i requires 0 <= i < |domains| => Resolve(ps[i], outcomes[i], now, parse))
  }

  function BatchCache(entries: map<string, CachedEntry>, domains: seq<string>, skipCacheFor: seq<string>, now: int,
                      outcomes: seq<FetchOutcome>, parse: string -> Option<int>): map<string, CachedEntry>
    requires |outcomes| == |domains|
  {
    var keys := BatchKeys(domains);
    var skip := SkipKeys(skipCacheFor);
    Commit(entries - DeletedKeys(keys, skip), BatchProbes(entries, keys, skip, now), outcomes, now, parse)
  }

  /** The batch key is already normalised, so the lookup's own normalisation keeps it. */
  lemma BatchKeyNormal(raw: string)
    ensures Normalize(TrimLower(raw)) == TrimLower(raw)
    ensures TrimLower(raw) != "" ==> IsNormalized(TrimLower(raw))
  {
    NormalizeIdempotent(raw);
    NormalizeCommutes(raw);
  }

  /**
   * One result per input, in input order, each about the input trimmed and
   * lower-cased (the empty string for a blank input).
   */
  lemma {:induction false} BatchResultDomains(entries: map<string, CachedEntry>, domains: seq<string>,
                                              skipCacheFor: seq<string>, now: int, outcomes: seq<FetchOutcome>,
                                              parse: string -> Option<int>)
    requires |outcomes| == |domains|
    requires WellFormed(entries)
    ensures var rs := BatchResults(entries, domains, skipCacheFor, now, outcomes, parse);
      forall i :: 0 <= i < |domains| ==> rs[i].domain == TrimLower(domains[i])
  {
    var rs := BatchResults(entries, domains, skipCacheFor, now, outcomes, parse);
    var keys := BatchKeys(domains);
    var skip := SkipKeys(skipCacheFor);
    var purged := entries - DeletedKeys(keys, skip);
    var ps := BatchProbes(entries, keys, skip, now);
    assert WellFormed(purged) by {
      forall k | k in purged ensures k != "" && IsNormalized(k) && purged[k].result.domain == k {
        assert purged[k] == entries[k];
      }
    }
    forall i | 0 <= i < |domains| ensures rs[i].domain == TrimLower(domains[i]) {
      var key := keys[i];
      BatchKeyNormal(domains[i]);
      assert ps[i] == ProbeKey(purged, key, now);
      assert rs[i] == Resolve(ps[i], outcomes[i], now, parse);
      if ps[i].Hit? {
        assert rs[i] == purged[key].result;
      }
    }
  }

  /**
   * How each result is decided: a blank input gets the empty-domain error
   * without a remote call; a non-blank input in the skip set always gets a
   * fresh remote result; any other is answered from a fresh pre-batch entry
   * when there is one, and remotely otherwise.
   */
  lemma {:induction false} BatchResultSource(entries: map<string, CachedEntry>, domains: seq<string>,
                                             skipCacheFor: seq<string>, now: int, outcomes: seq<FetchOutcome>,
                                             parse: string -> Option<int>, i: int)
    requires |outcomes| == |domains| && 0 <= i < |domains|
    ensures var key := TrimLower(domains[i]);
      var r := BatchResults(entries, domains, skipCacheFor, now, outcomes, parse)[i];
      if key == "" then r == EmptyDomainResult("")
      else if key !in SkipKeys(skipCacheFor) && key in entries && entries[key].expiresAt > now
      then r == entries[key].result
      else r == FetchedEntry(key, outcomes[i], now, parse).result
  {
    var keys := BatchKeys(domains);
    BatchKeyNormal(domains[i]);
    assert keys[i] in keys;
  }

  /** The keys deleted by a prefix one input longer. */
  lemma DeletedKeysSnoc(keys: seq<string>, i: int, skip: set<string>)
    requires 0 <= i < |keys|
    ensures DeletedKeys(keys[..i + 1], skip) ==
      DeletedKeys(keys[..i], skip) + (if keys[i] in skip then {keys[i]} else {})
  {
    assert keys[..i + 1] == keys[..i] + [keys[i]];
  }

  /**
   * One step of the batch's synchronous part: after the deletes of the inputs
   * up to `i`, probing input `i`'s key sees what `BatchProbes` says it sees.
   */
  lemma BatchStep(entries: map<string, CachedEntry>, domains: seq<string>, skip: set<string>, now: int, i: int)
    requires 0 <= i < |domains|
    ensures var keys := BatchKeys(domains);
      var key := TrimLower(domains[i]);
      && keys[i] == key
      && DeletedKeys(keys[..i + 1], skip) == DeletedKeys(keys[..i], skip) + (if key in skip then {key} else {})
      && ProbeKey(entries - DeletedKeys(keys[..i + 1], skip), key, now) == BatchProbes(entries, keys, skip, now)[i]
  {
    var keys := BatchKeys(domains);
    var key := keys[i];
    DeletedKeysSnoc(keys, i, skip);
    assert key in keys;
  }

  /** Deleting one set of keys and then another is deleting both. */
  lemma SubtractTwice(m: map<string, CachedEntry>, a: set<string>, b: set<string>)
    ensures m - a - b == m - (a + b)
  {
  }

  /** Every lookup of the batch that goes to the network does so under a non-empty normalised key. */
  lemma BatchProbesMissKeys(entries: map<string, CachedEntry>, domains: seq<string>, skip: set<string>, now: int)
    ensures var ps := BatchProbes(entries, BatchKeys(domains), skip, now);
      forall j :: 0 <= j < |ps| && ps[j].Miss? ==> ps[j].key != "" && IsNormalized(ps[j].key)
  {
    forall j | 0 <= j < |domains| {
      BatchKeyNormal(domains[j]);
    }
  }

  /** Inputs that share a key all probe the same way. */
  lemma SameKeySameProbeKind(entries: map<string, CachedEntry>, domains: seq<string>, skip: set<string>, now: int,
                             i: int, j: int)
    requires 0 <= i < |domains| && 0 <= j < |domains| && TrimLower(domains[i]) == TrimLower(domains[j])
    ensures var ps := BatchProbes(entries, BatchKeys(domains), skip, now);
      ps[i].Miss? == ps[j].Miss?
  {
  }

  /** Committing leaves alone every key that no miss among the probes names. */
  lemma {:induction false} CommitUntouched(entries: map<string, CachedEntry>, probes: seq<Probe>,
                                           outcomes: seq<FetchOutcome>, now: int, parse: string -> Option<int>, k: string)
    requires |probes| <= |outcomes|
    requires forall j :: 0 <= j < |probes| && probes[j].Miss? ==> probes[j].key != k
    ensures AgreeAt(Commit(entries, probes, outcomes, now, parse), entries, k)
    decreases |probes|
  {
    if probes != [] {
      CommitUntouched(entries, probes[..|probes| - 1], outcomes, now, parse, k);
    }
  }

  /** After committing, a key holds the entry written by the last miss that names it. */
  lemma {:induction false} CommitLastWrite(entries: map<string, CachedEntry>, probes: seq<Probe>,
                                           outcomes: seq<FetchOutcome>, now: int, parse: string -> Option<int>, i: int)
    requires |probes| <= |outcomes| && 0 <= i < |probes| && probes[i].Miss?
    requires forall j :: i < j < |probes| && probes[j].Miss? ==> probes[j].key != probes[i].key
    ensures var m := Commit(entries, probes, outcomes, now, parse);
      probes[i].key in m && m[probes[i].key] == FetchedEntry(probes[i].key, outcomes[i], now, parse)
    decreases |probes|
  {
    var n := |probes| - 1;
    if i < n {
      assert probes[..n][i] == probes[i];
      CommitLastWrite(entries, probes[..n], outcomes, now, parse, i);
      assert probes[n].Miss? ==> probes[n].key != probes[i].key;
    }
  }

  /** Committing misses of well-formed keys keeps the cache well formed. */
  lemma {:induction false} CommitWellFormed(entries: map<string, CachedEntry>, probes: seq<Probe>,
                                            outcomes: seq<FetchOutcome>, now: int, parse: string -> Option<int>)
    requires |probes| <= |outcomes| && WellFormed(entries)
    requires forall j :: 0 <= j < |probes| && probes[j].Miss? ==> probes[j].key != "" && IsNormalized(probes[j].key)
    ensures WellFormed(Commit(entries, probes, outcomes, now, parse))
    decreases |probes|
  {
    if probes != [] {
      CommitWellFormed(entries, probes[..|probes| - 1], outcomes, now, parse);
    }
  }

  /** After the batch, a key that no input names keeps its pre-batch entry, or its absence. */
  lemma {:induction false} BatchKeepsOtherKeys(entries: map<string, CachedEntry>, domains: seq<string>,
                                               skipCacheFor: seq<string>, now: int, outcomes: seq<FetchOutcome>,
                                               parse: string -> Option<int>, k: string)
    requires |outcomes| == |domains|
    requires forall j :: 0 <= j < |domains| ==> TrimLower(domains[j]) != k
    ensures AgreeAt(BatchCache(entries, domains, skipCacheFor, now, outcomes, parse), entries, k)
  {
    var keys := BatchKeys(domains);
    var skip := SkipKeys(skipCacheFor);
    var ps := BatchProbes(entries, keys, skip, now);
    forall j | 0 <= j < |ps| && ps[j].Miss? ensures ps[j].key != k {
      BatchKeyNormal(domains[j]);
    }
    CommitUntouched(entries - DeletedKeys(keys, skip), ps, outcomes, now, parse, k);
    assert k !in keys;
  }

  /**
   * After the batch, a skipped key holds the entry fetched for its last
   * input in the batch, so it never keeps a pre-batch entry and it expires
   * after `now`.
   */
  lemma {:induction false} BatchRefreshesSkippedKeys(entries: map<string, CachedEntry>, domains: seq<string>,
                                                     skipCacheFor: seq<string>, now: int, outcomes: seq<FetchOutcome>,
                                                     parse: string -> Option<int>, i: int)
    requires |outcomes| == |domains| && 0 <= i < |domains|
    requires TrimLower(domains[i]) != "" && TrimLower(domains[i]) in SkipKeys(skipCacheFor)
    requires forall j :: i < j < |domains| ==> TrimLower(domains[j]) != TrimLower(domains[i])
    ensures var after := BatchCache(entries, domains, skipCacheFor, now, outcomes, parse);
      && TrimLower(domains[i]) in after
      && after[TrimLower(domains[i])] == FetchedEntry(TrimLower(domains[i]), outcomes[i], now, parse)
      && after[TrimLower(domains[i])].expiresAt > now
  {
    var keys := BatchKeys(domains);
    var skip := SkipKeys(skipCacheFor);
    var ps := BatchProbes(entries, keys, skip, now);
    var key := keys[i];
    BatchKeyNormal(domains[i]);
    assert key in keys;
    assert ps[i] == Miss(key);
    forall j | i < j < |ps| && ps[j].Miss? ensures ps[j].key != key {
      BatchKeyNormal(domains[j]);
    }
    CommitLastWrite(entries - DeletedKeys(keys, skip), ps, outcomes, now, parse, i);
  }

  /**
   * After the batch, a non-blank key that some input names but that is not
   * skipped keeps its pre-batch entry when that is fresh; otherwise it holds
   * the entry fetched for its last input.
   */
  lemma {:induction false} BatchCachedKeys(entries: map<string, CachedEntry>, domains: seq<string>,
                                           skipCacheFor: seq<string>, now: int, outcomes: seq<FetchOutcome>,
                                           parse: string -> Option<int>, i: int)
    requires |outcomes| == |domains| && 0 <= i < |domains|
    requires TrimLower(domains[i]) != "" && TrimLower(domains[i]) !in SkipKeys(skipCacheFor)
    requires forall j :: i < j < |domains| ==> TrimLower(domains[j]) != TrimLower(domains[i])
    ensures var key := TrimLower(domains[i]);
      var after := BatchCache(entries, domains, skipCacheFor, now, outcomes, parse);
      if key in entries && entries[key].expiresAt > now then AgreeAt(after, entries, key)
      else key in after && after[key] == FetchedEntry(key, outcomes[i], now, parse)
  {
    var keys := BatchKeys(domains);
    var skip := SkipKeys(skipCacheFor);
    var purged := entries - DeletedKeys(keys, skip);
    var ps := BatchProbes(entries, keys, skip, now);
    var key := keys[i];
    assert AgreeAt(purged, entries, key);
    forall j | 0 <= j < |ps| && ps[j].Miss? ensures ps[j].key == keys[j] {
      BatchKeyNormal(domains[j]);
    }
    if key in entries && entries[key].expiresAt > now {
      forall j | 0 <= j < |ps| && ps[j].Miss? ensures ps[j].key != key {
      }
      CommitUntouched(purged, ps, outcomes, now, parse, key);
    } else {
      BatchKeyNormal(domains[i]);
      assert ps[i] == Miss(key);
      CommitLastWrite(purged, ps, outcomes, now, parse, i);
    }
  }

  /** The batch keeps the cache well formed. */
  lemma BatchWellFormed(entries: map<string, CachedEntry>, domains: seq<string>, skipCacheFor: seq<string>, now: int,
                        outcomes: seq<FetchOutcome>, parse: string -> Option<int>)
    requires |outcomes| == |domains| && WellFormed(entries)
    ensures WellFormed(BatchCache(entries, domains, skipCacheFor, now, outcomes, parse))
  {
    var keys := BatchKeys(domains);
    var skip := SkipKeys(skipCacheFor);
    var purged := entries - DeletedKeys(keys, skip);
    assert WellFormed(purged) by {
      forall k | k in purged ensures k != "" && IsNormalized(k) && purged[k].result.domain == k {
        assert purged[k] == entries[k];
      }
    }
    BatchProbesMissKeys(entries, domains, skip, now);
    CommitWellFormed(purged, BatchProbes(entries, keys, skip, now), outcomes, now, parse);
  }

  /**
   * Every skip key is normalised, and a domain listed verbatim in
   * `skipCacheFor` bypasses the cache: its batch key is in the skip set,
   * although the two are normalised in opposite orders.
   */
  lemma SkipKeysCover(skipCacheFor: seq<string>, v: string)
    ensures forall k :: k in SkipKeys(skipCacheFor) ==> Normalize(k) == k
    ensures v in skipCacheFor ==> TrimLower(v) in SkipKeys(skipCacheFor)
  {
    forall k | k in SkipKeys(skipCacheFor) ensures Normalize(k) == k {
      var w :| w in skipCacheFor && Normalize(w) == k;
      NormalizeIdempotent(w);
    }
    NormalizeCommutes(v);
  }

  // ---------------------------------------------------------------------
  // The cache object

  class Cache {
    var entries: map<string, CachedEntry>

    ghost predicate Valid()
      reads this
    {
      WellFormed(entries)
    }

    constructor ()
      ensures Valid() && entries == map[]
    {
      entries := map[];
    }

    /** `rdapCache.delete(key)` */
    method Delete(key: string)
      requires Valid()
      modifies this
      ensures Valid() && entries == old(entries) - {key}
    {
      entries := entries - {key};
    }

    /** The synchronous start of `lookupSingleDomain`: normalise, then consult the cache. */
    method Begin(domain: string, now: int) returns (p: Probe)
      requires Valid()
      ensures p == ProbeCache(entries, domain, now)
      ensures p.Miss? ==> p.key != "" && IsNormalized(p.key)
      ensures p.Hit? ==> p.result.domain == Normalize(domain)
    {
      NormalizeIdempotent(domain);
      var normalized := Normalize(domain);
      if normalized == "" {
        p := EmptyInput(EmptyDomainResult(domain));
      } else if normalized in entries && entries[normalized].expiresAt > now {
        p := Hit(entries[normalized].result);
      } else {
        p := Miss(normalized);
      }
    }

    /** The end of `lookupSingleDomain` once its remote call has answered: build the result and cache it. */
    method Store(key: string, outcome: FetchOutcome, now: int, parse: string -> Option<int>) returns (r: DomainResult)
      requires Valid() && key != "" && IsNormalized(key)
      modifies this
      ensures Valid()
      ensures r == FetchedEntry(key, outcome, now, parse).result
      ensures entries == old(entries)[key := FetchedEntry(key, outcome, now, parse)]
    {
      var entry := FetchedEntry(key, outcome, now, parse);
      entries := entries[key := entry];
      r := entry.result;
    }

    method LookupSingleDomain(domain: string, now: int, outcome: FetchOutcome, parse: string -> Option<int>)
      returns (r: DomainResult)
      requires Valid()
      modifies this
      ensures Valid()
      ensures (r, entries) == Lookup(old(entries), domain, now, outcome, parse)
    {
      var p := Begin(domain, now);
      match p
      case EmptyInput(result) => r := result;
      case Hit(result) => r := result;
      case Miss(key) => r := Store(key, outcome, now, parse);
    }

    /**
     * The callback `domains.map` runs for one input: trim and lower-case it,
     * delete its key if it is in the skip set, then start the lookup, which
     * runs synchronously up to its remote call.
     */
    method DeleteAndProbeOne(rawDomain: string, skip: set<string>, now: int) returns (p: Probe)
      requires Valid()
      modifies this
      ensures Valid()
      ensures entries == old(entries) - (if TrimLower(rawDomain) in skip then {TrimLower(rawDomain)} else {})
      ensures p == ProbeKey(entries, TrimLower(rawDomain), now)
    {
      BatchKeyNormal(rawDomain);
      var normalized := TrimLower(rawDomain);
      if normalized in skip {
        Delete(normalized);
      }
      p := Begin(normalized, now);
      ProbeKeyIsProbeCache(entries, normalized, now);
    }

    /** The whole synchronous part of `domains.map`, input by input. */
    method DeleteAndProbe(domains: seq<string>, skip: set<string>, now: int) returns (probes: seq<Probe>)
      requires Valid()
      modifies this
      ensures Valid()
      ensures entries == old(entries) - DeletedKeys(BatchKeys(domains), skip)
      ensures probes == BatchProbes(old(entries), BatchKeys(domains), skip, now)
    {
      ghost var start := entries;
      ghost var keys := BatchKeys(domains);
      ghost var expected := BatchProbes(start, keys, skip, now);
      probes := [];
      for i := 0 to |domains|
        invariant Valid()
        invariant entries == start - DeletedKeys(keys[..i], skip)
        invariant probes == expected[..i]
      {
        var p := DeleteAndProbeOne(domains[i], skip, now);
        assert entries == start - DeletedKeys(keys[..i + 1], skip) && p == expected[i] by {
          var key := TrimLower(domains[i]);
          BatchStep(start, domains, skip, now, i);
          SubtractTwice(start, DeletedKeys(keys[..i], skip), if key in skip then {key} else {});
        }
        assert expected[..i + 1] == expected[..i] + [expected[i]];
        probes := probes + [p];
      }
      assert keys[..|domains|] == keys;
      assert expected[..|domains|] == expected;
    }

    /** The remote calls answering, taken in input order: each miss writes its entry. */
    method CompleteAll(probes: seq<Probe>, outcomes: seq<FetchOutcome>, now: int, parse: string -> Option<int>)
      returns (results: seq<DomainResult>)
      requires Valid() && |probes| == |outcomes|
      requires forall j :: 0 <= j < |probes| && probes[j].Miss? ==> probes[j].key != "" && IsNormalized(probes[j].key)
      modifies this
      ensures Valid()
      ensures entries == Commit(old(entries), probes, outcomes, now, parse)
      ensures |results| == |probes|
      ensures forall j :: 0 <= j < |probes| ==> results[j] == Resolve(probes[j], outcomes[j], now, parse)
    {
      ghost var start := entries;
      results := [];
      for i := 0 to |probes|
        invariant Valid()
        invariant entries == Commit(start, probes[..i], outcomes, now, parse)
        invariant |results| == i
        invariant forall j :: 0 <= j < i ==> results[j] == Resolve(probes[j], outcomes[j], now, parse)
      {
        assert probes[..i + 1][..i] == probes[..i];
        var r;
        match probes[i] {
          case EmptyInput(result) => r := result;
          case Hit(result) => r := result;
          case Miss(key) => r := Store(key, outcomes[i], now, parse);
        }
        results := results + [r];
      }
      assert probes[..|probes|] == probes;
    }

    /**
     * `fetchRdapForDomains`: every lookup probes before any remote call
     * returns, then the remote calls answer; answers are taken in input order.
     */
    method FetchRdapForDomains(domains: seq<string>, skipCacheFor: seq<string>, now: int,
                               outcomes: seq<FetchOutcome>, parse: string -> Option<int>)
      returns (results: seq<DomainResult>)
      requires Valid() && |outcomes| == |domains|
      modifies this
      ensures Valid()
      ensures results == BatchResults(old(entries), domains, skipCacheFor, now, outcomes, parse)
      ensures entries == BatchCache(old(entries), domains, skipCacheFor, now, outcomes, parse)
    {
      var skip := SkipKeys(skipCacheFor);
      var probes := DeleteAndProbe(domains, skip, now);
      BatchProbesMissKeys(old(entries), domains, skip, now);
      results := CompleteAll(probes, outcomes, now, parse);
    }
  }
}
