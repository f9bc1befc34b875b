/**
 * A domain-registry response in the RDAP format of RFC 9083 and the
 * best-effort extraction helpers of lib/rdap.ts: each helper is total and
 * answers `None` where a field is missing instead of failing.
 */
module RdapResponse {
  import opened Wrappers
  import opened Text
  import opened Splitting

  /** An RFC 9083 event: an action label and the date it happened, both optional. */
  datatype RdapEvent = RdapEvent(eventAction: Option<string>, eventDate: Option<string>)

  /**
   * One jCard property (RFC 7095): name, parameters, value type, value. The
   * parameter object is never read by the engine and is left out.
   */
  datatype VCardEntry = VCardEntry(name: string, valueType: string, value: string)

  /** A jCard: the tag `"vcard"` followed by its properties. */
  datatype VCard = VCard(tag: string, properties: seq<VCardEntry>)

  datatype RdapEntity = RdapEntity(roles: Option<seq<string>>, vcardArray: Option<VCard>)

  datatype Rdap = Rdap(
    events: Option<seq<RdapEvent>>,
    entities: Option<seq<RdapEntity>>,
    ldhName: Option<string>)

  /** The action labels each event extractor accepts, after lower-casing. */
  const ExpiryActions: set<string> := {"expiration", "expiry", "expires", "registration expiration"}
  const CreatedActions: set<string> := {"registration", "creation"}
  const UpdatedActions: set<string> := {"last changed", "last update"}

  /** `Array.prototype.find` as an index: the first position whose element satisfies `p`. */
  function FirstIndex<T>(s: seq<T>, p: T -> bool): (r: Option<nat>)
    ensures r.Some? ==> r.value < |s| && p(s[r.value])
    ensures r.Some? ==> forall j :: 0 <= j < r.value ==> !p(s[j])
    ensures r.None? <==> forall j :: 0 <= j < |s| ==> !p(s[j])
    decreases |s|
  {
    if s == [] then None
    else if p(s[0]) then Some(0)
    else
      match FirstIndex(s[1..], p)
      case None => None
      case Some(i) => Some(i + 1)
  }

  /** `rdap.events ?? []` */
  function EventsOf(rdap: Rdap): seq<RdapEvent> {
    rdap.events.GetOr([])
  }

  /** The event's lower-cased action is one of `labels`; an event without an action matches nothing. */
  predicate ActionIn(e: RdapEvent, labels: set<string>) {
    e.eventAction.Some? && Lower(e.eventAction.value) in labels
  }

  /** Position `i` holds the first event whose action is one of `labels`. */
  predicate IsFirstMatch(events: seq<RdapEvent>, labels: set<string>, i: int) {
    && 0 <= i < |events|
    && ActionIn(events[i], labels)
    && forall j :: 0 <= j < i ==> !ActionIn(events[j], labels)
  }

  /**
   * The date of the first event whose action is one of `labels`. Only the
   * first match is looked at: if it has no date, the answer is `None` even
   * when a later matching event has one.
   */
  function FirstEventDate(rdap: Rdap, labels: set<string>): (r: Option<string>)
    ensures forall i :: IsFirstMatch(EventsOf(rdap), labels, i) ==> r == EventsOf(rdap)[i].eventDate
    ensures (forall i :: 0 <= i < |EventsOf(rdap)| ==> !ActionIn(EventsOf(rdap)[i], labels)) ==> r.None?
    ensures r.Some? ==> exists i :: IsFirstMatch(EventsOf(rdap), labels, i)
  {
    var events := EventsOf(rdap);
    match FirstIndex(events, (e: RdapEvent) => ActionIn(e, labels))
    case None => None
    case Some(i) =>
      assert IsFirstMatch(events, labels, i);
      events[i].eventDate
  }

  /** The expiry date: the first event labelled expiration, expiry, expires or registration expiration. */
  function GetExpiryFromRdap(rdap: Rdap): (r: Option<string>)
    ensures forall i :: IsFirstMatch(EventsOf(rdap), ExpiryActions, i) ==> r == EventsOf(rdap)[i].eventDate
    ensures r.Some? ==> exists i :: IsFirstMatch(EventsOf(rdap), ExpiryActions, i)
    ensures (forall i :: 0 <= i < |EventsOf(rdap)| ==> !ActionIn(EventsOf(rdap)[i], ExpiryActions)) ==> r.None?
  {
    FirstEventDate(rdap, ExpiryActions)
  }

  /** The creation date: the first event labelled registration or creation. */
  function GetCreatedFromRdap(rdap: Rdap): (r: Option<string>)
    ensures forall i :: IsFirstMatch(EventsOf(rdap), CreatedActions, i) ==> r == EventsOf(rdap)[i].eventDate
    ensures r.Some? ==> exists i :: IsFirstMatch(EventsOf(rdap), CreatedActions, i)
    ensures (forall i :: 0 <= i < |EventsOf(rdap)| ==> !ActionIn(EventsOf(rdap)[i], CreatedActions)) ==> r.None?
  {
    FirstEventDate(rdap, CreatedActions)
  }

  /** The last-update date: the first event labelled last changed or last update. */
  function GetUpdatedFromRdap(rdap: Rdap): (r: Option<string>)
    ensures forall i :: IsFirstMatch(EventsOf(rdap), UpdatedActions, i) ==> r == EventsOf(rdap)[i].eventDate
    ensures r.Some? ==> exists i :: IsFirstMatch(EventsOf(rdap), UpdatedActions, i)
    ensures (forall i :: 0 <= i < |EventsOf(rdap)| ==> !ActionIn(EventsOf(rdap)[i], UpdatedActions)) ==> r.None?
  {
    FirstEventDate(rdap, UpdatedActions)
  }

  /** `rdap.entities ?? []` */
  function EntitiesOf(rdap: Rdap): seq<RdapEntity> {
    rdap.entities.GetOr([])
  }

  /** Some role of the entity is `registrar` in any letter case. */
  predicate IsRegistrar(e: RdapEntity) {
    var roles := e.roles.GetOr([]);
    exists k :: 0 <= k < |roles| && Lower(roles[k]) == "registrar"
  }

  predicate IsFirstRegistrar(entities: seq<RdapEntity>, i: int) {
    && 0 <= i < |entities|
    && IsRegistrar(entities[i])
    && forall j :: 0 <= j < i ==> !IsRegistrar(entities[j])
  }

  predicate IsFormattedName(p: VCardEntry) {
    p.name == "fn"
  }

  /** The value of the first `fn` (formatted name) property of a jCard. */
  function FormattedName(card: VCard): (r: Option<string>)
    ensures r.None? <==> forall j :: 0 <= j < |card.properties| ==> !IsFormattedName(card.properties[j])
    ensures r.Some? ==>
      exists j :: 0 <= j < |card.properties|
        && IsFormattedName(card.properties[j]) && card.properties[j].value == r.value
        && forall k :: 0 <= k < j ==> !IsFormattedName(card.properties[k])
  {
    match FirstIndex(card.properties, IsFormattedName)
    case None => None
    case Some(j) => Some(card.properties[j].value)
  }

  /** The formatted name on an entity's jCard; `None` when it has no jCard. */
  function CardName(e: RdapEntity): Option<string> {
    match e.vcardArray
    case None => None
    case Some(card) => FormattedName(card)
  }

  /**
   * The registrar's formatted name, taken from the first registrar entity
   * only: if that entity has no jCard the answer is `None`, whatever later
   * registrar entities carry.
   */
  function GetRegistrarNameFromRdap(rdap: Rdap): (r: Option<string>)
    ensures (forall i :: 0 <= i < |EntitiesOf(rdap)| ==> !IsRegistrar(EntitiesOf(rdap)[i])) ==> r.None?
    ensures forall i :: IsFirstRegistrar(EntitiesOf(rdap), i) ==> r == CardName(EntitiesOf(rdap)[i])
  {
    var entities := EntitiesOf(rdap);
    match FirstIndex(entities, IsRegistrar)
    case None => None
    case Some(i) =>
      assert IsFirstRegistrar(entities, i);
      CardName(entities[i])
  }

  /** Lower-casing neither adds nor removes dots. */
  lemma LowerKeepsDots(s: string)
    ensures '.' in s <==> '.' in Lower(s)
  {
    var t := Lower(s);
    if '.' in s {
      var k :| 0 <= k < |s| && s[k] == '.';
      assert t[k] == '.';
    }
    if '.' in t {
      var k :| 0 <= k < |t| && t[k] == '.';
      assert LowerChar(s[k]) == '.';
    }
  }

  /**
   * The top-level label of a domain with a leading dot: absent when the
   * domain has no dot, otherwise the text after its last dot.
   */
  function GetTldFromDomain(domain: string): (r: Option<string>)
    ensures r.None? <==> '.' !in domain
    ensures r.Some? ==> |r.value| >= 1 && r.value[0] == '.' && '.' !in r.value[1..]
    ensures r.Some? ==> |r.value| <= |domain| && r.value == Lower(domain)[|domain| - |r.value|..]
  {
    var lowered := Lower(domain);
    var parts := Split(lowered, {'.'});
    LowerKeepsDots(domain);
    LastLabel(lowered);
    if |parts| < 2 then None
    else
      var last := parts[|parts| - 1];
      assert ("." + last)[1..] == last;
      Some("." + last)
  }

  /** With a dot, the last piece of a split on dots is a dot-free suffix that follows a dot. */
  lemma LastLabel(s: string)
    ensures |Split(s, {'.'})| < 2 <==> '.' !in s
    ensures |Split(s, {'.'})| >= 2 ==>
      var last := LastPieceOf(s, {'.'});
      && '.' !in last && |last| < |s| && s[|s| - |last| - 1] == '.' && s[|s| - |last|..] == last
  {
    SplitPieces(s, {'.'});
    CountZero(s, {'.'});
    LastPiece(s, {'.'});
    var parts := Split(s, {'.'});
    assert NoneIn(parts[|parts| - 1], {'.'});
  }

  /**
   * The top-level label is the lower-cased text after the last dot: for
   * `example.co.uk` it is `.uk`, for `a.` it is the bare `.`.
   */
  lemma TldIsLastLabel(prefix: string, top: string)
    requires '.' !in top
    ensures GetTldFromDomain(prefix + ['.'] + top) == Some(['.'] + Lower(top))
  {
    var d := prefix + ['.'] + top;
    var lt := Lower(top);
    assert Lower(d) == Lower(prefix) + ['.'] + lt;
    assert NoneIn(lt, {'.'});
    SplitConcat(Lower(prefix), '.', lt, {'.'});
    SplitNoSeparator(lt, {'.'});
  }
}
