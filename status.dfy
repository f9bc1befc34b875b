/**
 * `computeStatus` of lib/rdap.ts: sorts an expiry timestamp into `error`,
 * `expiring-soon` or `ok`. Time is integer milliseconds; the date parser
 * (`new Date(s).getTime()`, `None` standing for NaN) is a parameter.
 */
module Status {
  import opened Wrappers

  datatype Status = Ok | ExpiringSoon | Error

  /** The `message` texts the engine produces, one constructor per text. */
  datatype Message =
    | CouldNotDetermineExpiry        // "Could not determine expiry from RDAP data."
    | ExpiryInvalid                  // "Expiry date from RDAP was invalid."
    | AppearsExpired                 // "Domain appears to be expired based on RDAP data."
    | ExpiresInAbout(days: int)      // "Domain expires in about N days."
    | HttpStatus(code: int)          // "RDAP returned HTTP N."
    | NetworkError                   // "Network error calling RDAP service."
    | EmptyDomainValue               // "Empty domain value."

  datatype StatusReport = StatusReport(status: Status, message: Message)

  const DayMs: int := 24 * 60 * 60 * 1000
  /** Expiry at most this far ahead counts as expiring soon. */
  const ExpiringSoonDays: int := 90

  /** `Math.round(diffMs / DayMs)` for a positive difference: halves round up. */
  function RoundedDays(diffMs: int): (d: int)
    requires diffMs > 0
    ensures d >= 0
    ensures (2 * d - 1) * DayMs <= 2 * diffMs < (2 * d + 1) * DayMs
  {
    (2 * diffMs + DayMs) / (2 * DayMs)
  }

  /** The expiry instant: absent when the string is missing or empty (falsy) or does not parse. */
  function ExpiryInstant(expiryIso: Option<string>, parse: string -> Option<int>): Option<int> {
    if expiryIso.None? || expiryIso.value == "" then None else parse(expiryIso.value)
  }

  function ComputeStatus(expiryIso: Option<string>, now: int, parse: string -> Option<int>): (r: StatusReport)
    ensures r.message == CouldNotDetermineExpiry <==> expiryIso.None? || expiryIso.value == ""
    ensures r.message == ExpiryInvalid <==>
      expiryIso.Some? && expiryIso.value != "" && parse(expiryIso.value).None?
    ensures r.status == Error <==>
      ExpiryInstant(expiryIso, parse).None? || ExpiryInstant(expiryIso, parse).value <= now
    ensures r.status == ExpiringSoon <==>
      ExpiryInstant(expiryIso, parse).Some?
      && now < ExpiryInstant(expiryIso, parse).value <= now + ExpiringSoonDays * DayMs
    ensures r.status == Ok <==>
      ExpiryInstant(expiryIso, parse).Some?
      && ExpiryInstant(expiryIso, parse).value > now + ExpiringSoonDays * DayMs
    ensures r.message == AppearsExpired <==>
      ExpiryInstant(expiryIso, parse).Some? && ExpiryInstant(expiryIso, parse).value <= now
    ensures r.status != Error <==> r.message.ExpiresInAbout?
    ensures r.message.ExpiresInAbout? ==>
      ExpiryInstant(expiryIso, parse).Some? && ExpiryInstant(expiryIso, parse).value > now
      && r.message.days == RoundedDays(ExpiryInstant(expiryIso, parse).value - now)
    ensures r.status == ExpiringSoon ==> 0 <= r.message.days <= ExpiringSoonDays
    ensures r.status == Ok ==> r.message.days >= ExpiringSoonDays
  {
    if expiryIso.None? || expiryIso.value == "" then
      StatusReport(Error, CouldNotDetermineExpiry)
    else
      match parse(expiryIso.value)
      case None => StatusReport(Error, ExpiryInvalid)
      case Some(expiry) =>
        var diffMs := expiry - now;
        if diffMs <= 0 then StatusReport(Error, AppearsExpired)
        else if diffMs <= ExpiringSoonDays * DayMs then StatusReport(ExpiringSoon, ExpiresInAbout(RoundedDays(diffMs)))
        else StatusReport(Ok, ExpiresInAbout(RoundedDays(diffMs)))
  }

  /** Orders the statuses from worst to best. */
  function Rank(s: Status): nat {
    match s
    case Error => 0
    case ExpiringSoon => 1
    case Ok => 2
  }

  /**
   * A later expiry never gives a worse status, and neither does an earlier
   * clock: the classification is monotone in `expiry - now`.
   */
  lemma StatusMonotone(a: Option<string>, b: Option<string>, nowA: int, nowB: int, parse: string -> Option<int>)
    requires ExpiryInstant(a, parse).Some? && ExpiryInstant(b, parse).Some?
    requires ExpiryInstant(a, parse).value - nowA <= ExpiryInstant(b, parse).value - nowB
    ensures Rank(ComputeStatus(a, nowA, parse).status) <= Rank(ComputeStatus(b, nowB, parse).status)
  {
  }
}
