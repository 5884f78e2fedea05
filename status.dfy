/**
  The two pure decisions taken over a row and the clock: the status the admin
  dashboard shows, and the answer `/api/login` gives for a credential pair.
 */
module Status {
  import opened LicenseTypes

  datatype Status = Valid | Expired | InvalidDate

  /** The instant `now` on a microsecond time line; a date parsed by strptime is its midnight. */
  function Instant(now: Clock): int {
    now.day * MicrosPerDay + now.sinceMidnight
  }

  /**
    Dashboard status of one row. The current datetime, time of day included,
    is compared with midnight of `valid_until`, so the last day itself only
    counts as valid at exactly 00:00:00.
   */
  function RowStatus(row: License, now: Clock): (s: Status)
    ensures s == InvalidDate <==> row.validUntil.Malformed?
    ensures s == Valid <==>
      row.isActive && row.validUntil.Date? &&
      (now.day < row.validUntil.day || (now.day == row.validUntil.day && now.sinceMidnight == 0))
  {
    match row.validUntil
    case Malformed => InvalidDate
    case Date(d) => if row.isActive && Instant(now) <= d * MicrosPerDay then Valid else Expired
  }

  /** One entry of the dashboard listing. */
  datatype DashboardEntry = DashboardEntry(
    clientId: string,
    clientName: string,
    email: string,
    machineId: string,
    lastPayment: StoredDate,
    validUntil: StoredDate,
    status: Status)

  function EntryOf(row: License, now: Clock): DashboardEntry {
    DashboardEntry(row.clientId, row.clientName, row.email, row.machineId,
                   row.lastPayment, row.validUntil, RowStatus(row, now))
  }

  /**
    The outcomes of `/api/login`: 400, 401, 403, 200 with the client id, and 500
    for the exception strptime raises on a malformed date.
   */
  datatype LoginResponse = BadRequest | Unauthorized | Forbidden | Authorized(clientId: string) | ServerError

  /** A JSON field that is absent or empty (`not email`). */
  predicate Missing(field: Option<string>) {
    field.None? || field.value == []
  }

  /** `WHERE email=? AND password=?`: exact, case-sensitive comparison. */
  predicate Matches(row: License, email: string, password: string) {
    row.email == email && row.password == password
  }

  ghost predicate IsFirstMatch(rows: seq<License>, email: string, password: string, i: int) {
    0 <= i < |rows| && Matches(rows[i], email, password) &&
    forall j :: 0 <= j < i ==> !Matches(rows[j], email, password)
  }

  /** `cursor.fetchone()`: the index of the first row, in id order, matching both fields. */
  function FirstMatch(rows: seq<License>, email: string, password: string): (r: Option<nat>)
    ensures r.Some? ==> IsFirstMatch(rows, email, password, r.value)
    ensures r.None? ==> forall i :: 0 <= i < |rows| ==> !Matches(rows[i], email, password)
  {
    if |rows| == 0 then None
    else if Matches(rows[0], email, password) then Some(0)
    else match FirstMatch(rows[1..], email, password)
      case None => None
      case Some(k) => Some(k + 1)
  }

  /** The licence check on the matching row; unlike the dashboard it compares dates only. */
  function CheckLicense(row: License, today: Day): (r: LoginResponse)
    ensures r == ServerError <==> row.validUntil.Malformed?
    ensures r.Authorized? <==> row.validUntil.Date? && row.isActive && today <= row.validUntil.day
    ensures r == Forbidden <==> row.validUntil.Date? && (!row.isActive || today > row.validUntil.day)
    ensures r.Authorized? ==> r.clientId == row.clientId
  {
    match row.validUntil
    case Malformed => ServerError
    case Date(d) => if !row.isActive || today > d then Forbidden else Authorized(row.clientId)
  }

  /** `/api/login`: reads the rows, never changes them. */
  function ApiLogin(rows: seq<License>, email: Option<string>, password: Option<string>, now: Clock)
    : (r: LoginResponse)
    ensures r == BadRequest <==> Missing(email) || Missing(password)
    ensures r == Unauthorized <==>
      !Missing(email) && !Missing(password) &&
      forall i :: 0 <= i < |rows| ==> !Matches(rows[i], email.value, password.value)
    ensures forall i ::
      !Missing(email) && !Missing(password) && IsFirstMatch(rows, email.value, password.value, i) ==>
        r == CheckLicense(rows[i], now.day)
  {
    if Missing(email) || Missing(password) then BadRequest
    else match FirstMatch(rows, email.value, password.value)
      case None => Unauthorized
      case Some(i) => CheckLicense(rows[i], now.day)
  }

  /** The dashboard shows Valid exactly when the login check passes and the clock is not past midnight of the last day. */
  lemma StatusAgreement(row: License, now: Clock)
    requires row.validUntil.Date?
    ensures RowStatus(row, now) == Valid <==>
      CheckLicense(row, now.day).Authorized? &&
      (now.day < row.validUntil.day || now.sinceMidnight == 0)
  {
  }

  /** On the last day, after midnight, an active licence logs in but the dashboard calls it Expired. */
  lemma LastDayDisagreement(row: License, now: Clock)
    requires row.isActive && row.validUntil == Date(now.day) && now.sinceMidnight > 0
    ensures RowStatus(row, now) == Expired
    ensures CheckLicense(row, now.day) == Authorized(row.clientId)
  {
  }
}
