/**
  The writes the licence handlers make to the `licenses` table, as functions
  from the rows before to the rows after, and what they promise.
 */
module Lifecycle {
  import opened LicenseTypes
  import opened Status

  /** Reactivation always grants this many days, whatever the stored duration. */
  const ReactivationDays: int := 30

  /** `UPDATE licenses SET ... WHERE client_id = ?`: every row carrying `id` is rewritten in place. */
  function UpdateWhere(rows: seq<License>, id: string, f: License -> License): (r: seq<License>)
    ensures |r| == |rows|
  {
    if rows == [] then []
    else [if rows[0].clientId == id then f(rows[0]) else rows[0]] + UpdateWhere(rows[1..], id, f)
  }

  lemma {:induction false} UpdateWhereAt(rows: seq<License>, id: string, f: License -> License, i: int)
    requires 0 <= i < |rows|
    ensures UpdateWhere(rows, id, f)[i] == if rows[i].clientId == id then f(rows[i]) else rows[i]
  {
    if i > 0 {
      UpdateWhereAt(rows[1..], id, f, i - 1);
    }
  }

  /** Rows carrying `id` become `f` of themselves; all other rows, and their order, stay as they were. */
  lemma UpdateWhereEffect(rows: seq<License>, id: string, f: License -> License)
    ensures |UpdateWhere(rows, id, f)| == |rows|
    ensures forall i :: 0 <= i < |rows| ==>
      UpdateWhere(rows, id, f)[i] == if rows[i].clientId == id then f(rows[i]) else rows[i]
    ensures !HasId(rows, id) ==> UpdateWhere(rows, id, f) == rows
  {
    forall i | 0 <= i < |rows|
      ensures UpdateWhere(rows, id, f)[i] == if rows[i].clientId == id then f(rows[i]) else rows[i]
    {
      UpdateWhereAt(rows, id, f, i);
    }
  }

  // ---------------------------------------------------------------- issue or renew

  /** The row INSERTed for a client id seen for the first time. */
  function NewLicense(form: ActivationForm, today: Day, machineId: string, password: string): License {
    License(form.clientName, form.email, form.clientId, form.transactionId, form.duration,
            machineId, password, Date(today), Date(today + form.duration), true)
  }

  /** The UPDATE of a renewal: only the payment reference, the window and the active flag. */
  function Renewed(row: License, transactionId: string, today: Day, duration: int): License {
    row.(transactionId := transactionId, lastPayment := Date(today),
         validUntil := Date(today + duration), isActive := true)
  }

  /** `/activate`: renew the row carrying the form's client id, or insert a new one. */
  function IssueOrRenew(rows: seq<License>, form: ActivationForm, today: Day, machineId: string, password: string)
    : (r: seq<License>)
    ensures HasId(r, form.clientId)
    ensures |r| == if HasId(rows, form.clientId) then |rows| else |rows| + 1
  {
    if HasId(rows, form.clientId) then
      var k :| 0 <= k < |rows| && rows[k].clientId == form.clientId;
      UpdateWhereAt(rows, form.clientId, row => Renewed(row, form.transactionId, today, form.duration), k);
      UpdateWhere(rows, form.clientId, row => Renewed(row, form.transactionId, today, form.duration))
    else
      var r := rows + [NewLicense(form, today, machineId, password)];
      assert r[|rows|].clientId == form.clientId;
      r
  }

  /** A first issuance appends exactly one active row with a window of `duration` days from today. */
  lemma IssueAppendsOne(rows: seq<License>, form: ActivationForm, today: Day, machineId: string, password: string)
    requires !HasId(rows, form.clientId)
    ensures var r := IssueOrRenew(rows, form, today, machineId, password);
      |r| == |rows| + 1 && r[..|rows|] == rows &&
      r[|rows|].clientId == form.clientId && r[|rows|].clientName == form.clientName &&
      r[|rows|].email == form.email && r[|rows|].transactionId == form.transactionId &&
      r[|rows|].duration == form.duration &&
      r[|rows|].machineId == machineId && r[|rows|].password == password &&
      r[|rows|].lastPayment == Date(today) && r[|rows|].validUntil == Date(today + form.duration) &&
      r[|rows|].isActive
  {
  }

  /**
    A renewal rewrites only transaction_id, last_payment, valid_until and
    is_active of the row carrying the id; machine_id, password, name, email and
    the stored duration are kept, and every other row is untouched.
   */
  lemma RenewChangesOnlyWindow(rows: seq<License>, form: ActivationForm, today: Day, machineId: string, password: string)
    requires HasId(rows, form.clientId)
    ensures var r := IssueOrRenew(rows, form, today, machineId, password);
      |r| == |rows| &&
      forall i :: 0 <= i < |rows| ==>
        r[i] == if rows[i].clientId == form.clientId
                then rows[i].(transactionId := form.transactionId, lastPayment := Date(today),
                              validUntil := Date(today + form.duration), isActive := true)
                else rows[i]
  {
    UpdateWhereEffect(rows, form.clientId, row => Renewed(row, form.transactionId, today, form.duration));
  }

  /** With distinct client ids before, there are distinct ids after and exactly one row carries the form's id. */
  lemma IssueOrRenewKeepsIdsUnique(rows: seq<License>, form: ActivationForm, today: Day, machineId: string, password: string)
    requires DistinctIds(rows)
    ensures var r := IssueOrRenew(rows, form, today, machineId, password);
      DistinctIds(r) &&
      exists k :: 0 <= k < |r| && r[k].clientId == form.clientId &&
        forall j :: 0 <= j < |r| && r[j].clientId == form.clientId ==> j == k
  {
    var r := IssueOrRenew(rows, form, today, machineId, password);
    if HasId(rows, form.clientId) {
      RenewChangesOnlyWindow(rows, form, today, machineId, password);
      assert forall i :: 0 <= i < |rows| ==> r[i].clientId == rows[i].clientId;
      var k :| 0 <= k < |rows| && rows[k].clientId == form.clientId;
      assert r[k].clientId == form.clientId;
    } else {
      IssueAppendsOne(rows, form, today, machineId, password);
      assert forall i :: 0 <= i < |rows| ==> r[i] == rows[i];
      assert r[|rows|].clientId == form.clientId;
    }
  }

  /** Issuing the same new id twice keeps the machine id and password minted by the first call. */
  lemma IssueTwiceKeepsFirstCredentials(
    rows: seq<License>, form: ActivationForm, second: ActivationForm,
    day1: Day, day2: Day, machine1: string, password1: string, machine2: string, password2: string)
    requires !HasId(rows, form.clientId) && second.clientId == form.clientId
    ensures var once := IssueOrRenew(rows, form, day1, machine1, password1);
      var twice := IssueOrRenew(once, second, day2, machine2, password2);
      |twice| == |rows| + 1 &&
      twice[|rows|].machineId == machine1 && twice[|rows|].password == password1 &&
      twice[|rows|].validUntil == Date(day2 + second.duration) &&
      twice[|rows|].duration == form.duration
  {
    var once := IssueOrRenew(rows, form, day1, machine1, password1);
    IssueAppendsOne(rows, form, day1, machine1, password1);
    RenewChangesOnlyWindow(once, second, day2, machine2, password2);
  }

  // ---------------------------------------------------------------- deactivate / reactivate

  function Deactivated(row: License): License {
    row.(isActive := false)
  }

  /** The UPDATE of a reactivation: a fresh window of ReactivationDays from today. */
  function Reactivated(row: License, today: Day): License {
    row.(isActive := true, lastPayment := Date(today), validUntil := Date(today + ReactivationDays))
  }

  /** `/deactivate/<client_id>` */
  function Deactivate(rows: seq<License>, id: string): (r: seq<License>)
    ensures |r| == |rows|
  {
    UpdateWhere(rows, id, Deactivated)
  }

  /** Deactivation clears is_active on the row carrying the id and nothing else; an unknown id changes nothing. */
  lemma DeactivateEffect(rows: seq<License>, id: string)
    ensures var r := Deactivate(rows, id);
      (forall i :: 0 <= i < |rows| ==>
        r[i] == if rows[i].clientId == id then rows[i].(isActive := false) else rows[i]) &&
      (!HasId(rows, id) ==> r == rows) &&
      (DistinctIds(rows) ==> DistinctIds(r))
  {
    UpdateWhereEffect(rows, id, Deactivated);
  }

  /** `/activate/<client_id>` */
  function Reactivate(rows: seq<License>, id: string, today: Day): (r: seq<License>)
    ensures |r| == |rows|
  {
    UpdateWhere(rows, id, row => Reactivated(row, today))
  }

  /**
    Reactivation sets is_active, last_payment = today and valid_until = today + 30
    on the row carrying the id, whatever window it had; nothing else changes, and
    an unknown id changes nothing.
   */
  lemma ReactivateEffect(rows: seq<License>, id: string, today: Day)
    ensures var r := Reactivate(rows, id, today);
      (forall i :: 0 <= i < |rows| ==>
        r[i] == if rows[i].clientId == id
                then rows[i].(isActive := true, lastPayment := Date(today), validUntil := Date(today + ReactivationDays))
                else rows[i]) &&
      (!HasId(rows, id) ==> r == rows) &&
      (DistinctIds(rows) ==> DistinctIds(r))
  {
    UpdateWhereEffect(rows, id, row => Reactivated(row, today));
  }

  // ---------------------------------------------------------------- lifecycle and validation

  /** After deactivation the dashboard never shows the row as Valid, however much of its window is left. */
  lemma DeactivatedNeverValid(rows: seq<License>, id: string, now: Clock, k: int)
    requires 0 <= k < |rows| && rows[k].clientId == id
    ensures RowStatus(Deactivate(rows, id)[k], now) ==
      if rows[k].validUntil.Malformed? then InvalidDate else Expired
  {
    DeactivateEffect(rows, id);
  }

  /**
    After deactivation the row's own email and password are still recognised:
    the login is never 401, and when that row is the first match it is 403
    (500 if its date does not parse).
   */
  lemma DeactivatedLoginForbidden(rows: seq<License>, id: string, now: Clock, k: int)
    requires 0 <= k < |rows| && rows[k].clientId == id
    requires rows[k].email != [] && rows[k].password != []
    ensures var response := ApiLogin(Deactivate(rows, id), Some(rows[k].email), Some(rows[k].password), now);
      response != Unauthorized &&
      (IsFirstMatch(rows, rows[k].email, rows[k].password, k) ==>
        response == if rows[k].validUntil.Malformed? then ServerError else Forbidden)
  {
    var r := Deactivate(rows, id);
    DeactivateEffect(rows, id);
    assert Matches(r[k], rows[k].email, rows[k].password);
    if IsFirstMatch(rows, rows[k].email, rows[k].password, k) {
      assert IsFirstMatch(r, rows[k].email, rows[k].password, k);
    }
  }

  /**
    After reactivation on day `now.day` the row is Valid on the dashboard at any
    time that day, and its first-matching credentials log in.
   */
  lemma ReactivateRevives(rows: seq<License>, id: string, now: Clock, k: int)
    requires 0 <= k < |rows| && rows[k].clientId == id
    ensures var r := Reactivate(rows, id, now.day);
      r[k].validUntil == Date(now.day + ReactivationDays) && RowStatus(r[k], now) == Valid &&
      (rows[k].email != [] && rows[k].password != [] &&
       IsFirstMatch(rows, rows[k].email, rows[k].password, k) ==>
         ApiLogin(r, Some(rows[k].email), Some(rows[k].password), now) == Authorized(id))
  {
    var r := Reactivate(rows, id, now.day);
    ReactivateEffect(rows, id, now.day);
    if IsFirstMatch(rows, rows[k].email, rows[k].password, k) {
      assert IsFirstMatch(r, rows[k].email, rows[k].password, k);
    }
  }

  /**
    Issue a new id for `duration` days on day `start`: Valid that day; Expired
    once the window has passed; Reactivate then gives 30 days from that later day.
   */
  lemma IssueExpireReactivate(rows: seq<License>, form: ActivationForm, start: Clock, later: Clock,
                              machineId: string, password: string)
    requires !HasId(rows, form.clientId) && form.duration > 0 && later.day > start.day + form.duration
    ensures var issued := IssueOrRenew(rows, form, start.day, machineId, password);
      var revived := Reactivate(issued, form.clientId, later.day);
      issued[|rows|].validUntil == Date(start.day + form.duration) &&
      RowStatus(issued[|rows|], start) == Valid &&
      RowStatus(issued[|rows|], later) == Expired &&
      revived[|rows|].validUntil == Date(later.day + ReactivationDays) &&
      RowStatus(revived[|rows|], later) == Valid
  {
    var issued := IssueOrRenew(rows, form, start.day, machineId, password);
    IssueAppendsOne(rows, form, start.day, machineId, password);
    ReactivateRevives(issued, form.clientId, later, |rows|);
  }
}
