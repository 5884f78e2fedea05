/**
  The `licenses` table and the handlers that change it or list it. Each
  handler's write is the matching function of module Lifecycle applied to the
  rows it found; the rows stay in id order and keep their client ids distinct.
 */
module Store {
  import opened LicenseTypes
  import opened Status
  import Lifecycle

  class LicenseStore {
    /** The table's rows in id (insertion) order. */
    var rows: seq<License>

    /** The UNIQUE constraint on client_id. */
    ghost predicate Valid()
      reads this
    {
      DistinctIds(rows)
    }

    /** The table as `init_db` creates it: empty. */
    constructor ()
      ensures Valid() && rows == []
    {
      rows := [];
    }

    /**
      `/activate` (POST). The machine id and password come from the generators;
      a renewal discards them. The password is shown once, when the row is new.
     */
    method Activate(form: ActivationForm, now: Clock, machineId: string, password: string)
      returns (isNew: bool, shownPassword: Option<string>)
      requires Valid()
      requires IsGeneratedPassword(password)
      modifies this
      ensures Valid()
      ensures isNew <==> !HasId(old(rows), form.clientId)
      ensures shownPassword == if isNew then Some(password) else None
      ensures rows == Lifecycle.IssueOrRenew(old(rows), form, now.day, machineId, password)
      ensures isNew ==> IsGeneratedPassword(rows[|old(rows)|].password)
      ensures exists k :: (0 <= k < |rows| && rows[k].clientId == form.clientId &&
                           forall j :: 0 <= j < |rows| && rows[j].clientId == form.clientId ==> j == k)
    {
      Lifecycle.IssueOrRenewKeepsIdsUnique(rows, form, now.day, machineId, password);
      var existing := HasId(rows, form.clientId);
      if existing {
        rows := Lifecycle.UpdateWhere(rows, form.clientId,
          row => Lifecycle.Renewed(row, form.transactionId, now.day, form.duration));
        isNew, shownPassword := false, None;
      } else {
        Lifecycle.IssueAppendsOne(rows, form, now.day, machineId, password);
        rows := rows + [Lifecycle.NewLicense(form, now.day, machineId, password)];
        isNew, shownPassword := true, Some(password);
      }
    }

    /** `/deactivate/<client_id>`: silent when no row carries the id. */
    method Deactivate(id: string)
      requires Valid()
      modifies this
      ensures Valid()
      ensures rows == Lifecycle.Deactivate(old(rows), id)
      ensures !HasId(old(rows), id) ==> rows == old(rows)
    {
      Lifecycle.DeactivateEffect(rows, id);
      rows := Lifecycle.UpdateWhere(rows, id, Lifecycle.Deactivated);
    }

    /** `/activate/<client_id>`: a flat 30-day window from today; silent when no row carries the id. */
    method Reactivate(id: string, now: Clock)
      requires Valid()
      modifies this
      ensures Valid()
      ensures rows == Lifecycle.Reactivate(old(rows), id, now.day)
      ensures !HasId(old(rows), id) ==> rows == old(rows)
    {
      Lifecycle.ReactivateEffect(rows, id, now.day);
      rows := Lifecycle.UpdateWhere(rows, id, row => Lifecycle.Reactivated(row, now.day));
    }

    /** The listing of `/admin`: one entry per row, in row order, status computed against `now`. */
    method Dashboard(now: Clock) returns (listing: seq<DashboardEntry>)
      ensures |listing| == |rows|
      ensures forall i :: 0 <= i < |rows| ==>
        listing[i].clientId == rows[i].clientId && listing[i].clientName == rows[i].clientName &&
        listing[i].email == rows[i].email && listing[i].machineId == rows[i].machineId &&
        listing[i].lastPayment == rows[i].lastPayment && listing[i].validUntil == rows[i].validUntil &&
        listing[i].status == RowStatus(rows[i], now)
    {
      listing := [];
      for i := 0 to |rows|
        invariant |listing| == i
        invariant forall k :: 0 <= k < i ==> listing[k] == EntryOf(rows[k], now)
      {
        listing := listing + [EntryOf(rows[i], now)];
      }
    }
  }
}
