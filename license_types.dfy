/** The values kept in the `licenses` table and the clock the handlers read. */
module LicenseTypes {

  datatype Option<+T> = None | Some(value: T)

  /** A calendar date as a whole number of days from a fixed epoch. */
  type Day = int

  const MicrosPerDay: int := 86_400_000_000

  /** Time elapsed since midnight, at the microsecond resolution of a naive datetime. */
  type TimeOfDay = t: int | 0 <= t < MicrosPerDay

  /** The server's local clock (`datetime.today()` / `datetime.now()`). */
  datatype Clock = Clock(day: Day, sinceMidnight: TimeOfDay)

  /** A TEXT date column: either it parses with "%Y-%m-%d" or it does not. */
  datatype StoredDate = Date(day: Day) | Malformed

  /** One row of the `licenses` table; the row's position in the store stands for its autoincrement id. */
  datatype License = License(
    clientName: string,
    email: string,
    clientId: string,
    transactionId: string,
    duration: int,
    machineId: string,
    password: string,
    lastPayment: StoredDate,
    validUntil: StoredDate,
    isActive: bool)

  /** The fields the administrator submits to issue or renew a licence. */
  datatype ActivationForm = ActivationForm(
    clientName: string,
    email: string,
    clientId: string,
    transactionId: string,
    duration: int)

  const PasswordLength: nat := 8

  /** `string.ascii_letters + string.digits` */
  predicate IsAlphanumeric(c: char) {
    'a' <= c <= 'z' || 'A' <= c <= 'Z' || '0' <= c <= '9'
  }

  /** What the password generator produces: eight letters or digits. */
  predicate IsGeneratedPassword(p: string) {
    |p| == PasswordLength && forall i :: 0 <= i < |p| ==> IsAlphanumeric(p[i])
  }

  /** `SELECT * FROM licenses WHERE client_id = ?` finds a row. */
  predicate HasId(rows: seq<License>, id: string) {
    exists i :: 0 <= i < |rows| && rows[i].clientId == id
  }

  /** The UNIQUE constraint on `client_id`. */
  ghost predicate DistinctIds(rows: seq<License>) {
    forall i, j :: 0 <= i < j < |rows| ==> rows[i].clientId != rows[j].clientId
  }
}
