/**
 * The two tables of the rotation engine (`whatsapp_numbers` and
 * `usage_history`), the constants of the cooldown and blocking rules, and
 * the errors the mutations raise.
 *
 * Timestamps are integer milliseconds since the epoch; nullable columns are
 * `Option`s. Boolean-as-int columns (`isSensitive`, `wasBlocked`) stay ints,
 * as the schema stores them.
 */
module Records {

  datatype Option<T> = None | Some(value: T)

  /** The stored `status` column. It is written by the mutations but never read
      for a decision: the authoritative status is recomputed from time. */
  datatype StoredStatus = StoredAvailable | StoredCooldown | StoredBlocked

  /** One row of `whatsapp_numbers`. */
  datatype WhatsappNumber = WhatsappNumber(
    id: int,
    phoneNumber: string,
    displayName: Option<string>,
    status: StoredStatus,
    lastUsedAt: Option<int>,
    lastContactCount: Option<int>,
    totalUseCount: int,
    blockedUntil: Option<int>,
    isSensitive: int,
    createdAt: int,
    updatedAt: int)

  /** One row of `usage_history`. */
  datatype UsageEntry = UsageEntry(
    id: int,
    numberId: int,
    phoneNumber: string,
    contactCount: int,
    usedAt: int,
    notes: Option<string>,
    wasBlocked: int)

  const MsPerSecond: int := 1000
  const MsPerMinute: int := 60 * MsPerSecond
  const MsPerHour: int := 60 * MsPerMinute
  const MsPerDay: int := 24 * MsPerHour

  /** The 24-hour cooldown that follows every recorded use. */
  const CooldownMs: int := 24 * 60 * 60 * 1000

  /** The range the input schema of `blockNumber` accepts for `hours`. */
  const MinBlockHours: int := 1
  const MaxBlockHours: int := 168

  /** Column defaults of the schema. */
  const DefaultLastContactCount: int := 0
  const DefaultHistoryContactCount: int := 45

  /** The failures of the mutations, each with the message the server raises. */
  datatype Error =
    | NumberNotFound       // "Número não encontrado"
    | DatabaseUnavailable  // "Database not available"
    | AlreadyRegistered    // "Este número já está cadastrado"
    | InvalidInput         // rejected by the input schema of the procedure
    | DuplicateEntry       // the unique index on phone_number rejects the insert

  datatype Outcome = Pass | Fail(error: Error)

  function Message(e: Error): string
  {
    match e
    case NumberNotFound => "Número não encontrado"
    case DatabaseUnavailable => "Database not available"
    case AlreadyRegistered => "Este número já está cadastrado"
    case InvalidInput => "Invalid input"
    case DuplicateEntry => "Duplicate entry"
  }

  function Min(a: int, b: int): int
  {
    if a <= b then a else b
  }
}
