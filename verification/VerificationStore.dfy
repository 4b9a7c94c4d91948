/** The store of one-time values that all sign-in calls share. Of several rows with one
    identifier only the latest is ever seen, and consuming removes them all, so a row per
    identifier is kept. */
module VerificationStore {
  import opened Wrappers
  import opened Json

  datatype Row = Row(value: JsonText, expiresAt: int)

  type Rows = map<string, Row>

  /** What a call returns, and the rows it leaves. */
  datatype Turn<T> = Turn(result: T, rows: Rows)

  /** The value that consuming an identifier yields: none once it is past its expiry. */
  function Consumable(rows: Rows, identifier: string, now: int): Option<JsonText> {
    if identifier in rows && rows[identifier].expiresAt >= now then Some(rows[identifier].value) else None
  }

  /** The rows that the clean-up which follows every lookup keeps. */
  function Unexpired(rows: Rows, now: int): Rows {
    map identifier | identifier in rows && rows[identifier].expiresAt >= now :: rows[identifier]
  }

  class Store {
    var rows: Rows

    constructor ()
      ensures rows == map[]
    {
      rows := map[];
    }

    method CreateVerificationValue(identifier: string, value: JsonText, expiresAt: int)
      modifies this
      ensures rows == old(rows)[identifier := Row(value, expiresAt)]
    {
      rows := rows[identifier := Row(value, expiresAt)];
    }

    /** Deletes whatever it finds, and returns it unless it is past its expiry. */
    method ConsumeVerificationValue(identifier: string, now: int) returns (value: Option<JsonText>)
      modifies this
      ensures rows == old(rows) - {identifier}
      ensures value == Consumable(old(rows), identifier, now)
    {
      if identifier !in rows {
        assert rows == rows - {identifier};
        return None;
      }
      var consumed := rows[identifier];
      rows := rows - {identifier};
      value := if consumed.expiresAt < now then None else Some(consumed.value);
    }

    /** Looks first and cleans up afterwards, so an expired row can still be returned once. */
    method FindVerificationValue(identifier: string, now: int) returns (value: Option<JsonText>)
      modifies this
      ensures rows == Unexpired(old(rows), now)
      ensures value == if identifier in old(rows) then Some(old(rows)[identifier].value) else None
    {
      value := if identifier in rows then Some(rows[identifier].value) else None;
      rows := map kept | kept in rows && !(rows[kept].expiresAt < now) :: rows[kept];
    }
  }
}
