/**
 * The per-user dialogue store of the BotExt package: one row per user with
 * the name of the state the user is in, a bag of temporary string variables
 * and the id of the last menu message. Postgres is modelled as a map from
 * user id to row; a NULL `state` column reads like the empty name in every
 * read of this package (the failed scan leaves the name empty), so it is
 * stored as "".
 */
module StateStore {
  import opened Wrappers

  /** The name meaning "the user is in no dialogue". */
  const NoState: string := ""

  datatype Row = Row(state: string, vars: map<string, string>, messageID: Option<int>)

  type Table = map<int, Row>

  /** The row a fresh upsert creates: NULL state, empty variables, NULL message id. */
  const EmptyRow: Row := Row(NoState, map[], None)

  function RowOf(t: Table, userID: int): Row
  {
    if userID in t then t[userID] else EmptyRow
  }

  // ------------------------------------------------ the table operations

  /** `INSERT ... ON CONFLICT DO UPDATE SET state`: only the state column changes. */
  function WriteState(t: Table, userID: int, name: string): (t': Table)
    ensures userID in t' && t'[userID].state == name
    ensures t'[userID].vars == RowOf(t, userID).vars
    ensures t'[userID].messageID == RowOf(t, userID).messageID
    ensures forall u | u != userID :: (u in t' <==> u in t) && (u in t ==> t'[u] == t[u])
  {
    t[userID := RowOf(t, userID).(state := name)]
  }

  /** `SELECT state`: a missing row (and a NULL column) read as `NoState`. */
  function ReadState(t: Table, userID: int): (name: string)
    ensures userID !in t ==> name == NoState
  {
    RowOf(t, userID).state
  }

  /** `UPDATE ... SET temp_vars = temp_vars || {name: value}`: a no-op without a row. */
  function WriteVar(t: Table, userID: int, name: string, value: string): (t': Table)
    ensures t'.Keys == t.Keys
    ensures userID in t ==> t'[userID] == t[userID].(vars := t[userID].vars[name := value])
    ensures forall u | u in t && u != userID :: t'[u] == t[u]
  {
    if userID in t then t[userID := t[userID].(vars := t[userID].vars[name := value])] else t
  }

  /**
   * `SELECT temp_vars->>name`: no row scans as `("", true)`; a row without
   * the key yields SQL NULL, which fails to scan into a string (`ok` false).
   */
  function ReadVar(t: Table, userID: int, name: string): (r: (string, bool))
    ensures userID !in t ==> r == ("", true)
    ensures userID in t ==> (r.1 <==> name in t[userID].vars)
    ensures userID in t && name in t[userID].vars ==> r.0 == t[userID].vars[name]
  {
    if userID !in t then ("", true)
    else if name in t[userID].vars then (t[userID].vars[name], true)
    else ("", false)
  }

  /** `SELECT temp_vars`: `None` (a nil map) without a row. */
  function ReadVars(t: Table, userID: int): (r: Option<map<string, string>>)
    ensures r.Some? <==> userID in t
    ensures r.Some? ==> r.value == t[userID].vars
  {
    if userID in t then Some(t[userID].vars) else None
  }

  /** `UPDATE ... SET temp_vars = '{}'`: a no-op without a row. */
  function ClearVars(t: Table, userID: int): (t': Table)
    ensures t'.Keys == t.Keys
    ensures userID in t ==> t'[userID] == t[userID].(vars := map[])
    ensures forall u | u in t && u != userID :: t'[u] == t[u]
  {
    if userID in t then t[userID := t[userID].(vars := map[])] else t
  }

  /** `ResetState(userID, keepVars)`: state back to none, variables cleared unless kept. */
  function Reset(t: Table, userID: int, keepVars: bool): (t': Table)
  {
    var t1 := WriteState(t, userID, NoState);
    if keepVars then t1 else ClearVars(t1, userID)
  }

  /** Upsert of the `message_id` column alone. */
  function WriteMessageID(t: Table, userID: int, msgID: int): (t': Table)
    ensures userID in t' && t'[userID].messageID == Some(msgID)
    ensures t'[userID].state == RowOf(t, userID).state && t'[userID].vars == RowOf(t, userID).vars
    ensures forall u | u != userID :: (u in t' <==> u in t) && (u in t ==> t'[u] == t[u])
  {
    t[userID := RowOf(t, userID).(messageID := Some(msgID))]
  }

  /**
   * `SELECT message_id`: no row scans as `(0, true)`; a NULL column on an
   * existing row fails to scan (`ok` false, id 0).
   */
  function ReadMessageID(t: Table, userID: int): (r: (int, bool))
    ensures userID !in t ==> r == (0, true)
    ensures userID in t ==> (r.1 <==> t[userID].messageID.Some?)
    ensures userID in t && t[userID].messageID.Some? ==> r.0 == t[userID].messageID.value
    ensures !r.1 ==> r.0 == 0
  {
    if userID !in t then (0, true)
    else match t[userID].messageID
      case Some(m) => (m, true)
      case None => (0, false)
  }

  // ------------------------------------------------ laws of the table

  /** A written state is read back; every other user keeps theirs. */
  lemma ReadAfterWriteState(t: Table, userID: int, name: string, other: int)
    ensures ReadState(WriteState(t, userID, name), userID) == name
    ensures other != userID ==> ReadState(WriteState(t, userID, name), other) == ReadState(t, other)
  {
  }

  /** A variable written into an existing row is read back with `ok`. */
  lemma ReadAfterWriteVar(t: Table, userID: int, name: string, value: string, other: string)
    requires userID in t
    ensures ReadVar(WriteVar(t, userID, name, value), userID, name) == (value, true)
    ensures other != name ==>
      ReadVar(WriteVar(t, userID, name, value), userID, other) == ReadVar(t, userID, other)
  {
  }

  /** Variables written before the user has a row are lost. */
  lemma WriteVarWithoutRow(t: Table, userID: int, name: string, value: string)
    requires userID !in t
    ensures WriteVar(t, userID, name, value) == t
    ensures ReadVar(WriteVar(t, userID, name, value), userID, name) == ("", true)
  {
  }

  /**
   * After a reset the user has no state; the variables are gone unless kept,
   * and the menu message id survives.
   */
  lemma ResetLeavesNoState(t: Table, userID: int, keepVars: bool)
    ensures userID in Reset(t, userID, keepVars)
    ensures Reset(t, userID, keepVars)[userID].state == NoState
    ensures Reset(t, userID, keepVars)[userID].vars == (if keepVars then RowOf(t, userID).vars else map[])
    ensures Reset(t, userID, keepVars)[userID].messageID == RowOf(t, userID).messageID
    ensures forall u | u in t && u != userID :: u in Reset(t, userID, keepVars) && Reset(t, userID, keepVars)[u] == t[u]
  {
  }

  /** Writing the message id touches neither the state nor the variables. */
  lemma MessageIDIndependent(t: Table, userID: int, msgID: int, name: string)
    ensures ReadMessageID(WriteMessageID(t, userID, msgID), userID) == (msgID, true)
    ensures ReadState(WriteMessageID(t, userID, msgID), userID) == ReadState(t, userID)
    ensures userID in t ==> ReadVar(WriteMessageID(t, userID, msgID), userID, name) == ReadVar(t, userID, name)
  {
  }

  /** Only the last message id written counts. */
  lemma WriteMessageIDTwice(t: Table, userID: int, first: int, second: int)
    ensures WriteMessageID(WriteMessageID(t, userID, first), userID, second) == WriteMessageID(t, userID, second)
  {
  }

  // ------------------------------------------------ the store object

  /** The `states` table behind the package-level functions of BotExt/db.go. */
  class Store {
    var rows: Table

    constructor()
      ensures rows == map[]
    {
      rows := map[];
    }

    method SetState(userID: int, name: string)
      modifies this
      ensures rows == WriteState(old(rows), userID, name)
    {
      rows := WriteState(rows, userID, name);
    }

    method GetState(userID: int) returns (name: string)
      ensures userID in rows ==> name == rows[userID].state
      ensures userID !in rows ==> name == NoState
    {
      name := ReadState(rows, userID);
    }

    /** True exactly when the user's row exists and names a state. */
    method HasState(userID: int) returns (b: bool)
      ensures b <==> userID in rows && rows[userID].state != NoState
    {
      b := userID in rows && rows[userID].state != NoState;
    }

    method ResetState(userID: int, keepVars: bool)
      modifies this
      ensures rows == Reset(old(rows), userID, keepVars)
    {
      SetState(userID, NoState);
      if !keepVars {
        ClearStateVars(userID);
      }
    }

    method SetStateVar(userID: int, name: string, value: string)
      modifies this
      ensures rows == WriteVar(old(rows), userID, name, value)
    {
      rows := WriteVar(rows, userID, name, value);
    }

    method GetStateVar(userID: int, name: string) returns (value: string, ok: bool)
      ensures userID !in rows ==> value == "" && ok
      ensures userID in rows ==> (ok <==> name in rows[userID].vars)
      ensures userID in rows && name in rows[userID].vars ==> value == rows[userID].vars[name]
      ensures !ok ==> value == ""
    {
      value, ok := ReadVar(rows, userID, name).0, ReadVar(rows, userID, name).1;
    }

    method GetStateVars(userID: int) returns (values: Option<map<string, string>>)
      ensures values.Some? <==> userID in rows
      ensures values.Some? ==> values.value == rows[userID].vars
    {
      values := ReadVars(rows, userID);
    }

    method ClearStateVars(userID: int)
      modifies this
      ensures rows == ClearVars(old(rows), userID)
    {
      rows := ClearVars(rows, userID);
    }

    method SetMessageID(userID: int, msgID: int)
      modifies this
      ensures rows == WriteMessageID(old(rows), userID, msgID)
    {
      rows := WriteMessageID(rows, userID, msgID);
    }

    method GetMessageID(userID: int) returns (msgID: int, ok: bool)
      ensures userID !in rows ==> msgID == 0 && ok
      ensures userID in rows ==> (ok <==> rows[userID].messageID.Some?)
      ensures userID in rows && ok ==> msgID == rows[userID].messageID.value
      ensures !ok ==> msgID == 0
    {
      msgID, ok := ReadMessageID(rows, userID).0, ReadMessageID(rows, userID).1;
    }
  }
}
