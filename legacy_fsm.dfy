/**
 * The older dialog engine of FSM.go: a pool of named states, each with the
 * text sent when it is entered and a setter that reads an answer and names
 * the next state. It shares the `states` table with BotExt, so the table and
 * its operations are those of `StateStore`.
 *
 * Database failures are inputs: `Db` says which kinds of statement succeed
 * during one call. Messages handed to Telegram are returned, and sending is
 * taken to succeed.
 */
module LegacyFsm {
  import opened Wrappers
  import opened StateStore

  const ResetStateName: string := "__RESET__"
  const ResumeState: string := ""
  const CantAnswerText: string := "Не могу ответить на это сообщение =("

  /** Which statements succeed: reads, the `temp_vars` flush, and the other writes. */
  datatype Db = Db(readOk: bool, clearOk: bool, writeOk: bool)

  const AllOk: Db := Db(true, true, true)

  /** An incoming answer: sender, text, and the UTC minute of the day it arrived at. */
  datatype Update = Update(userID: int, text: string, utcMinutes: int)

  /** `c.Send(what, extra...)` and `c.Reply(text)`. */
  datatype Message = SendText(text: string, extra: seq<string>) | ReplyText(text: string)

  /**
   * What a setter did: the next state it names, the variables it stored
   * through `SetStateVar` (in order), the messages it sent, and whether it
   * returned a non-nil error.
   */
  datatype SetterResult = SetterResult(next: string, writes: seq<(string, string)>, sends: seq<Message>, failed: bool)

  /** A `StateSetterType`: the answer, the table it may read, and whether its writes succeed. */
  type StateSetter = (Update, Table, bool) -> SetterResult

  datatype State = State(onTrigger: string, extra: seq<string>, setter: StateSetter)

  /** The setter's `SetStateVar` calls in order, each a no-op without a row. */
  function ApplyWrites(t: Table, userID: int, writes: seq<(string, string)>): (t': Table)
    ensures t'.Keys == t.Keys
    decreases |writes|
  {
    if |writes| == 0 then t
    else ApplyWrites(WriteVar(t, userID, writes[0].0, writes[0].1), userID, writes[1..])
  }

  /** Storing variables never touches a state. */
  lemma {:induction false} ApplyWritesKeepsStates(t: Table, userID: int, writes: seq<(string, string)>, other: int)
    ensures ReadState(ApplyWrites(t, userID, writes), other) == ReadState(t, other)
    decreases |writes|
  {
    if |writes| > 0 {
      var t1 := WriteVar(t, userID, writes[0].0, writes[0].1);
      assert ReadState(t1, other) == ReadState(t, other);
      ApplyWritesKeepsStates(t1, userID, writes[1..], other);
    }
  }

  // ------------------------------------------------ the effects of a call

  /** `ResetState`: flush the variables, then clear the state; the first failure stops it. */
  function ResetEffect(t: Table, userID: int, db: Db): (r: (Table, bool))
    ensures !db.clearOk ==> r == (t, true)
    ensures r.1 <==> !db.clearOk || !db.writeOk
    ensures !r.1 ==> r.0 == Reset(t, userID, false)
  {
    if !db.clearOk then (t, true)
    else
      var t1 := ClearVars(t, userID);
      if !db.writeOk then (t1, true)
      else
        var t2 := WriteState(t1, userID, NoState);
        assert t2 == Reset(t, userID, false);
        (t2, false)
  }

  /**
   * `TriggerState`: the reset name first resets; then the name must be in
   * the pool, is stored as the user's state, and its text is sent.
   */
  ghost function TriggerEffect(pool: map<string, State>, t: Table, userID: int, name: string, db: Db): (Table, bool, seq<Message>)
  {
    var (t1, resetFailed) := if name == ResetStateName then ResetEffect(t, userID, db) else (t, false);
    if resetFailed then (t1, true, [])
    else if name !in pool then (t1, true, [])
    else if !db.writeOk then (t1, true, [])
    else (WriteState(t1, userID, name), false, [SendText(pool[name].onTrigger, pool[name].extra)])
  }

  /** The transition test of `UpdateState`, as written. */
  predicate TakesTransition(next: string, current: string)
  {
    next != ResumeState || next != current
  }

  /**
   * `UpdateState`: read the state; none means the "can't answer" reply; an
   * unknown one is an error; otherwise run its setter and, unless it
   * failed, trigger the state it names.
   */
  ghost function UpdateEffect(pool: map<string, State>, t: Table, u: Update, db: Db): (Table, bool, seq<Message>)
  {
    if !db.readOk then (t, true, [])
    else
      var name := ReadState(t, u.userID);
      if name == NoState then (t, false, [ReplyText(CantAnswerText)])
      else if name !in pool then (t, true, [])
      else
        var r := pool[name].setter(u, t, db.writeOk);
        var t1 := if db.writeOk then ApplyWrites(t, u.userID, r.writes) else t;
        if r.failed then (t1, true, r.sends)
        else if TakesTransition(r.next, name) then
          var (t2, failed, out) := TriggerEffect(pool, t1, u.userID, r.next, db);
          (t2, failed, r.sends + out)
        else (t1, false, r.sends)
  }

  // ------------------------------------------------ the engine

  class Fsm {
    var statePool: map<string, State>
    /** The `states` table behind the pool's database handle. */
    var rows: Table

    constructor (db: Table)
      ensures statePool == map[] && rows == db
    {
      statePool := map[];
      rows := db;
    }

    /** `AddState`: a name already in the pool is a panic and changes nothing. */
    method AddState(name: string, onTrigger: string, setter: StateSetter, extra: seq<string>) returns (panicked: bool)
      modifies this
      ensures panicked <==> name in old(statePool)
      ensures panicked ==> statePool == old(statePool)
      ensures !panicked ==> statePool == old(statePool)[name := State(onTrigger, extra, setter)]
      ensures rows == old(rows)
    {
      if name in statePool {
        return true;
      }
      statePool := statePool[name := State(onTrigger, extra, setter)];
      return false;
    }

    method ClearStateVars(userID: int, db: Db) returns (failed: bool)
      modifies this
      ensures failed <==> !db.clearOk
      ensures rows == if failed then old(rows) else ClearVars(old(rows), userID)
      ensures statePool == old(statePool)
    {
      if !db.clearOk {
        return true;
      }
      rows := ClearVars(rows, userID);
      return false;
    }

    method ResetState(userID: int, db: Db) returns (failed: bool)
      modifies this
      ensures (rows, failed) == ResetEffect(old(rows), userID, db)
      ensures statePool == old(statePool)
    {
      failed := ClearStateVars(userID, db);
      if failed {
        return;
      }
      if !db.writeOk {
        return true;
      }
      rows := WriteState(rows, userID, NoState);
    }

    method TriggerState(userID: int, name: string, db: Db) returns (failed: bool, out: seq<Message>)
      modifies this
      ensures (rows, failed, out) == TriggerEffect(old(statePool), old(rows), userID, name, db)
      ensures statePool == old(statePool)
    {
      out := [];
      if name == ResetStateName {
        failed := ResetState(userID, db);
        if failed {
          return;
        }
      }
      if name !in statePool {
        return true, [];
      }
      if !db.writeOk {
        return true, [];
      }
      rows := WriteState(rows, userID, name);
      var state := statePool[name];
      return false, [SendText(state.onTrigger, state.extra)];
    }

    method UpdateState(u: Update, db: Db) returns (failed: bool, out: seq<Message>)
      modifies this
      ensures (rows, failed, out) == UpdateEffect(old(statePool), old(rows), u, db)
      ensures statePool == old(statePool)
    {
      if !db.readOk {
        return true, [];
      }
      var name := ReadState(rows, u.userID);
      if name == NoState {
        return false, [ReplyText(CantAnswerText)];
      }
      if name !in statePool {
        return true, [];
      }
      var r := statePool[name].setter(u, rows, db.writeOk);
      if db.writeOk {
        rows := ApplyWrites(rows, u.userID, r.writes);
      }
      if r.failed {
        return true, r.sends;
      }
      out := r.sends;
      if r.next != ResumeState || r.next != name {
        var triggerOut;
        failed, triggerOut := TriggerState(u.userID, r.next, db);
        out := out + triggerOut;
      } else {
        failed := false;
      }
    }

    /** `SetStateVar`: an `UPDATE`, so a user without a row stores nothing. */
    method SetStateVar(userID: int, name: string, value: string, db: Db) returns (failed: bool)
      modifies this
      ensures failed <==> !db.writeOk
      ensures rows == if failed then old(rows) else WriteVar(old(rows), userID, name, value)
      ensures statePool == old(statePool)
    {
      if !db.writeOk {
        return true;
      }
      rows := WriteVar(rows, userID, name, value);
      return false;
    }

    /**
     * `GetStateVar`: `ok` is whether the scan succeeded, computed before a
     * missing row is forgiven; a missing key is SQL NULL, which fails to scan.
     */
    method GetStateVar(userID: int, name: string, db: Db) returns (value: string, ok: bool, failed: bool)
      ensures ok <==> db.readOk && userID in rows && name in rows[userID].vars
      ensures ok ==> value == rows[userID].vars[name] && !failed
      ensures !ok ==> value == ""
      ensures failed <==> !db.readOk || (userID in rows && name !in rows[userID].vars)
    {
      if !db.readOk {
        return "", false, true;
      }
      if userID !in rows {
        return "", false, false;
      }
      if name !in rows[userID].vars {
        return "", false, true;
      }
      return rows[userID].vars[name], true, false;
    }

    /** `GetStateVars`: the whole variable map; a user without a row gets a nil map and no error. */
    method GetStateVars(userID: int, db: Db) returns (values: map<string, string>, failed: bool)
      ensures failed <==> !db.readOk
      ensures values == (if db.readOk && userID in rows then rows[userID].vars else map[])
    {
      if !db.readOk {
        return map[], true;
      }
      match ReadVars(rows, userID)
      case None => return map[], false;
      case Some(vars) => return vars, false;
    }
  }

  // ------------------------------------------------ laws of the engine

  /** A name outside the pool (other than the reset name) is an error and writes nothing. */
  lemma TriggerUnknownWritesNothing(pool: map<string, State>, t: Table, userID: int, name: string, db: Db)
    requires name != ResetStateName && name !in pool
    ensures TriggerEffect(pool, t, userID, name, db) == (t, true, [])
  {
  }

  /**
   * Triggering the reset name clears the user's variables and state, and
   * then still fails, since the reset name is not a registered state.
   */
  lemma ResetTriggerStillFails(pool: map<string, State>, t: Table, userID: int)
    requires ResetStateName !in pool
    ensures var (t', failed, out) := TriggerEffect(pool, t, userID, ResetStateName, AllOk);
      failed && out == [] && t' == Reset(t, userID, false) && ReadState(t', userID) == NoState
  {
  }

  /** Without a stored state the user only gets the "can't answer" reply. */
  lemma UpdateWithoutState(pool: map<string, State>, t: Table, u: Update, db: Db)
    requires db.readOk && ReadState(t, u.userID) == NoState
    ensures UpdateEffect(pool, t, u, db) == (t, false, [ReplyText(CantAnswerText)])
  {
  }

  /** A setter error ends the update: the user's state is what it was. */
  lemma SetterErrorKeepsState(pool: map<string, State>, t: Table, u: Update, db: Db)
    requires db.readOk
    requires var name := ReadState(t, u.userID);
      name != NoState && name in pool && pool[name].setter(u, t, db.writeOk).failed
    ensures UpdateEffect(pool, t, u, db).1
    ensures ReadState(UpdateEffect(pool, t, u, db).0, u.userID) == ReadState(t, u.userID)
  {
    var name := ReadState(t, u.userID);
    ApplyWritesKeepsStates(t, u.userID, pool[name].setter(u, t, db.writeOk).writes, u.userID);
  }

  /** For a non-empty current state the transition test at the end of `UpdateState` can never be false. */
  lemma TransitionAlwaysTaken(next: string, current: string)
    requires current != NoState
    ensures TakesTransition(next, current)
  {
  }

  /**
   * A setter asking to stay (`ResumeState`) does not keep the dialog where
   * it is as intended: it triggers the empty name, which is an error, and
   * the user's state is left as it was.
   */
  lemma ResumeIsAnError(pool: map<string, State>, t: Table, u: Update, db: Db)
    requires db.readOk && ResumeState !in pool
    requires var name := ReadState(t, u.userID);
      && name != NoState && name in pool
      && var r := pool[name].setter(u, t, db.writeOk); !r.failed && r.next == ResumeState
    ensures UpdateEffect(pool, t, u, db).1
    ensures ReadState(UpdateEffect(pool, t, u, db).0, u.userID) == ReadState(t, u.userID)
  {
    var name := ReadState(t, u.userID);
    var r := pool[name].setter(u, t, db.writeOk);
    ApplyWritesKeepsStates(t, u.userID, r.writes, u.userID);
    TransitionAlwaysTaken(r.next, name);
  }

  /** A setter naming the current state re-enters it: its text is sent again. */
  lemma SameStateResends(pool: map<string, State>, t: Table, u: Update)
    requires var name := ReadState(t, u.userID);
      && name != NoState && name != ResetStateName && name in pool
      && var r := pool[name].setter(u, t, true); !r.failed && r.next == name
    ensures var name := ReadState(t, u.userID);
      var (t', failed, out) := UpdateEffect(pool, t, u, AllOk);
      !failed && ReadState(t', u.userID) == name
      && |out| > 0 && out[|out| - 1] == SendText(pool[name].onTrigger, pool[name].extra)
  {
  }
}
