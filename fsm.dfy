/**
 * The dialogue engine of BotExt (BotExt/FSM.go): a registry of named state
 * templates, wired into chains, that walks each user through
 * validate -> manipulate -> refresh menu -> success notice -> advance or
 * reset, persisting the user's position in the shared store.
 */
module DialogEngine {
  import opened Wrappers
  import opened StateStore
  import opened InlineMenus

  /** What a handler sees of an incoming update. */
  datatype Context = Context(userID: int, text: string, messageID: int)

  /** Returns "" to accept, otherwise the text sent back to the user. */
  type Validator = (Context, Table) -> string

  /** How a manipulator finished: nil, the `ContinueState` sentinel, or another error. */
  datatype Outcome = Done | ContinueState | Failed

  /** The variables a manipulator sets (in order) and how it finished. */
  datatype MutatorResult = MutatorResult(writes: seq<(string, string)>, outcome: Outcome)

  type Manipulator = (Context, Table) -> MutatorResult

  /** `OnTriggerExtra`: absent, a single string naming a menu to show, or send options. */
  datatype TriggerExtra = NoExtra | ShowMenu(menu: string) | SendOptions

  /** The exported fields of a `State`. */
  datatype StateSpec = StateSpec(
    name: string,
    validator: Option<Validator>,
    manipulator: Option<Manipulator>,
    onTrigger: string,
    onTriggerExtra: TriggerExtra,
    onSuccess: Option<string>,
    keepVarsOnQuit: bool)

  /** A registered state: its spec plus the unexported `next` and `menuTrigger`. */
  datatype Entry = Entry(spec: StateSpec, next: string, menuTrigger: string)

  const Apology: string :=
    "Что-то пошло не так... Мы будем разбираться, в чем была проблема. Попробуй повторить это действие позже!"

  /** A state that runs its update straight away when triggered. */
  predicate AutoCompletes(s: StateSpec) { s.validator.None? && s.manipulator.None? }

  /** The variable writes of a manipulator, one `SetStateVar` after another. */
  function ApplyWrites(t: Table, userID: int, writes: seq<(string, string)>): (t': Table)
    ensures t'.Keys == t.Keys
    ensures forall u | u in t :: t'[u].state == t[u].state && t'[u].messageID == t[u].messageID
    ensures forall u | u in t && u != userID :: t'[u] == t[u]
  {
    if |writes| == 0 then t
    else
      var last := writes[|writes| - 1];
      WriteVar(ApplyWrites(t, userID, writes[..|writes| - 1]), userID, last.0, last.1)
  }

  predicate DistinctNames(states: seq<StateSpec>)
  {
    forall i, j | 0 <= i < j < |states| :: states[i].name != states[j].name
  }

  /** The names of the first `k` states of a chain. */
  function ChainNames(states: seq<StateSpec>, k: nat): (names: set<string>)
    requires k <= |states|
    ensures forall j | 0 <= j < k :: states[j].name in names
    ensures forall n | n in names :: exists j | 0 <= j < k :: states[j].name == n
  {
    if k == 0 then {} else ChainNames(states, k - 1) + {states[k - 1].name}
  }

  /** A chain prefix stays duplicate-free when the next name is not among the taken ones. */
  lemma DistinctExtend(states: seq<StateSpec>, i: nat, taken: set<string>)
    requires i < |states| && DistinctNames(states[..i])
    requires forall j | 0 <= j < i :: states[j].name in taken
    requires states[i].name !in taken
    ensures DistinctNames(states[..i + 1])
  {
    forall a, b | 0 <= a < b < i + 1
      ensures states[a].name != states[b].name
    {
      if b < i {
        assert states[..i][a] == states[a] && states[..i][b] == states[b];
      }
    }
  }

  /** The `next` a chain of `k` registered states gives its `j`-th state. */
  function ChainNext(states: seq<StateSpec>, k: nat, j: nat): string
    requires j < k <= |states|
  {
    if j == k - 1 then "" else states[j + 1].name
  }

  /**
   * After registering the first `k` states of a chain over the map `m0`, the
   * map `m` keeps every old entry, adds exactly those `k` names, and holds
   * each of them with its successor as `next` (the last has none yet).
   */
  ghost predicate ChainPrefix(m0: map<string, Entry>, m: map<string, Entry>, states: seq<StateSpec>, k: nat)
  {
    && k <= |states|
    && m.Keys == m0.Keys + ChainNames(states, k)
    && (forall n | n in m0 :: n in m && m[n] == m0[n])
    && (forall j | 0 <= j < k :: states[j].name in m)
    && (forall j {:trigger m[states[j].name]} | 0 <= j < k :: m[states[j].name] == Entry(states[j], ChainNext(states, k, j), ""))
    && DistinctNames(states[..k])
    && (forall j | 0 <= j < k :: states[j].name !in m0)
  }

  /** One iteration of the registration loop: add state `i` and point its predecessor at it. */
  function Linked(m: map<string, Entry>, states: seq<StateSpec>, i: nat): map<string, Entry>
    requires i < |states| && (0 < i ==> states[i - 1].name in m)
  {
    var m1 := m[states[i].name := Entry(states[i], "", "")];
    if i == 0 then m1 else m1[states[i - 1].name := m1[states[i - 1].name].(next := states[i].name)]
  }

  /** The loop step adds exactly the new name. */
  lemma LinkKeys(m: map<string, Entry>, states: seq<StateSpec>, i: nat)
    requires i < |states| && (0 < i ==> states[i - 1].name in m)
    ensures Linked(m, states, i).Keys == m.Keys + {states[i].name}
  {
  }

  /** The loop step leaves every entry other than the new one and its predecessor alone. */
  lemma LinkOthers(m: map<string, Entry>, states: seq<StateSpec>, i: nat, n: string)
    requires i < |states| && (0 < i ==> states[i - 1].name in m)
    requires n in m && n != states[i].name && (0 < i ==> n != states[i - 1].name)
    ensures Linked(m, states, i)[n] == m[n]
  {
  }

  /** The loop step wires state `j` of the prefix to its successor (none for the new last state). */
  lemma LinkEntry(m0: map<string, Entry>, m: map<string, Entry>, states: seq<StateSpec>, i: nat, j: nat)
    requires ChainPrefix(m0, m, states, i) && i < |states| && states[i].name !in m && j < i + 1
    ensures states[j].name in Linked(m, states, i)
    ensures Linked(m, states, i)[states[j].name] == Entry(states[j], ChainNext(states, i + 1, j), "")
  {
    if j < i - 1 {
      assert states[..i][j] == states[j] && states[..i][i - 1] == states[i - 1];
      LinkOthers(m, states, i, states[j].name);
    }
  }

  /** The loop step keeps `ChainPrefix` when the new name is free. */
  lemma LinkStep(m0: map<string, Entry>, m: map<string, Entry>, states: seq<StateSpec>, i: nat)
    requires ChainPrefix(m0, m, states, i) && i < |states| && states[i].name !in m
    ensures ChainPrefix(m0, Linked(m, states, i), states, i + 1)
  {
    var m' := Linked(m, states, i);
    assert DistinctNames(states[..i + 1]) by {
      DistinctExtend(states, i, m.Keys);
    }
    assert m'.Keys == m0.Keys + ChainNames(states, i + 1) by {
      LinkKeys(m, states, i);
    }
    forall j | 0 <= j < i + 1
      ensures states[j].name in m'
    {
      LinkEntry(m0, m, states, i, j);
    }
    forall j {:trigger m'[states[j].name]} | 0 <= j < i + 1
      ensures m'[states[j].name] == Entry(states[j], ChainNext(states, i + 1, j), "")
    {
      LinkEntry(m0, m, states, i, j);
    }
    assert forall n | n in m0 :: n in m' && m'[n] == m0[n] by {
      forall n | n in m0
        ensures n in m' && m'[n] == m0[n]
      {
        LinkOthers(m, states, i, n);
      }
    }
  }

  /**
   * Every registered state has a rank, and its `next` is empty or a
   * registered state of lower rank, so following `next` always ends.
   */
  ghost predicate Wired(m: map<string, Entry>, rank: map<string, nat>)
  {
    forall n | n in m ::
      && n in rank
      && (m[n].next != "" ==> m[n].next in m && m[n].next in rank && rank[m[n].next] < rank[n])
  }

  /** The loop step keeps the chain wiring well-founded: the new state ranks below its predecessor. */
  lemma LinkWired(m0: map<string, Entry>, m: map<string, Entry>, rank: map<string, nat>, states: seq<StateSpec>, i: nat)
    requires Wired(m, rank) && ChainPrefix(m0, m, states, i) && i < |states| && states[i].name !in m
    requires 0 < i ==> states[i - 1].name in rank && rank[states[i - 1].name] == |states| - i + 1
    ensures Wired(Linked(m, states, i), rank[states[i].name := |states| - i])
  {
    var m' := Linked(m, states, i);
    var rank' := rank[states[i].name := |states| - i];
    forall n | n in m'
      ensures n in rank'
      ensures m'[n].next != "" ==> m'[n].next in m' && m'[n].next in rank' && rank'[m'[n].next] < rank'[n]
    {
      if 0 < i && n == states[i - 1].name {
        assert m'[n].next == states[i].name;
      } else if n != states[i].name {
        LinkOthers(m, states, i, n);
      }
    }
  }

  /** A taken name stops the chain only because of a duplicate in the chain or an earlier registration. */
  lemma TakenName(m0: map<string, Entry>, m: map<string, Entry>, states: seq<StateSpec>, i: nat)
    requires ChainPrefix(m0, m, states, i) && i < |states| && states[i].name in m
    ensures !DistinctNames(states) || states[i].name in m0
  {
    if states[i].name !in m0 {
      var j :| 0 <= j < i && states[j].name == states[i].name;
    }
  }

  class Fsm {
    var stateMap: map<string, Entry>
    /** Proof-only: `next` always leads to a state of lower rank, so chains end. */
    ghost var rank: map<string, nat>
    const menus: Registry
    const store: Store

    constructor(ims: Registry)
      ensures stateMap == map[] && rank == map[]
      ensures menus == ims && store == ims.store
    {
      stateMap := map[];
      rank := map[];
      menus := ims;
      store := ims.store;
    }

    ghost predicate ChainValid()
      reads this
    {
      Wired(stateMap, rank)
    }

    ghost predicate Valid()
      reads this, menus, menus.menus.Values
    {
      ChainValid() && store == menus.store && menus.Valid()
    }

    // ---------------------------------------------------- registration

    /**
     * `RegisterStateChain`: registers the states in order, wiring each one's
     * `next` to its successor; stops at the first taken name, keeping what
     * it registered before it (no rollback).
     */
    method RegisterStateChain(states: seq<StateSpec>) returns (ok: bool, ghost registered: nat)
      requires ChainValid()
      modifies this
      ensures ChainValid()
      ensures |states| == 0 ==> !ok && stateMap == old(stateMap)
      ensures ok <==> 0 < |states| && DistinctNames(states)
                      && forall i | 0 <= i < |states| :: states[i].name !in old(stateMap)
      ensures registered <= |states| && (ok ==> registered == |states|)
      ensures ChainPrefix(old(stateMap), stateMap, states, registered)
    {
      if |states| == 0 {
        return false, 0;
      }
      for i := 0 to |states|
        invariant ChainValid()
        invariant ChainPrefix(old(stateMap), stateMap, states, i)
        invariant 0 < i ==> states[i - 1].name in rank && rank[states[i - 1].name] == |states| - i + 1
      {
        var s := states[i];
        if s.name in stateMap {
          TakenName(old(stateMap), stateMap, states, i);
          return false, i;
        }
        ghost var before, rankBefore := stateMap, rank;
        stateMap := stateMap[s.name := Entry(s, "", "")];
        rank := rank[s.name := |states| - i];
        if i != 0 {
          var prevName := states[i - 1].name;
          var prev := stateMap[prevName];
          stateMap := stateMap[prevName := prev.(next := s.name)];
        }
        assert stateMap == Linked(before, states, i);
        LinkWired(old(stateMap), before, rankBefore, states, i);
        LinkStep(old(stateMap), before, states, i);
      }
      assert states[..|states|] == states;
      return true, |states|;
    }

    /** `RegisterOneShotState`: adds one state with no successor unless the name is taken. */
    method RegisterOneShotState(s: StateSpec) returns (ok: bool)
      requires ChainValid()
      modifies this
      ensures ChainValid()
      ensures ok <==> s.name !in old(stateMap)
      ensures !ok ==> stateMap == old(stateMap)
      ensures ok ==> stateMap == old(stateMap)[s.name := Entry(s, "", "")]
    {
      if s.name in stateMap {
        return false;
      }
      stateMap := stateMap[s.name := Entry(s, "", "")];
      rank := rank[s.name := 0];
      return true;
    }

    // ---------------------------------------------------- store effects

    /** The writes of `State.Trigger` itself: the state, and the message id put back after a menu. */
    ghost function TriggerWrites(t: Table, userID: int, name: string): Table
      requires name in stateMap
      reads this
    {
      var t1 := WriteState(t, userID, name);
      if stateMap[name].spec.onTriggerExtra.ShowMenu? then WriteMessageID(t1, userID, ReadMessageID(t1, userID).0) else t1
    }

    /** Store effect of triggering `name` (when nothing crashes). */
    ghost function TriggerEffect(t: Table, userID: int, name: string): Table
      requires ChainValid() && name in stateMap
      reads this
      decreases rank[name], 1
    {
      var t2 := TriggerWrites(t, userID, name);
      if AutoCompletes(stateMap[name].spec) then AdvanceEffect(t2, userID, name) else t2
    }

    /** Store effect of finishing `name` successfully: reset, or trigger the successor. */
    ghost function AdvanceEffect(t: Table, userID: int, name: string): Table
      requires ChainValid() && name in stateMap
      reads this
      decreases rank[name], 0
    {
      var e := stateMap[name];
      if e.next == "" then Reset(t, userID, e.spec.keepVarsOnQuit) else TriggerEffect(t, userID, e.next)
    }

    /** Store effect of one update of `name` for the context (when nothing crashes). */
    ghost function UpdateEffect(t: Table, ctx: Context, name: string): Table
      requires ChainValid() && name in stateMap
      reads this
    {
      var e := stateMap[name];
      if e.spec.validator.Some? && e.spec.validator.value(ctx, t) != "" then t
      else
        var r := if e.spec.manipulator.Some? then e.spec.manipulator.value(ctx, t) else MutatorResult([], Done);
        var t1 := ApplyWrites(t, ctx.userID, r.writes);
        match r.outcome
        case ContinueState => t1
        case Failed => Reset(t1, ctx.userID, e.spec.keepVarsOnQuit)
        case Done => AdvanceEffect(t1, ctx.userID, name)
    }

    /** Users other than `userID` keep their rows, and no row appears or vanishes for them. */
    static ghost predicate OthersUntouched(t: Table, t': Table, userID: int)
    {
      forall u | u != userID :: (u in t' <==> u in t) && (u in t ==> t'[u] == t[u])
    }

    /** The user is idle, or parked in a registered state that waits for their input. */
    ghost predicate AtRest(t: Table, userID: int)
      reads this
    {
      var s := ReadState(t, userID);
      s == NoState || (s in stateMap && !AutoCompletes(stateMap[s].spec))
    }

    /** Triggering a state only ever touches the triggering user's row. */
    lemma {:induction false} TriggerEffectIsolated(t: Table, userID: int, name: string)
      requires ChainValid() && name in stateMap
      ensures OthersUntouched(t, TriggerEffect(t, userID, name), userID)
      decreases rank[name], 1
    {
      var e := stateMap[name];
      var t1 := WriteState(t, userID, name);
      var t2 := if e.spec.onTriggerExtra.ShowMenu? then WriteMessageID(t1, userID, ReadMessageID(t1, userID).0) else t1;
      if AutoCompletes(e.spec) {
        AdvanceEffectIsolated(t2, userID, name);
      }
    }

    /** Finishing a state (reset or successor) only touches the user's row. */
    lemma {:induction false} AdvanceEffectIsolated(t: Table, userID: int, name: string)
      requires ChainValid() && name in stateMap
      ensures OthersUntouched(t, AdvanceEffect(t, userID, name), userID)
      decreases rank[name], 0
    {
      var e := stateMap[name];
      if e.next != "" {
        TriggerEffectIsolated(t, userID, e.next);
      }
    }

    /** An update for one user never changes another user's state, variables or message id. */
    lemma UpdateEffectIsolated(t: Table, ctx: Context, name: string)
      requires ChainValid() && name in stateMap
      ensures OthersUntouched(t, UpdateEffect(t, ctx, name), ctx.userID)
    {
      var e := stateMap[name];
      if !(e.spec.validator.Some? && e.spec.validator.value(ctx, t) != "") {
        var r := if e.spec.manipulator.Some? then e.spec.manipulator.value(ctx, t) else MutatorResult([], Done);
        var t1 := ApplyWrites(t, ctx.userID, r.writes);
        if r.outcome == Done {
          AdvanceEffectIsolated(t1, ctx.userID, name);
        }
      }
    }

    /**
     * Triggering runs through every check-free state of the chain, so the
     * user ends idle or in a state that waits for input.
     */
    lemma {:induction false} TriggerEffectAtRest(t: Table, userID: int, name: string)
      requires ChainValid() && name in stateMap
      ensures AtRest(TriggerEffect(t, userID, name), userID)
      decreases rank[name], 1
    {
      var e := stateMap[name];
      var t1 := WriteState(t, userID, name);
      ReadAfterWriteState(t, userID, name, userID);
      var t2 := if e.spec.onTriggerExtra.ShowMenu? then WriteMessageID(t1, userID, ReadMessageID(t1, userID).0) else t1;
      MessageIDIndependent(t1, userID, ReadMessageID(t1, userID).0, "");
      if AutoCompletes(e.spec) {
        AdvanceEffectAtRest(t2, userID, name);
      } else {
        assert ReadState(t2, userID) == name;
      }
    }

    /** After a state finishes, the user is idle or waiting in a later state of the chain. */
    lemma {:induction false} AdvanceEffectAtRest(t: Table, userID: int, name: string)
      requires ChainValid() && name in stateMap
      ensures AtRest(AdvanceEffect(t, userID, name), userID)
      ensures stateMap[name].next == "" ==> ReadState(AdvanceEffect(t, userID, name), userID) == NoState
      decreases rank[name], 0
    {
      var e := stateMap[name];
      if e.next == "" {
        ResetLeavesNoState(t, userID, e.spec.keepVarsOnQuit);
      } else {
        TriggerEffectAtRest(t, userID, e.next);
      }
    }

    /**
     * Being at rest is preserved by an update of the user's current state:
     * a rejected or continued input stays put, a failure resets, success advances.
     */
    lemma UpdateEffectAtRest(t: Table, ctx: Context, name: string)
      requires ChainValid() && name in stateMap
      requires ReadState(t, ctx.userID) == name && AtRest(t, ctx.userID)
      ensures AtRest(UpdateEffect(t, ctx, name), ctx.userID)
      ensures var e := stateMap[name].spec;
        e.validator.Some? && e.validator.value(ctx, t) != "" ==> UpdateEffect(t, ctx, name) == t
    {
      var e := stateMap[name];
      if !(e.spec.validator.Some? && e.spec.validator.value(ctx, t) != "") {
        var r := if e.spec.manipulator.Some? then e.spec.manipulator.value(ctx, t) else MutatorResult([], Done);
        var t1 := ApplyWrites(t, ctx.userID, r.writes);
        match r.outcome {
          case ContinueState =>
          case Failed => ResetLeavesNoState(t1, ctx.userID, e.spec.keepVarsOnQuit);
          case Done => AdvanceEffectAtRest(t1, ctx.userID, name);
        }
      }
    }

    /**
     * What a state sends once its input is accepted, in order: the edit of
     * the menu it was opened from (when it has one and the store holds a
     * message id), its success notice, then the successor's prompt, if any.
     */
    ghost predicate SuccessOutputs(menuMessage: (int, bool), name: string, outs: seq<Output>)
      requires ChainValid() && name in stateMap
      reads this
    {
      var e := stateMap[name];
      var refresh := if e.menuTrigger != "" && menuMessage.1 then 1 else 0;
      var notice := if e.spec.onSuccess.Some? then [SendText(e.spec.onSuccess.value)] else [];
      && refresh + |notice| <= |outs|
      && (refresh == 1 ==> outs[0].EditMenu? && outs[0].messageID == menuMessage.0)
      && outs[refresh..refresh + |notice|] == notice
      && (e.next == "" ==> |outs| == refresh + |notice|)
      && (e.next != "" ==> refresh + |notice| < |outs| && outs[refresh + |notice|] == SendText(stateMap[e.next].spec.onTrigger))
    }

    /**
     * What showing the trigger menu of `name` sends: nothing unless the
     * state names a menu, otherwise what the registry's `Show` sends for it.
     */
    function ShownOnTrigger(name: string, fetch: string -> MenuFetch): seq<Output>
      requires Valid() && name in stateMap
      reads this, menus, menus.menus.Values
    {
      var extra := stateMap[name].spec.onTriggerExtra;
      if extra.ShowMenu? then menus.ShowOutputs(extra.menu, fetch(extra.menu)) else []
    }

    /**
     * What `State.Trigger` sends, in order: the prompt, then `shown` (what
     * showing its menu sends), then, for a check-free state that does not
     * crash, what its accepted update sends; `menuMessage` is the message
     * id read once the state is stored.
     */
    ghost predicate TriggerOutputs(shown: seq<Output>, menuMessage: (int, bool), name: string, crashed: bool, outs: seq<Output>)
      requires ChainValid() && name in stateMap
      reads this
    {
      var e := stateMap[name].spec;
      var head := [SendText(e.onTrigger)] + shown;
      && |head| <= |outs| && outs[..|head|] == head
      && (!AutoCompletes(e) ==> outs == head && !crashed)
      && (AutoCompletes(e) && !crashed ==> SuccessOutputs(menuMessage, name, outs[|head|..]))
    }

    // ---------------------------------------------------- running states

    /** `FSM.Trigger`: unknown names are ignored; `byMenu` is remembered on the shared template. */
    method Trigger(ctx: Context, name: string, byMenu: Option<string>, fetch: string -> MenuFetch)
      returns (outs: seq<Output>, crashed: bool)
      requires Valid()
      modifies this, store, menus.menus.Values
      ensures Valid()
      ensures rank == old(rank)
      ensures name !in old(stateMap) ==>
        outs == [] && !crashed && stateMap == old(stateMap) && store.rows == old(store.rows)
      ensures name in old(stateMap) && byMenu.Some? ==>
        stateMap == old(stateMap)[name := old(stateMap)[name].(menuTrigger := byMenu.value)]
      ensures byMenu.None? ==> stateMap == old(stateMap)
      ensures name in old(stateMap) && !crashed ==> store.rows == TriggerEffect(old(store.rows), ctx.userID, name)
      ensures name in old(stateMap) ==> 0 < |outs| && outs[0] == SendText(old(stateMap)[name].spec.onTrigger)
      ensures name in old(stateMap) ==>
        TriggerOutputs(old(ShownOnTrigger(name, fetch)), ReadMessageID(TriggerWrites(old(store.rows), ctx.userID, name), ctx.userID),
                       name, crashed, outs)
      decreases if name in rank then rank[name] else 0, 3
    {
      if name !in stateMap {
        return [], false;
      }
      if byMenu.Some? {
        stateMap := stateMap[name := stateMap[name].(menuTrigger := byMenu.value)];
      }
      outs, crashed := StateTrigger(ctx, name, fetch);
    }

    /** `State.Trigger`: store the state, send its prompt (and menu), auto-run a check-free state. */
    method StateTrigger(ctx: Context, name: string, fetch: string -> MenuFetch)
      returns (outs: seq<Output>, crashed: bool)
      requires Valid() && name in stateMap
      modifies store, menus.menus.Values
      ensures Valid()
      ensures !crashed ==> store.rows == TriggerEffect(old(store.rows), ctx.userID, name)
      ensures 0 < |outs| && outs[0] == SendText(stateMap[name].spec.onTrigger)
      ensures TriggerOutputs(old(ShownOnTrigger(name, fetch)), ReadMessageID(TriggerWrites(old(store.rows), ctx.userID, name), ctx.userID),
                             name, crashed, outs)
      decreases rank[name], 2
    {
      var e := stateMap[name];
      var userID := ctx.userID;
      store.SetState(userID, name);
      outs := [SendText(e.spec.onTrigger)];
      if e.spec.onTriggerExtra.ShowMenu? {
        var shown := ShowKeepingMessageID(userID, ctx.messageID, e.spec.onTriggerExtra.menu, fetch);
        outs := outs + shown;
      }
      crashed := false;
      if AutoCompletes(e.spec) {
        var more;
        more, crashed := StateUpdate(ctx, name, fetch);
        outs := outs + more;
      }
    }

    /**
     * The menu branch of `State.Trigger`: show the menu, then put back the
     * message id the user had before, so a later refresh edits the menu the
     * state was opened from.
     */
    method ShowKeepingMessageID(userID: int, messageID: int, menu: string, fetch: string -> MenuFetch)
      returns (outs: seq<Output>)
      requires Valid()
      modifies store, if menu in menus.menus then {menus.menus[menu]} else {}
      ensures Valid()
      ensures store.rows == WriteMessageID(old(store.rows), userID, ReadMessageID(old(store.rows), userID).0)
      ensures outs == old(menus.ShowOutputs(menu, fetch(menu)))
    {
      var oldMsgID, _ := store.GetMessageID(userID);
      ghost var t1 := store.rows;
      var _, shown := menus.Show(userID, messageID, menu, fetch(menu));
      outs := shown;
      store.SetMessageID(userID, oldMsgID);
      WriteMessageIDTwice(t1, userID, messageID + 1, oldMsgID);
    }

    /** `FSM.Update`: run the user's current state; a stored name with no template dereferences nil. */
    method Update(ctx: Context, fetch: string -> MenuFetch) returns (outs: seq<Output>, crashed: bool)
      requires Valid()
      modifies store, menus.menus.Values
      ensures Valid()
      ensures ReadState(old(store.rows), ctx.userID) == NoState ==> outs == [] && !crashed && store.rows == old(store.rows)
      ensures ReadState(old(store.rows), ctx.userID) != NoState && ReadState(old(store.rows), ctx.userID) !in stateMap
        ==> crashed && outs == []
      ensures (ReadState(old(store.rows), ctx.userID) != NoState && ReadState(old(store.rows), ctx.userID) in stateMap
               && !crashed) ==> store.rows == UpdateEffect(old(store.rows), ctx, ReadState(old(store.rows), ctx.userID))
    {
      var name := store.GetState(ctx.userID);
      if name == NoState {
        return [], false;
      }
      if name !in stateMap {
        return [], true;
      }
      outs, crashed := StateUpdate(ctx, name, fetch);
    }

    /** `State.Update`: validate, manipulate, refresh the menu, congratulate, advance or reset. */
    method StateUpdate(ctx: Context, name: string, fetch: string -> MenuFetch)
      returns (outs: seq<Output>, crashed: bool)
      requires Valid() && name in stateMap
      modifies store, menus.menus.Values
      ensures Valid()
      ensures !crashed ==> store.rows == UpdateEffect(old(store.rows), ctx, name)
      ensures var v := stateMap[name].spec.validator;
        v.Some? && v.value(ctx, old(store.rows)) != "" ==>
          outs == [SendText(v.value(ctx, old(store.rows)))] && !crashed
      ensures var e := stateMap[name].spec;
        (e.validator.None? || e.validator.value(ctx, old(store.rows)) == "") && e.manipulator.Some? ==>
          var r := e.manipulator.value(ctx, old(store.rows));
          && (r.outcome == ContinueState ==> outs == [] && !crashed)
          && (r.outcome == Failed ==> outs == [SendText(Apology)] && !crashed)
      ensures var e := stateMap[name].spec;
        && (e.validator.None? || e.validator.value(ctx, old(store.rows)) == "")
        && (e.manipulator.None? || e.manipulator.value(ctx, old(store.rows)).outcome == Done)
        && !crashed
        ==> SuccessOutputs(ReadMessageID(old(store.rows), ctx.userID), name, outs)
      decreases rank[name], 1
    {
      var e := stateMap[name];
      var userID := ctx.userID;
      if e.spec.validator.Some? {
        var errString := e.spec.validator.value(ctx, store.rows);
        if errString != "" {
          return [SendText(errString)], false;
        }
      }
      if e.spec.manipulator.Some? {
        var r := e.spec.manipulator.value(ctx, store.rows);
        SetVars(userID, r.writes);
        assert ReadMessageID(store.rows, userID) == ReadMessageID(old(store.rows), userID);
        if r.outcome == ContinueState {
          return [], false;
        }
        if r.outcome == Failed {
          store.ResetState(userID, e.spec.keepVarsOnQuit);
          return [SendText(Apology)], false;
        }
      }
      outs, crashed := Advance(ctx, name, fetch);
    }

    /** The `SetStateVar` calls a manipulator makes, in order. */
    method SetVars(userID: int, writes: seq<(string, string)>)
      modifies store
      ensures store.rows == ApplyWrites(old(store.rows), userID, writes)
    {
      for k := 0 to |writes|
        invariant store.rows == ApplyWrites(old(store.rows), userID, writes[..k])
      {
        store.SetStateVar(userID, writes[k].0, writes[k].1);
        assert writes[..k + 1][..k] == writes[..k];
      }
      assert writes[..|writes|] == writes;
    }

    /**
     * The tail of `State.Update` once the input is accepted: refresh the
     * menu the state was opened from, send the success notice, then reset or
     * trigger the successor.
     */
    method Advance(ctx: Context, name: string, fetch: string -> MenuFetch)
      returns (outs: seq<Output>, crashed: bool)
      requires Valid() && name in stateMap
      modifies store, menus.menus.Values
      ensures Valid()
      ensures !crashed ==> store.rows == AdvanceEffect(old(store.rows), ctx.userID, name)
      ensures !crashed ==> SuccessOutputs(ReadMessageID(old(store.rows), ctx.userID), name, outs)
      decreases rank[name], 0
    {
      var e := stateMap[name];
      var userID := ctx.userID;
      outs, crashed := RefreshMenu(userID, e.menuTrigger, fetch);
      if crashed {
        return;
      }
      if e.spec.onSuccess.Some? {
        outs := outs + [SendText(e.spec.onSuccess.value)];
      }
      if e.next == "" {
        store.ResetState(userID, e.spec.keepVarsOnQuit);
      } else {
        // `fsm.Trigger(c, next)`: `next` is always registered and no menu is passed
        var more;
        more, crashed := StateTrigger(ctx, e.next, fetch);
        outs := outs + more;
      }
    }

    /**
     * Re-renders the menu a state was opened from in the message whose id the
     * store holds; nothing when there is no menu or no id, a crash when the
     * menu name is unknown (`GetInlineMenu` gives nil and `Update` dereferences it).
     */
    method RefreshMenu(userID: int, menuTrigger: string, fetch: string -> MenuFetch)
      returns (outs: seq<Output>, crashed: bool)
      requires Valid()
      modifies if menuTrigger in menus.menus then {menus.menus[menuTrigger]} else {}
      ensures Valid()
      ensures menuTrigger == "" || !ReadMessageID(store.rows, userID).1 ==> outs == [] && !crashed
      ensures crashed <==> menuTrigger != "" && ReadMessageID(store.rows, userID).1 && menuTrigger !in menus.menus
      ensures !crashed && menuTrigger != "" && ReadMessageID(store.rows, userID).1 ==> |outs| == 1
      ensures !crashed && menuTrigger != "" && ReadMessageID(store.rows, userID).1 ==>
        var menu := menus.menus[menuTrigger];
        && menu.carcass == old(menu.BakedCarcass(fetch(menuTrigger)))
        && outs == [EditMenu(ReadMessageID(store.rows, userID).0, menu.header,
                             if old(menu.BakesToNil(fetch(menuTrigger))) then None else Some(menu.carcass))]
    {
      outs, crashed := [], false;
      if menuTrigger != "" {
        var msgID, ok := store.GetMessageID(userID);
        if ok {
          if menuTrigger !in menus.menus {
            return [], true;
          }
          var menu := menus.menus[menuTrigger];
          var out, _ := menu.Update(msgID, fetch(menuTrigger), Edited);
          outs := [out];
        }
      }
    }
  }
}
