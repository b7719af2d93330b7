/**
 * The keyboard helpers of helpers.go, the older generation of the BotExt
 * menu builders: the reply keyboard built from captions, and the inline menu
 * whose buttons carry static or computed captions and either trigger a
 * dialog state or call a handler. Rows are packed without the row-break
 * sentinel of BotExt.
 *
 * Telegram calls are outputs: the menu a handler sends or edits is
 * returned. A `tele.Context` is reduced to the user it comes from.
 */
module LegacyMenus {
  import opened Wrappers
  import opened Text
  import opened StateStore
  import opened RowLayout
  import ReplyMenu
  import opened LegacyFsm

  /** Every item is a button: the older helpers know no row-break sentinel. */
  predicate NoSplitter<T>(item: T)
  {
    false
  }

  /** One pass of a packing loop over an item that is never a row break. */
  lemma PackStep<T>(items: seq<T>, width: nat, i: nat)
    requires width > 0 && i < |items|
    ensures var p := PackPrefix(items, NoSplitter, width, i);
      var q := PackPrefix(items, NoSplitter, width, i + 1);
      && q.rows == (if i % width == 0 && |p.row| != 0 then p.rows + [p.row] else p.rows)
      && q.row == (if i % width == 0 then [] else p.row) + [items[i]]
  {
  }

  /** The end of a packing loop: the open row is closed if non-empty. */
  lemma PackEnd<T>(items: seq<T>, width: nat)
    requires width > 0
    ensures var p := PackPrefix(items, NoSplitter, width, |items|);
      (if |p.row| != 0 then p.rows + [p.row] else p.rows) == Chunks(items, width)
  {
    assert items[..|items|] == items;
    LayoutWithoutSplitters(items, NoSplitter, width);
  }

  // ---------------------------------------------------- the reply keyboard

  /**
   * The placement loop of `ReplyMenuConstructor` and `Construct`: a new row
   * at every multiple of `width`, appended to the rows already there, and
   * the open row closed at the end if non-empty.
   */
  method PackRows<T>(items: seq<T>, width: nat) returns (rows: seq<seq<T>>)
    requires width > 0
    ensures rows == Chunks(items, width)
  {
    var row: seq<T> := [];
    rows := [];
    for i := 0 to |items|
      invariant rows == PackPrefix(items, NoSplitter, width, i).rows
      invariant row == PackPrefix(items, NoSplitter, width, i).row
    {
      PackStep(items, width, i);
      if i % width == 0 {
        if |row| != 0 {
          rows := rows + [row];
        }
        row := [];
      }
      row := row + [items[i]];
    }
    PackEnd(items, width);
    if |row| != 0 {
      rows := rows + [row];
    }
  }

  /**
   * `ReplyMenuConstructor`: the keyboard starts with `rowCount` empty rows
   * (the slice is made with that length and then appended to), followed by
   * the captions in chunks of `maxElementsInRow`.
   */
  method ReplyMenuConstructor(selections: seq<string>, maxElementsInRow: nat, once: bool) returns (menu: ReplyMenu.ReplyMarkup)
    requires maxElementsInRow > 0
    ensures menu.resizeKeyboard
    ensures menu.oneTimeKeyboard == once && menu.removeKeyboard == once
    ensures menu.keyboard
         == ReplyMenu.EmptyRows(ReplyMenu.RowCount(|selections|, maxElementsInRow)) + Chunks(selections, maxElementsInRow)
  {
    var rowCount := ReplyMenu.RowCount(|selections|, maxElementsInRow);
    var rows := PackRows(selections, maxElementsInRow);
    menu := ReplyMenu.ReplyMarkup(true, once, once, ReplyMenu.EmptyRows(rowCount) + rows);
  }

  /**
   * For captions without the sentinel the older constructor builds the same
   * keyboard as BotExt's; the sentinel itself it shows as a button.
   */
  lemma ReplyMenuAgreesWithBotExt(selections: seq<string>, maxElementsInRow: nat)
    requires maxElementsInRow > 0
    requires forall j | 0 <= j < |selections| :: selections[j] != RowSplitterButton
    ensures Chunks(selections, maxElementsInRow) == Layout(selections, IsSplitterText, maxElementsInRow)
  {
    LayoutWithoutSplitters(selections, IsSplitterText, maxElementsInRow);
  }

  // ---------------------------------------------------- inline buttons

  /** `InlineMenuTextSetter`: the caption from the user and the fetched data, or an error. */
  type TextSetter = (int, map<string, string>) -> Result<string>

  /** `DataFetcher`: the data map for the user and whether fetching reported an error. */
  type DataFetcher = int -> (map<string, string>, bool)

  /** `textOnCreation`: a string, a text setter, or a value of any other type. */
  datatype ButtonText = Static(text: string) | Dynamic(setter: TextSetter) | Untyped

  /** `onClick`: a state name, a handler (named by its identity), or a value of any other type. */
  datatype OnClick = GoToState(state: string) | CallHandler(handler: string) | NoAction

  datatype ButtonTemplate = ButtonTemplate(unique: string, text: ButtonText, onClick: OnClick)

  /** The form feed telebot puts before a button's name in its callback data. */
  const CallbackPrefix: string := [12 as char]

  /** A `tele.Btn` made by `Data(text, unique, data)`. */
  datatype Btn = Btn(text: string, unique: string, data: string)

  /** The caption a button gets on construction: its string, or `.` (an empty caption is refused). */
  function StaticCaption(text: ButtonText): string
  {
    if text.Static? then text.text else "."
  }

  /** `manageButton`: the baked button, answering to the callback of its name. */
  function BakedButton(b: ButtonTemplate): Btn
  {
    Btn(StaticCaption(b.text), b.unique, CallbackPrefix + b.unique)
  }

  function ButtonsOf(ts: seq<ButtonTemplate>): (btns: seq<Btn>)
    ensures |btns| == |ts|
  {
    seq(|ts|, k requires 0 <= k < |ts| => BakedButton(ts[k]))
  }

  /** The `textSetters` map `AddButtons` builds: the setter of every dynamic button, the last one winning. */
  function SettersOf(ts: seq<ButtonTemplate>): map<string, TextSetter>
  {
    if |ts| == 0 then map[]
    else
      var rest := SettersOf(ts[..|ts| - 1]);
      var b := ts[|ts| - 1];
      if b.text.Dynamic? then rest[b.unique := b.text.setter] else rest
  }

  /** A name has a setter exactly when some dynamic button carries it. */
  lemma {:induction false} SettersOfKeys(ts: seq<ButtonTemplate>, name: string)
    ensures name in SettersOf(ts) <==> exists j | 0 <= j < |ts| :: ts[j].unique == name && ts[j].text.Dynamic?
  {
    if |ts| > 0 {
      var init := ts[..|ts| - 1];
      SettersOfKeys(init, name);
      if exists j | 0 <= j < |init| :: init[j].unique == name && init[j].text.Dynamic? {
        var j :| 0 <= j < |init| && init[j].unique == name && init[j].text.Dynamic?;
        assert ts[j] == init[j];
      }
      if exists j | 0 <= j < |ts| :: ts[j].unique == name && ts[j].text.Dynamic? {
        var j :| 0 <= j < |ts| && ts[j].unique == name && ts[j].text.Dynamic?;
        if j < |ts| - 1 {
          assert init[j] == ts[j];
        }
      }
    }
  }

  /** With distinct names, every dynamic button's name maps to its own setter. */
  lemma {:induction false} SettersOfValue(ts: seq<ButtonTemplate>, j: nat)
    requires j < |ts| && ts[j].text.Dynamic?
    requires forall a, b | 0 <= a < b < |ts| :: ts[a].unique != ts[b].unique
    ensures ts[j].unique in SettersOf(ts) && SettersOf(ts)[ts[j].unique] == ts[j].text.setter
  {
    if j < |ts| - 1 {
      var init := ts[..|ts| - 1];
      SettersOfValue(init, j);
      assert ts[|ts| - 1].unique != ts[j].unique;
    }
  }

  /** The handlers `Construct` registers, by callback endpoint; a later button with the same name wins. */
  function RoutesOf(ts: seq<ButtonTemplate>): map<string, OnClick>
  {
    if |ts| == 0 then map[]
    else
      var rest := RoutesOf(ts[..|ts| - 1]);
      var b := ts[|ts| - 1];
      if b.onClick.NoAction? then rest else rest[CallbackPrefix + b.unique := b.onClick]
  }

  /** One pass of the registration loop. */
  lemma RoutesStep(ts: seq<ButtonTemplate>, i: nat)
    requires i < |ts|
    ensures RoutesOf(ts[..i + 1]) ==
      if ts[i].onClick.NoAction? then RoutesOf(ts[..i]) else RoutesOf(ts[..i])[CallbackPrefix + ts[i].unique := ts[i].onClick]
  {
    assert ts[..i + 1][..i] == ts[..i];
  }

  /** Only buttons with a state name or a handler get an endpoint. */
  lemma {:induction false} RoutesOfKeys(ts: seq<ButtonTemplate>, endpoint: string)
    ensures endpoint in RoutesOf(ts) <==> exists j | 0 <= j < |ts| :: CallbackPrefix + ts[j].unique == endpoint && !ts[j].onClick.NoAction?
  {
    if |ts| > 0 {
      var init := ts[..|ts| - 1];
      RoutesOfKeys(init, endpoint);
      if exists j | 0 <= j < |init| :: CallbackPrefix + init[j].unique == endpoint && !init[j].onClick.NoAction? {
        var j :| 0 <= j < |init| && CallbackPrefix + init[j].unique == endpoint && !init[j].onClick.NoAction?;
        assert ts[j] == init[j];
      }
      if exists j | 0 <= j < |ts| :: CallbackPrefix + ts[j].unique == endpoint && !ts[j].onClick.NoAction? {
        var j :| 0 <= j < |ts| && CallbackPrefix + ts[j].unique == endpoint && !ts[j].onClick.NoAction?;
        if j < |ts| - 1 {
          assert init[j] == ts[j];
        }
      }
    }
  }

  // ---------------------------------------------------- baking

  /** One button of `bake`: a name with a setter gets the setter's caption, unless the setter fails. */
  function BakeButton(b: Btn, setters: map<string, TextSetter>, userID: int, data: map<string, string>): Btn
  {
    if b.unique in setters then
      match setters[b.unique](userID, data)
      case Ok(content) => b.(text := content)
      case Err(_) => b
    else b
  }

  function BakedRow(row: seq<Btn>, setters: map<string, TextSetter>, userID: int, data: map<string, string>): (r: seq<Btn>)
    ensures |r| == |row|
  {
    seq(|row|, j requires 0 <= j < |row| => BakeButton(row[j], setters, userID, data))
  }

  function BakedRows(rows: seq<seq<Btn>>, setters: map<string, TextSetter>, userID: int, data: map<string, string>): (r: seq<seq<Btn>>)
    ensures |r| == |rows|
  {
    seq(|rows|, i requires 0 <= i < |rows| => BakedRow(rows[i], setters, userID, data))
  }

  /**
   * Baking keeps the keyboard's shape and every button's name and
   * callback; a caption changes only to what the button's setter answered.
   */
  lemma BakeOnlyRewritesCaptions(rows: seq<seq<Btn>>, setters: map<string, TextSetter>, userID: int, data: map<string, string>,
                                 i: nat, j: nat)
    requires i < |rows| && j < |rows[i]|
    ensures var b := BakedRows(rows, setters, userID, data)[i][j];
      && |BakedRows(rows, setters, userID, data)[i]| == |rows[i]|
      && b.unique == rows[i][j].unique && b.data == rows[i][j].data
      && (b.text != rows[i][j].text ==>
            b.unique in setters && setters[b.unique](userID, data) == Ok(b.text))
      && (rows[i][j].unique !in setters ==> b == rows[i][j])
  {
  }

  /** Baking row by row is baking the buttons in reading order. */
  lemma {:induction false} FlattenBaked(rows: seq<seq<Btn>>, setters: map<string, TextSetter>, userID: int, data: map<string, string>)
    ensures Flatten(BakedRows(rows, setters, userID, data)) == BakedRow(Flatten(rows), setters, userID, data)
    decreases |rows|
  {
    if |rows| > 0 {
      var n := |rows|;
      var baked := BakedRows(rows, setters, userID, data);
      assert baked[..n - 1] == BakedRows(rows[..n - 1], setters, userID, data);
      FlattenBaked(rows[..n - 1], setters, userID, data);
      var a, b := Flatten(rows[..n - 1]), rows[n - 1];
      assert BakedRow(a + b, setters, userID, data) == BakedRow(a, setters, userID, data) + BakedRow(b, setters, userID, data);
    }
  }

  /** The caption a template shows once baked for a user: its string, its setter's answer, or `.`. */
  function ShownCaption(b: ButtonTemplate, userID: int, data: map<string, string>): string
  {
    match b.text
    case Static(s) => s
    case Dynamic(f) => (match f(userID, data) case Ok(content) => content case Err(_) => ".")
    case Untyped => "."
  }

  /**
   * With distinct names, a constructed and baked menu shows, in reading
   * order, every static caption as given, every computed caption the setter
   * answered, and `.` where a setter failed.
   */
  lemma ConstructedMenuShows(ts: seq<ButtonTemplate>, width: nat, userID: int, data: map<string, string>)
    requires width > 0
    requires forall a, b | 0 <= a < b < |ts| :: ts[a].unique != ts[b].unique
    ensures var shown := Flatten(BakedRows(Chunks(ButtonsOf(ts), width), SettersOf(ts), userID, data));
      |shown| == |ts| && forall k | 0 <= k < |ts| :: shown[k].text == ShownCaption(ts[k], userID, data)
  {
    var buttons := ButtonsOf(ts);
    FlattenBaked(Chunks(buttons, width), SettersOf(ts), userID, data);
    var shown := BakedRow(buttons, SettersOf(ts), userID, data);
    forall k | 0 <= k < |ts|
      ensures shown[k].text == ShownCaption(ts[k], userID, data)
    {
      ShownAt(ts, k, userID, data);
    }
  }

  /** The caption one button shows once baked. */
  lemma ShownAt(ts: seq<ButtonTemplate>, k: nat, userID: int, data: map<string, string>)
    requires k < |ts|
    requires forall a, b | 0 <= a < b < |ts| :: ts[a].unique != ts[b].unique
    ensures BakeButton(BakedButton(ts[k]), SettersOf(ts), userID, data).text == ShownCaption(ts[k], userID, data)
  {
    if ts[k].text.Dynamic? {
      SettersOfValue(ts, k);
    } else {
      SettersOfKeys(ts, ts[k].unique);
      forall j | 0 <= j < |ts| && ts[j].unique == ts[k].unique
        ensures j == k
      {
      }
      assert ts[k].unique !in SettersOf(ts);
    }
  }

  /** What a menu hands to Telegram: a new message, or an edit of the stored one. */
  datatype MenuMessage =
    | SendMenu(header: string, keyboard: seq<seq<Btn>>)
    | EditMenu(messageID: string, header: string, keyboard: seq<seq<Btn>>)

  const MessageIDVar: string := "messageID"

  class InlineMenu {
    var header: string
    /** `None` is a nil fetcher. */
    var fetcher: Option<DataFetcher>
    var textSetters: map<string, TextSetter>
    var btnTemplates: seq<ButtonTemplate>
    /** The inline keyboard of `menuCarcass`. */
    var keyboard: seq<seq<Btn>>

    /** `NewInlineMenu`. */
    constructor (menuHeader: string, dataFetcher: Option<DataFetcher>)
      ensures header == menuHeader && fetcher == dataFetcher
      ensures textSetters == map[] && btnTemplates == [] && keyboard == []
    {
      header := menuHeader;
      fetcher := dataFetcher;
      textSetters := map[];
      btnTemplates := [];
      keyboard := [];
    }

    /** `AddButtons`: the templates are replaced and the setters rebuilt from them. */
    method AddButtons(buttons: seq<ButtonTemplate>)
      modifies this
      ensures btnTemplates == buttons && textSetters == SettersOf(buttons)
      ensures header == old(header) && fetcher == old(fetcher) && keyboard == old(keyboard)
    {
      btnTemplates := buttons;
      var setters: map<string, TextSetter> := map[];
      for i := 0 to |buttons|
        invariant setters == SettersOf(buttons[..i])
      {
        assert buttons[..i + 1][..i] == buttons[..i];
        if buttons[i].text.Dynamic? {
          setters := setters[buttons[i].unique := buttons[i].text.setter];
        }
      }
      assert buttons[..|buttons|] == buttons;
      textSetters := setters;
    }

    /**
     * `Construct`: every template baked into a button, in chunks of
     * `maxElementsInRow`; the handlers registered on the bot are returned.
     */
    method Construct(maxElementsInRow: nat) returns (routes: map<string, OnClick>)
      requires maxElementsInRow > 0
      modifies this
      ensures keyboard == Chunks(ButtonsOf(btnTemplates), maxElementsInRow)
      ensures routes == RoutesOf(btnTemplates)
      ensures header == old(header) && fetcher == old(fetcher)
      ensures textSetters == old(textSetters) && btnTemplates == old(btnTemplates)
    {
      var ts := btnTemplates;
      routes := map[];
      for i := 0 to |ts|
        invariant routes == RoutesOf(ts[..i])
        invariant unchanged(this)
      {
        RoutesStep(ts, i);
        if !ts[i].onClick.NoAction? {
          routes := routes[CallbackPrefix + ts[i].unique := ts[i].onClick];
        }
      }
      assert ts[..|ts|] == ts;
      keyboard := PackRows(ButtonsOf(ts), maxElementsInRow);
    }

    /** The loop of `bake`: each button with a setter gets its caption, unless the setter fails. */
    method ApplySetters(userID: int, data: map<string, string>)
      modifies this
      ensures keyboard == BakedRows(old(keyboard), textSetters, userID, data)
      ensures header == old(header) && fetcher == old(fetcher)
      ensures textSetters == old(textSetters) && btnTemplates == old(btnTemplates)
    {
      var orig := keyboard;
      var kb := keyboard;
      var i := 0;
      while i < |kb|
        invariant 0 <= i <= |kb| == |orig|
        invariant forall r | 0 <= r < i :: kb[r] == BakedRow(orig[r], textSetters, userID, data)
        invariant forall r | i <= r < |kb| :: kb[r] == orig[r]
      {
        var row := kb[i];
        var j := 0;
        while j < |row|
          invariant 0 <= j <= |row| == |orig[i]|
          invariant forall c | 0 <= c < j :: row[c] == BakeButton(orig[i][c], textSetters, userID, data)
          invariant forall c | j <= c < |row| :: row[c] == orig[i][c]
        {
          var btn := row[j];
          if btn.unique in textSetters {
            var content := textSetters[btn.unique](userID, data);
            if content.Ok? {
              row := row[j := btn.(text := content.value)];
            }
          }
          j := j + 1;
        }
        assert row == BakedRow(orig[i], textSetters, userID, data);
        kb := kb[i := row];
        i := i + 1;
      }
      keyboard := kb;
    }

    /** `bake` as written: the fetcher is called unconditionally, so a nil one panics. */
    method Bake(userID: int) returns (panicked: bool)
      modifies this
      ensures panicked <==> fetcher.None?
      ensures panicked ==> keyboard == old(keyboard)
      ensures !panicked ==> keyboard == BakedRows(old(keyboard), textSetters, userID, fetcher.value(userID).0)
      ensures header == old(header) && fetcher == old(fetcher)
      ensures textSetters == old(textSetters) && btnTemplates == old(btnTemplates)
    {
      if fetcher.None? {
        return true;
      }
      var (data, _) := fetcher.value(userID);
      ApplySetters(userID, data);
      return false;
    }

    /** `bake` with a nil fetcher allowed, as the menu's documentation says: no data, no computed captions. */
    method BakeNilSafe(userID: int)
      modifies this
      ensures keyboard == (if fetcher.None? then old(keyboard)
                           else BakedRows(old(keyboard), textSetters, userID, fetcher.value(userID).0))
      ensures header == old(header) && fetcher == old(fetcher)
      ensures textSetters == old(textSetters) && btnTemplates == old(btnTemplates)
    {
      if fetcher.Some? {
        var (data, _) := fetcher.value(userID);
        ApplySetters(userID, data);
      }
    }

    /**
     * `Serve`: the header sent with the freshly baked keyboard; with a nil
     * fetcher `bake` panics and nothing is sent.
     */
    method Serve(userID: int) returns (panicked: bool, out: Option<MenuMessage>)
      modifies this
      ensures panicked <==> fetcher.None?
      ensures panicked ==> out == None && keyboard == old(keyboard)
      ensures !panicked ==>
        && keyboard == BakedRows(old(keyboard), textSetters, userID, fetcher.value(userID).0)
        && out == Some(SendMenu(header, keyboard))
      ensures header == old(header) && fetcher == old(fetcher)
      ensures textSetters == old(textSetters) && btnTemplates == old(btnTemplates)
    {
      panicked := Bake(userID);
      if panicked {
        return true, None;
      }
      out := Some(SendMenu(header, keyboard));
    }

    /**
     * `Update`: the stored `messageID` variable names the message to edit;
     * failing to read the variables, or not finding it, is an error and edits
     * nothing. Otherwise `bake` runs, and panics with a nil fetcher; `editOk`
     * is whether Telegram accepted the edit.
     */
    method Update(fsm: Fsm, userID: int, db: Db, editOk: bool) returns (panicked: bool, failed: bool, out: Option<MenuMessage>)
      modifies this
      ensures var vars := if userID in fsm.rows then fsm.rows[userID].vars else map[];
        && (!db.readOk || MessageIDVar !in vars ==> !panicked && failed && out == None && keyboard == old(keyboard))
        && (db.readOk && MessageIDVar in vars ==>
              && (panicked <==> fetcher.None?)
              && (panicked ==> out == None && keyboard == old(keyboard))
              && (!panicked ==>
                    && keyboard == BakedRows(old(keyboard), textSetters, userID, fetcher.value(userID).0)
                    && out == Some(EditMenu(vars[MessageIDVar], header, keyboard))
                    && (failed <==> !editOk)))
      ensures header == old(header) && fetcher == old(fetcher)
      ensures textSetters == old(textSetters) && btnTemplates == old(btnTemplates)
    {
      var vars, readFailed := fsm.GetStateVars(userID, db);
      if readFailed {
        return false, true, None;
      }
      if MessageIDVar !in vars {
        return false, true, None;
      }
      panicked := Bake(userID);
      if panicked {
        return true, false, None;
      }
      return false, !editOk, Some(EditMenu(vars[MessageIDVar], header, keyboard));
    }
  }

  // ---------------------------------------------------- clicking a state button

  /** The table after a click: the state triggered, then the clicked message's id stored. */
  ghost function ClickEffect(pool: map<string, State>, t: Table, userID: int, state: string, messageID: int, db: Db): Table
  {
    var t1 := TriggerEffect(pool, t, userID, state, db).0;
    if db.writeOk then WriteVar(t1, userID, MessageIDVar, IntToString(messageID)) else t1
  }

  /**
   * The handler `createHandlerFSM` makes for a button naming a state: the
   * state is triggered and the message id stored, each error only printed.
   */
  method Click(fsm: Fsm, userID: int, state: string, messageID: int, db: Db) returns (out: seq<Message>)
    modifies fsm
    ensures fsm.rows == ClickEffect(old(fsm.statePool), old(fsm.rows), userID, state, messageID, db)
    ensures out == TriggerEffect(old(fsm.statePool), old(fsm.rows), userID, state, db).2
    ensures fsm.statePool == old(fsm.statePool)
  {
    var _, sent := fsm.TriggerState(userID, state, db);
    var _ := fsm.SetStateVar(userID, MessageIDVar, IntToString(messageID), db);
    out := sent;
  }

  /**
   * After a click the menu's message id can be read back whenever the user
   * has a row by then, even when the trigger itself failed.
   */
  lemma ClickStoresMessageID(pool: map<string, State>, t: Table, userID: int, state: string, messageID: int)
    requires userID in t || state in pool || state == ResetStateName
    ensures var t' := ClickEffect(pool, t, userID, state, messageID, AllOk);
      userID in t' && ReadVar(t', userID, MessageIDVar) == (IntToString(messageID), true)
  {
    var t1 := TriggerEffect(pool, t, userID, state, AllOk).0;
    if state == ResetStateName {
      ResetLeavesNoState(t, userID, false);
    }
    assert userID in t1;
    ReadAfterWriteVar(t1, userID, MessageIDVar, IntToString(messageID), MessageIDVar);
  }
}
