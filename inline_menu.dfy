/**
 * Inline keyboards of BotExt (BotExt/InlineMenuBuilder.go): a menu holds
 * button templates, a lookup table of dynamic text setters and the laid-out
 * keyboard ("carcass"); a registry maps menu names to menus. Data and
 * button fetchers are database queries; their answers are parameters.
 */
module InlineMenus {
  import opened Wrappers
  import opened RowLayout
  import opened StateStore

  /** Text of a dynamic button from the fetched data; the flag reports a failure. */
  type TextSetter = map<string, string> -> (string, bool)

  /** `TextOnCreation`: a string, a setter function, or anything else (nil). */
  datatype ButtonText = StaticText(text: string) | SetterText(setter: TextSetter) | NoText

  /** `OnClick`: a state name, a handler function (named here), or anything else. */
  datatype ClickAction = TriggerState(state: string) | Callback(handler: string) | NoAction

  datatype ButtonTemplate = ButtonTemplate(unique: string, text: ButtonText, onClick: ClickAction)

  /** A laid-out data button: caption, unique and callback payload. */
  datatype Btn = Btn(text: string, unique: string, data: string)

  type Keyboard = seq<seq<Btn>>

  /** What a `ButtonFetcher` answered: the `NoButtons` sentinel, another error, or an ordered map (nil allowed). */
  datatype ButtonFetch = NoButtonsError | FetchError | Fetched(pairs: Option<seq<(string, string)>>)

  /** Answers of a menu's fetchers for one user: the data map (nil allowed) and the button list. */
  datatype MenuFetch = MenuFetch(data: Option<map<string, string>>, buttons: ButtonFetch)

  /** Result of `dynamicBake`. */
  datatype BakeStatus = Baked | NoButtons | FetchFailed

  /** What Telegram answered to an edit. */
  datatype EditOutcome = Edited | SameMessageContent | EditFailed

  /** Messages handed to Telegram. */
  datatype Output =
    | SendText(text: string)
    | SendMenu(header: string, keyboard: Keyboard)
    | EditMenu(messageID: int, header: string, markup: Option<Keyboard>)

  predicate IsSplitterTemplate(t: ButtonTemplate) { t.unique == RowSplitterButton }

  /** `manageButton`: the button a template is laid out as. */
  function ManageButton(menuName: string, t: ButtonTemplate): Btn
  {
    var staticText := if t.text.StaticText? then t.text.text else "-";
    match t.onClick
    case Callback(_) => Btn(staticText, t.unique, "\U{000C}" + t.unique)
    case TriggerState(state) => Btn(state, t.unique, menuName)
    case NoAction => Btn("", "", "")
  }

  function BakeRow(menuName: string, row: seq<ButtonTemplate>): (r: seq<Btn>)
    ensures |r| == |row|
  {
    seq(|row|, j requires 0 <= j < |row| => ManageButton(menuName, row[j]))
  }

  function BakeRows(menuName: string, rows: seq<seq<ButtonTemplate>>): (r: Keyboard)
    ensures |r| == |rows|
  {
    seq(|rows|, i requires 0 <= i < |rows| => BakeRow(menuName, rows[i]))
  }

  /** The keyboard `construct` lays out for a list of templates. */
  function ConstructSpec(menuName: string, templates: seq<ButtonTemplate>, width: nat): Keyboard
    requires width > 0
  {
    BakeRows(menuName, Layout(templates, IsSplitterTemplate, width))
  }

  /** `textSetters` after adding `templates` one by one to an empty table. */
  function SettersOf(templates: seq<ButtonTemplate>): (m: map<string, TextSetter>)
    ensures forall u :: u in m <==>
      exists j | 0 <= j < |templates| :: templates[j].unique == u && templates[j].text.SetterText?
  {
    if |templates| == 0 then map[]
    else
      var init := templates[..|templates| - 1];
      var last := templates[|templates| - 1];
      var m := SettersOf(init);
      assert forall j | 0 <= j < |init| :: init[j] == templates[j];
      if last.text.SetterText? then m[last.unique := last.text.setter] else m
  }

  /** The latest template with a given unique decides its setter. */
  lemma {:induction false} SettersOfLastWins(templates: seq<ButtonTemplate>, j: nat)
    requires j < |templates| && templates[j].text.SetterText?
    requires forall k | j < k < |templates| :: templates[k].unique != templates[j].unique
    ensures templates[j].unique in SettersOf(templates)
    ensures SettersOf(templates)[templates[j].unique] == templates[j].text.setter
  {
    if j < |templates| - 1 {
      var init := templates[..|templates| - 1];
      SettersOfLastWins(init, j);
    }
  }

  function RelabelButton(b: Btn, setters: map<string, TextSetter>, data: map<string, string>): (b': Btn)
    ensures b'.unique == b.unique && b'.data == b.data
    ensures b.unique in setters ==> b'.text == setters[b.unique](data).0
    ensures b.unique !in setters ==> b' == b
  {
    if b.unique in setters then b.(text := setters[b.unique](data).0) else b
  }

  function RelabelRow(row: seq<Btn>, setters: map<string, TextSetter>, data: map<string, string>): (r: seq<Btn>)
    ensures |r| == |row|
  {
    seq(|row|, j requires 0 <= j < |row| => RelabelButton(row[j], setters, data))
  }

  /** The keyboard after every button with a setter got the setter's text. */
  function Relabel(rows: Keyboard, setters: map<string, TextSetter>, data: map<string, string>): (r: Keyboard)
    ensures |r| == |rows|
    ensures forall i | 0 <= i < |rows| :: |r[i]| == |rows[i]|
  {
    seq(|rows|, i requires 0 <= i < |rows| => RelabelRow(rows[i], setters, data))
  }

  /** Templates `dynamicBake` builds from a fetched ordered map: caption and state are the value. */
  function PairsToTemplates(pairs: seq<(string, string)>): (ts: seq<ButtonTemplate>)
    ensures |ts| == |pairs|
    ensures forall j | 0 <= j < |pairs| :: ts[j] == ButtonTemplate(pairs[j].0, StaticText(pairs[j].1), TriggerState(pairs[j].1))
  {
    seq(|pairs|, j requires 0 <= j < |pairs| => ButtonTemplate(pairs[j].0, StaticText(pairs[j].1), TriggerState(pairs[j].1)))
  }

  lemma {:induction false} FlattenBakeRows(menuName: string, rows: seq<seq<ButtonTemplate>>)
    ensures Flatten(BakeRows(menuName, rows)) == BakeRow(menuName, Flatten(rows))
  {
    if |rows| > 0 {
      var init := rows[..|rows| - 1];
      FlattenBakeRows(menuName, init);
      assert BakeRows(menuName, rows)[..|rows| - 1] == BakeRows(menuName, init);
      assert BakeRow(menuName, Flatten(init) + rows[|rows| - 1])
          == BakeRow(menuName, Flatten(init)) + BakeRow(menuName, rows[|rows| - 1]);
    }
  }

  /**
   * The laid-out keyboard: non-empty rows of at most `width` buttons which,
   * read in order, are the non-splitter templates laid out one by one.
   */
  lemma ConstructShape(menuName: string, templates: seq<ButtonTemplate>, width: nat)
    requires width > 0
    ensures var k := ConstructSpec(menuName, templates, width);
      && (forall i | 0 <= i < |k| :: 0 < |k[i]| <= width)
      && Flatten(k) == BakeRow(menuName, Placed(templates, IsSplitterTemplate))
  {
    FlattenBakeRows(menuName, Layout(templates, IsSplitterTemplate, width));
  }

  /** A dynamic button's caption and callback payload come from the fetched pair and the menu name. */
  lemma DynamicButtonsCarryPairs(menuName: string, pairs: seq<(string, string)>, j: nat)
    requires j < |pairs|
    ensures ManageButton(menuName, PairsToTemplates(pairs)[j]) == Btn(pairs[j].1, pairs[j].0, menuName)
  {
  }

  class InlineMenu {
    const name: string
    const header: string
    const maxButtonsInRow: nat
    const hasDataFetcher: bool
    const hasButtonFetcher: bool

    var textSetters: map<string, TextSetter>
    var btnTemplates: seq<ButtonTemplate>
    var carcass: Keyboard

    /** `NewInlineMenu`: a menu whose captions come from a data map (fetcher may be nil). */
    constructor NewInlineMenu(menuName: string, menuHeader: string, width: nat, dataFetcher: bool)
      requires width > 0
      ensures name == menuName && header == menuHeader && maxButtonsInRow == width
      ensures hasDataFetcher == dataFetcher && !hasButtonFetcher
      ensures textSetters == map[] && btnTemplates == [] && carcass == []
    {
      name, header, maxButtonsInRow := menuName, menuHeader, width;
      hasDataFetcher, hasButtonFetcher := dataFetcher, false;
      textSetters, btnTemplates, carcass := map[], [], [];
    }

    /** `NewDynamicInlineMenu`: a menu whose buttons come from an ordered map. */
    constructor NewDynamicInlineMenu(menuName: string, menuHeader: string, width: nat)
      requires width > 0
      ensures name == menuName && header == menuHeader && maxButtonsInRow == width
      ensures !hasDataFetcher && hasButtonFetcher
      ensures textSetters == map[] && btnTemplates == [] && carcass == []
    {
      name, header, maxButtonsInRow := menuName, menuHeader, width;
      hasDataFetcher, hasButtonFetcher := false, true;
      textSetters, btnTemplates, carcass := map[], [], [];
    }

    method PurgeButtons()
      modifies this
      ensures btnTemplates == [] && textSetters == map[]
      ensures carcass == old(carcass)
    {
      btnTemplates := [];
      textSetters := map[];
    }

    /** Appends a template; a setter text is also indexed by the button's unique. */
    method AddButton(button: ButtonTemplate)
      modifies this
      ensures btnTemplates == old(btnTemplates) + [button]
      ensures textSetters == if button.text.SetterText? then old(textSetters)[button.unique := button.text.setter]
                             else old(textSetters)
      ensures carcass == old(carcass)
    {
      if button.text.SetterText? {
        textSetters := textSetters[button.unique := button.text.setter];
      }
      btnTemplates := btnTemplates + [button];
    }

    /** Replaces (never appends to) the templates and rebuilds the setter table. */
    method AddButtons(buttons: seq<ButtonTemplate>)
      modifies this
      ensures btnTemplates == buttons
      ensures textSetters == SettersOf(buttons)
      ensures carcass == old(carcass)
    {
      PurgeButtons();
      for k := 0 to |buttons|
        invariant btnTemplates == buttons[..k]
        invariant textSetters == SettersOf(buttons[..k])
        invariant carcass == old(carcass)
      {
        AddButton(buttons[k]);
        assert buttons[..k + 1][..k] == buttons[..k];
      }
      assert buttons[..|buttons|] == buttons;
    }

    /** `construct`: lays the templates out into the carcass. */
    method Construct()
      modifies this
      requires maxButtonsInRow > 0
      ensures carcass == ConstructSpec(name, btnTemplates, maxButtonsInRow)
      ensures btnTemplates == old(btnTemplates) && textSetters == old(textSetters)
    {
      var row: seq<Btn> := [];
      var rows: Keyboard := [];
      for i := 0 to |btnTemplates|
        invariant var p := PackPrefix(btnTemplates, IsSplitterTemplate, maxButtonsInRow, i);
          rows == BakeRows(name, p.rows) && row == BakeRow(name, p.row)
      {
        var button := btnTemplates[i];
        var bakedButton := ManageButton(name, button);
        ghost var p := PackPrefix(btnTemplates, IsSplitterTemplate, maxButtonsInRow, i);
        if i % maxButtonsInRow == 0 || button.unique == RowSplitterButton {
          if |row| != 0 {
            assert BakeRows(name, p.rows + [p.row]) == BakeRows(name, p.rows) + [BakeRow(name, p.row)];
            rows := rows + [row];
          }
          row := [];
        }
        if button.unique != RowSplitterButton {
          row := row + [bakedButton];
        }
      }
      ghost var p := PackPrefix(btnTemplates, IsSplitterTemplate, maxButtonsInRow, |btnTemplates|);
      assert btnTemplates[..|btnTemplates|] == btnTemplates;
      if |row| != 0 {
        assert BakeRows(name, p.rows + [p.row]) == BakeRows(name, p.rows) + [BakeRow(name, p.row)];
        rows := rows + [row];
      }
      carcass := rows;
    }

    /** `dynamicBake`: rebuilds the buttons from the fetched ordered map. */
    method DynamicBake(fetched: ButtonFetch) returns (status: BakeStatus)
      modifies this
      requires maxButtonsInRow > 0
      ensures !hasButtonFetcher ==> status == Baked && unchanged(this)
      ensures hasButtonFetcher && fetched.NoButtonsError? ==> status == NoButtons && unchanged(this)
      ensures hasButtonFetcher && fetched.FetchError? ==> status == FetchFailed && unchanged(this)
      ensures hasButtonFetcher && fetched.Fetched? ==>
        && status == Baked
        && btnTemplates == PairsToTemplates(if fetched.pairs.Some? then fetched.pairs.value else [])
        && textSetters == map[]
        && carcass == ConstructSpec(name, btnTemplates, maxButtonsInRow)
    {
      if !hasButtonFetcher {
        return Baked;
      }
      match fetched
      case NoButtonsError =>
        return NoButtons;
      case FetchError =>
        return FetchFailed;
      case Fetched(pairs) =>
        PurgeButtons();
        var list := if pairs.Some? then pairs.value else [];
        for k := 0 to |list|
          invariant btnTemplates == PairsToTemplates(list[..k])
          invariant textSetters == map[]
        {
          AddButton(ButtonTemplate(list[k].0, StaticText(list[k].1), TriggerState(list[k].1)));
        }
        assert list[..|list|] == list;
        Construct();
        return Baked;
    }

    /** Overwrites the caption of every laid-out button that has a setter, in place. */
    method RelabelCarcass(data: map<string, string>)
      modifies this
      ensures carcass == Relabel(old(carcass), textSetters, data)
      ensures btnTemplates == old(btnTemplates) && textSetters == old(textSetters)
    {
      for i := 0 to |carcass|
        invariant |carcass| == |old(carcass)|
        invariant forall k | 0 <= k < i :: carcass[k] == RelabelRow(old(carcass)[k], textSetters, data)
        invariant forall k | i <= k < |carcass| :: carcass[k] == old(carcass)[k]
        invariant btnTemplates == old(btnTemplates) && textSetters == old(textSetters)
      {
        for j := 0 to |carcass[i]|
          invariant |carcass| == |old(carcass)| && |carcass[i]| == |old(carcass)[i]|
          invariant forall k | 0 <= k < i :: carcass[k] == RelabelRow(old(carcass)[k], textSetters, data)
          invariant forall k | i < k < |carcass| :: carcass[k] == old(carcass)[k]
          invariant forall l | 0 <= l < j :: carcass[i][l] == RelabelButton(old(carcass)[i][l], textSetters, data)
          invariant forall l | j <= l < |carcass[i]| :: carcass[i][l] == old(carcass)[i][l]
          invariant btnTemplates == old(btnTemplates) && textSetters == old(textSetters)
        {
          var btn := carcass[i][j];
          if btn.unique in textSetters {
            var content := textSetters[btn.unique](data).0;
            carcass := carcass[i := carcass[i][j := btn.(text := content)]];
          }
        }
        assert carcass[i] == RelabelRow(old(carcass)[i], textSetters, data);
      }
    }

    /** `bake` answers nil exactly for a dynamic menu whose fetcher reports no buttons. */
    predicate BakesToNil(fetch: MenuFetch)
      reads this
    {
      !hasDataFetcher && hasButtonFetcher && fetch.buttons.NoButtonsError?
    }

    /**
     * The carcass `bake` leaves behind: rebuilt from the fetched pairs for a
     * dynamic menu, relabelled from the fetched data map for a data menu,
     * otherwise (nil fetchers, a failed fetch, a nil map) the one it had.
     */
    function BakedCarcass(fetch: MenuFetch): Keyboard
      reads this
      requires maxButtonsInRow > 0
    {
      if !hasDataFetcher then
        if hasButtonFetcher && fetch.buttons.Fetched? then
          var pairs := if fetch.buttons.pairs.Some? then fetch.buttons.pairs.value else [];
          ConstructSpec(name, PairsToTemplates(pairs), maxButtonsInRow)
        else carcass
      else if fetch.data.Some? then Relabel(carcass, textSetters, fetch.data.value)
      else carcass
    }

    /**
     * `bake`: the keyboard to send for one user, or `None` (nil) when a
     * dynamic menu has no buttons at all.
     */
    method Bake(fetch: MenuFetch) returns (markup: Option<Keyboard>)
      modifies this
      requires maxButtonsInRow > 0
      ensures !hasDataFetcher && hasButtonFetcher && fetch.buttons.NoButtonsError? ==> markup == None
      ensures !(!hasDataFetcher && hasButtonFetcher && fetch.buttons.NoButtonsError?) ==> markup == Some(carcass)
      ensures !hasDataFetcher && hasButtonFetcher && fetch.buttons.FetchError? ==> unchanged(this)
      ensures hasDataFetcher && fetch.data.None? ==> unchanged(this)
      ensures hasDataFetcher && fetch.data.Some? ==>
        && carcass == Relabel(old(carcass), textSetters, fetch.data.value)
        && btnTemplates == old(btnTemplates) && textSetters == old(textSetters)
      ensures !hasDataFetcher && hasButtonFetcher && fetch.buttons.Fetched? ==>
        && btnTemplates == PairsToTemplates(if fetch.buttons.pairs.Some? then fetch.buttons.pairs.value else [])
        && textSetters == map[]
      ensures carcass == old(BakedCarcass(fetch))
      ensures markup == if old(BakesToNil(fetch)) then None else Some(carcass)
    {
      if !hasDataFetcher {
        var status := DynamicBake(fetch.buttons);
        if status == NoButtons {
          return None;
        }
        return Some(carcass);
      }
      if fetch.data.None? {
        return Some(carcass);
      }
      RelabelCarcass(fetch.data.value);
      return Some(carcass);
    }

    /** `InlineMenu.Update`: edits the menu message; "message is not modified" is not an error. */
    method Update(messageID: int, fetch: MenuFetch, edit: EditOutcome) returns (out: Output, errorLogged: bool)
      modifies this
      requires maxButtonsInRow > 0
      ensures exists m: Option<Keyboard> :: out == EditMenu(messageID, header, m)
      ensures out == EditMenu(messageID, header, if old(BakesToNil(fetch)) then None else Some(carcass))
      ensures carcass == old(BakedCarcass(fetch))
      ensures errorLogged <==> edit == EditFailed
    {
      var m := Bake(fetch);
      out := EditMenu(messageID, header, m);
      errorLogged := edit != Edited && edit != SameMessageContent;
    }
  }

  /** `InlineMenusType`: the registry of menus plus the store holding each user's menu message id. */
  class Registry {
    var menus: map<string, InlineMenu>
    const store: Store

    constructor(s: Store)
      ensures menus == map[] && store == s
    {
      menus := map[];
      store := s;
    }

    /** Every registered menu has a usable row width. */
    ghost predicate Valid()
      reads this, menus.Values
    {
      forall n | n in menus :: menus[n].maxButtonsInRow > 0
    }

    function GetInlineMenu(name: string): (m: Option<InlineMenu>)
      reads this
      ensures m.Some? <==> name in menus
      ensures m.Some? ==> m.value == menus[name]
    {
      if name in menus then Some(menus[name]) else None
    }

    /**
     * What `Show` sends for a menu: nothing for an unknown name or a
     * dynamic menu with no buttons, otherwise the header with the baked carcass.
     */
    function ShowOutputs(menuName: string, fetch: MenuFetch): seq<Output>
      requires Valid()
      reads this, menus.Values
    {
      if menuName !in menus then []
      else
        var menu := menus[menuName];
        if menu.BakesToNil(fetch) then [] else [SendMenu(menu.header, menu.BakedCarcass(fetch))]
    }

    /** Rejects a taken name without laying the new menu out; otherwise lays it out and stores it. */
    method RegisterMenu(menu: InlineMenu) returns (ok: bool)
      requires Valid() && menu.maxButtonsInRow > 0
      modifies this, menu
      ensures Valid()
      ensures ok <==> menu.name !in old(menus)
      ensures !ok ==> menus == old(menus) && unchanged(menu)
      ensures ok ==> menus == old(menus)[menu.name := menu]
      ensures ok ==> menu.carcass == ConstructSpec(menu.name, menu.btnTemplates, menu.maxButtonsInRow)
    {
      if menu.name in menus {
        return false;
      }
      menu.Construct();
      menus := menus[menu.name := menu];
      return true;
    }

    /**
     * `Show`: records the id the menu message is about to get (the current
     * message id plus one) and sends the baked menu, if there is one.
     */
    method Show(userID: int, currentMessageID: int, menuName: string, fetch: MenuFetch) returns (ok: bool, outs: seq<Output>)
      requires Valid()
      modifies store, if menuName in menus then {menus[menuName]} else {}
      ensures Valid()
      ensures outs == old(ShowOutputs(menuName, fetch))
      ensures ok <==> menuName in menus
      ensures !ok ==> outs == [] && store.rows == old(store.rows)
      ensures ok ==> store.rows == WriteMessageID(old(store.rows), userID, currentMessageID + 1)
      ensures ok ==> |outs| <= 1
      ensures ok && outs != [] ==> outs[0] == SendMenu(menus[menuName].header, menus[menuName].carcass)
      ensures ok && !menus[menuName].hasDataFetcher && menus[menuName].hasButtonFetcher && fetch.buttons.NoButtonsError?
        ==> outs == []
      ensures ok ==> var menu := menus[menuName];
        && menu.carcass == old(menu.BakedCarcass(fetch))
        && outs == if old(menu.BakesToNil(fetch)) then [] else [SendMenu(menu.header, menu.carcass)]
    {
      if menuName !in menus {
        return false, [];
      }
      var menu := menus[menuName];
      store.SetMessageID(userID, currentMessageID + 1);
      var m := menu.Bake(fetch);
      if m.None? {
        return true, [];
      }
      return true, [SendMenu(menu.header, m.value)];
    }

    /** `InlineMenusType.Update`: refreshes the user's menu message when its id is known. */
    method Update(userID: int, menuName: string, fetch: MenuFetch, edit: EditOutcome) returns (outs: seq<Output>)
      requires Valid()
      modifies if menuName in menus then {menus[menuName]} else {}
      ensures Valid()
      ensures menuName !in menus ==> outs == []
      ensures menuName in menus && ReadMessageID(store.rows, userID).1 ==>
        |outs| == 1 && outs[0].EditMenu? && outs[0].messageID == ReadMessageID(store.rows, userID).0
      ensures !ReadMessageID(store.rows, userID).1 ==> outs == []
      ensures menuName in menus && ReadMessageID(store.rows, userID).1 ==> var menu := menus[menuName];
        && menu.carcass == old(menu.BakedCarcass(fetch))
        && outs == [EditMenu(ReadMessageID(store.rows, userID).0, menu.header,
                             if old(menu.BakesToNil(fetch)) then None else Some(menu.carcass))]
      ensures menuName !in menus || !ReadMessageID(store.rows, userID).1 ==> unchanged(menus.Values)
    {
      if menuName !in menus {
        return [];
      }
      var menu := menus[menuName];
      var msgID, ok := store.GetMessageID(userID);
      if !ok {
        return [];
      }
      var out, _ := menu.Update(msgID, fetch, edit);
      return [out];
    }
  }
}
