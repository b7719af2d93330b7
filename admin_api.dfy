/**
 * The admin-facing handlers of admin_api.go: the user list lines an admin
 * replies to, the parse of such a reply into a group change, the routing of
 * typed admin text and of admin inline-button callbacks. The fresh record id
 * (a UUID) and the bot's own id are parameters; database writes of the user
 * group are returned as values.
 */
module AdminApi {
  import opened Wrappers
  import opened Text
  import opened StateStore
  import opened UserGroups
  import UserApi

  const AdminSGRecordMessage: string := "AdminSG_RecordMessage"
  const AdminSGRecordCheerup: string := "AdminSG_RecordCheerup"
  const AdminSGAddWarmup: string := "AdminSG_AddWarmup"
  /** Referenced by admin_api.go but defined nowhere in the source; kept as a name of its own. */
  const AdminSGAddWarmupGroup: string := "AdminSGAddWarmupGroup"

  const WarmupGroupAdminMenu: string := "warmupGroupAdminMenu"
  const ChangeWarmupMenu: string := "changeWarmupMenu"
  const ChangeWarmupParamsMenu: string := "changeWarmupParamsMenu"
  /** Referenced by admin_api.go but defined nowhere in the source; kept as a name of its own. */
  const ChangeWarmupGroupParamsMenu: string := "changeWarmupGroupParamsMenu"

  const RecordIDVar: string := "RecordID"
  const SelectedWarmupGroup: string := "selectedWarmupGroup"
  const SelectedWarmup: string := "selectedWarmup"
  const LineSplit: char := '|'

  // ------------------------------------------------------- the user list

  /** One line of `sendUserList`: `"%d|%s|%s"` of id, name and class. */
  function UserLine(userID: int, userName: string, userClass: string): string
  {
    IntToString(userID) + [LineSplit] + userName + [LineSplit] + userClass
  }

  // ------------------------------------------------- changing a user group

  /** The message an admin replied to: who sent it and its text. */
  datatype ReplyTo = ReplyTo(senderID: int, text: string)

  /**
   * What `handleUserGroupChange` reports: not for it (`(nil, false)`), an id
   * that does not parse (`(err, false)`), or the group to store for a user
   * together with the confirmation sent to the admin (`(…, true)`).
   */
  datatype GroupChange = NotGroupChange | BadUserID | ChangeGroup(userID: int, group: UserGroup, notice: string)

  /** The lower-cased commands an admin may reply with. */
  function CommandGroup(command: string): (r: Option<UserGroup>)
    ensures r.Some? <==> command in {"бан", "админ", "юзер"}
    ensures r == Some(UGBanned) <==> command == "бан"
    ensures r == Some(UGAdmin) <==> command == "админ"
    ensures r == Some(UGUser) <==> command == "юзер"
  {
    if command == "бан" then Some(UGBanned)
    else if command == "админ" then Some(UGAdmin)
    else if command == "юзер" then Some(UGUser)
    else None
  }

  function GroupNotice(group: UserGroup, name: string, id: string): string
  {
    var tail :=
      match group
      case UGBanned => "забанен"
      case UGAdmin => "админ"
      case _ => "обычный пользователь";
    "Пользователь " + name + "[ID" + id + "] теперь " + tail
  }

  /**
   * `handleUserGroupChange`: the admin's text counts only as a reply to a
   * non-empty bot message made of three `|` pieces whose first one parses
   * as an integer, and only when it is one of the three commands.
   */
  function HandleUserGroupChange(reply: Option<ReplyTo>, botID: int, text: string): (r: GroupChange)
    ensures r != NotGroupChange ==>
      && reply.Some? && reply.value.senderID == botID && reply.value.text != ""
      && |Split(reply.value.text, LineSplit)| == 3
    ensures r == BadUserID <==> r != NotGroupChange && ParseInt(Split(reply.value.text, LineSplit)[0]).None?
    ensures r.ChangeGroup? ==>
      && Some(r.userID) == ParseInt(Split(reply.value.text, LineSplit)[0])
      && Some(r.group) == CommandGroup(ToLower(text))
  {
    match reply
    case None => NotGroupChange
    case Some(m) =>
      if m.senderID != botID || m.text == "" then NotGroupChange
      else
        var parts := Split(m.text, LineSplit);
        if |parts| != 3 then NotGroupChange
        else
          match ParseInt(parts[0])
          case None => BadUserID
          case Some(userID) =>
            match CommandGroup(ToLower(text))
            case None => NotGroupChange
            case Some(group) => ChangeGroup(userID, group, GroupNotice(group, parts[1], parts[0]))
  }

  /**
   * Replying to a line of the user list with a command changes the group of
   * exactly the user that line was about; any other text is not a group
   * change.
   */
  lemma UserLineRoundTrip(botID: int, userID: int, userName: string, userClass: string, text: string)
    requires MinInt64 <= userID <= MaxInt64
    requires LineSplit !in userName && LineSplit !in userClass
    ensures
      var r := HandleUserGroupChange(Some(ReplyTo(botID, UserLine(userID, userName, userClass))), botID, text);
      && (r.ChangeGroup? <==> CommandGroup(ToLower(text)).Some?)
      && (r.ChangeGroup? ==> r.userID == userID && Some(r.group) == CommandGroup(ToLower(text)))
      && (!r.ChangeGroup? ==> r == NotGroupChange)
  {
    var id := IntToString(userID);
    ParseIntToString(userID);
    ParseIntHasNo(id, LineSplit);
    var parts := [id, userName, userClass];
    assert Join(parts, LineSplit) == UserLine(userID, userName, userClass) by {
      assert Join(parts[2..], LineSplit) == userClass;
      assert Join(parts[1..], LineSplit) == userName + [LineSplit] + userClass;
    }
    SplitJoin(parts, LineSplit);
  }

  /** Upper- or mixed-case Cyrillic commands work too, since the text is lower-cased first. */
  lemma UpperCaseBan()
    ensures CommandGroup(ToLower("БАН")) == Some(UGBanned)
  {
    assert ToLower("БАН") == "бан";
  }

  // --------------------------------------------------------- admin text

  /** What `onAdminText` does with a text. */
  datatype AdminTextRoute =
    | StartRecording(state: string)
    | SendUserList
    | StartState(state: string)
    | ShowMenu(menu: string)
    | FlushCache
    | SetGroup(userID: int, group: UserGroup)
    | GroupChanged(change: GroupChange)
    | DialogUpdate(badUserID: bool)

  /** The captions whose handler records into a fresh `RecordID`. */
  function RecordingState(text: string): (r: Option<string>)
    ensures r.Some? <==> text in {"Отправить сообщение всем", "Добавить распевку", "Добавить подбадривание"}
  {
    if text == "Отправить сообщение всем" then Some(AdminSGRecordMessage)
    else if text == "Добавить распевку" then Some(AdminSGAddWarmup)
    else if text == "Добавить подбадривание" then Some(AdminSGRecordCheerup)
    else None
  }

  /** The route of the `switch` in `onAdminText`; `None` when the text falls through it. */
  function SwitchRoute(text: string, userID: int, supervisorID: int): (r: Option<AdminTextRoute>)
    ensures r.Some? && r.value.StartRecording? <==> RecordingState(text).Some?
    ensures r.Some? && r.value.StartRecording? ==> r.value.state == RecordingState(text).value
    ensures r.Some? ==> !r.value.GroupChanged? && !r.value.DialogUpdate?
    ensures r.Some? && r.value.SetGroup? <==> text == "СТАТЬ ЮЗЕРОМ" && supervisorID != 0 && userID == supervisorID
  {
    if RecordingState(text).Some? then Some(StartRecording(RecordingState(text).value))
    else if text == "Забанить, Сделать админом" then Some(SendUserList)
    else if text == "Добавить пакет распевок" then Some(StartState(AdminSGAddWarmupGroup))
    else if text == "Изменить пакет распевок" then Some(ShowMenu(WarmupGroupAdminMenu))
    else if text == "Изменить распевку" then Some(ShowMenu(ChangeWarmupMenu))
    else if text == "ОЧИСТИТЬ КЭШ" then Some(FlushCache)
    else if text == "СТАТЬ ЮЗЕРОМ" && supervisorID != 0 && userID == supervisorID then Some(SetGroup(userID, UGUser))
    else None
  }

  /**
   * `onAdminText`: the switch first; a text it does not consume is offered
   * to the group-change parser, and only a text that parser does not handle
   * reaches the dialog engine.
   */
  function OnAdminText(text: string, userID: int, supervisorID: int, reply: Option<ReplyTo>, botID: int): (r: AdminTextRoute)
    ensures r.DialogUpdate? <==>
      SwitchRoute(text, userID, supervisorID).None? && !HandleUserGroupChange(reply, botID, text).ChangeGroup?
    ensures r.GroupChanged? <==>
      SwitchRoute(text, userID, supervisorID).None? && HandleUserGroupChange(reply, botID, text).ChangeGroup?
    ensures r.DialogUpdate? ==> (r.badUserID <==> HandleUserGroupChange(reply, botID, text) == BadUserID)
  {
    match SwitchRoute(text, userID, supervisorID)
    case Some(route) => route
    case None =>
      var change := HandleUserGroupChange(reply, botID, text);
      if change.ChangeGroup? then GroupChanged(change) else DialogUpdate(change == BadUserID)
  }

  /**
   * The handler with its one store effect: a recording caption stores a
   * fresh `RecordID` before its state is triggered.
   */
  method HandleAdminText(store: Store, text: string, userID: int, supervisorID: int,
                         reply: Option<ReplyTo>, botID: int, freshID: string) returns (route: AdminTextRoute)
    modifies store
    ensures route == OnAdminText(text, userID, supervisorID, reply, botID)
    ensures route.StartRecording? ==> store.rows == WriteVar(old(store.rows), userID, RecordIDVar, freshID)
    ensures !route.StartRecording? ==> store.rows == old(store.rows)
  {
    route := OnAdminText(text, userID, supervisorID, reply, botID);
    if route.StartRecording? {
      store.SetStateVar(userID, RecordIDVar, freshID);
    }
  }

  // --------------------------------------------------- admin callbacks

  datatype AdminCallbackAction = AddWarmupToGroup | ShowParams(menu: string) | NoAction

  /**
   * `OnAdminInlineResult`: a group click while adding a warmup feeds the
   * group to the dialog; otherwise a group or warmup click opens its
   * parameters menu. Either way the clicked id is stored first.
   */
  method OnAdminInlineResult(store: Store, userID: int, data: string) returns (crashed: bool, action: AdminCallbackAction)
    modifies store
    ensures crashed <==> UserApi.ParseCallback(data).None?
    ensures crashed ==> action == NoAction && store.rows == old(store.rows)
    ensures !crashed ==>
      var (unique, menu) := UserApi.ParseCallback(data).value;
      if menu == WarmupGroupAdminMenu then
        && store.rows == WriteVar(old(store.rows), userID, SelectedWarmupGroup, unique)
        && action == (if ReadState(old(store.rows), userID) == AdminSGAddWarmup then AddWarmupToGroup
                      else ShowParams(ChangeWarmupGroupParamsMenu))
      else if menu == ChangeWarmupMenu then
        && store.rows == WriteVar(old(store.rows), userID, SelectedWarmup, unique)
        && action == ShowParams(ChangeWarmupParamsMenu)
      else
        store.rows == old(store.rows) && action == NoAction
  {
    var parsed := UserApi.ParseCallback(data);
    if parsed.None? {
      return true, NoAction;
    }
    var (unique, menu) := parsed.value;
    crashed := false;
    if menu == WarmupGroupAdminMenu {
      var current := store.GetState(userID);
      store.SetStateVar(userID, SelectedWarmupGroup, unique);
      action := if current == AdminSGAddWarmup then AddWarmupToGroup else ShowParams(ChangeWarmupGroupParamsMenu);
    } else if menu == ChangeWarmupMenu {
      store.SetStateVar(userID, SelectedWarmup, unique);
      action := ShowParams(ChangeWarmupParamsMenu);
    } else {
      action := NoAction;
    }
  }
}
