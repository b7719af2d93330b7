/**
 * The admin dialog steps of admin_states.go: the group-name length check,
 * the group add and rename steps, the three recording manipulators that
 * collect messages until the admin types a stop or cancel word, the stored
 * form of a recorded message, the `bakeMessage` loop that reads a record
 * back, and the choice of Telegram object a stored message is resent as.
 * Database and disk operations become returned effects whose success is a
 * parameter.
 */
module AdminStates {
  import opened Wrappers
  import opened Text
  import opened StateStore
  import opened DialogEngine

  const NameTooLongText: string := "Название группы слишком длинное!"
  const CancelWord: string := "отмена"
  const StopWord: string := "стоп"
  const SendingText: string := "Отправка сообщений..."
  const RecordIDVar: string := "RecordID"
  const SelectedWarmupGroup: string := "selectedWarmupGroup"
  const WarmupNameVar: string := "WarmupName"

  // ------------------------------------------------------- group names

  /** `nameMax50Validator`: rejects a text of 50 UTF-8 bytes or more. */
  function NameMax50Validator(text: string): (r: string)
    ensures r == "" || r == NameTooLongText
    ensures r == NameTooLongText <==> ByteLength(text) >= 50
  {
    if ByteLength(text) >= 50 then NameTooLongText else ""
  }

  /** Every character of `s` takes two bytes (Cyrillic does). */
  predicate TwoByteText(s: string)
  {
    forall i | 0 <= i < |s| :: 0x80 <= s[i] as int < 0x800
  }

  lemma {:induction false} TwoByteLength(s: string)
    requires TwoByteText(s)
    ensures ByteLength(s) == 2 * |s|
  {
    if |s| > 0 {
      TwoByteLength(s[..|s| - 1]);
    }
  }

  /**
   * The limit counts bytes, not letters: a Cyrillic name is refused from 25
   * letters on, while an ASCII name of 49 letters passes.
   */
  lemma CyrillicNameLimit(s: string)
    requires TwoByteText(s)
    ensures NameMax50Validator(s) == NameTooLongText <==> |s| >= 25
  {
    TwoByteLength(s);
  }

  /** What the group steps write to `warmup_groups`. */
  datatype GroupWrite = InsertGroup(name: string) | RenameGroup(groupID: string, name: string)

  /** A step's database write (if it tries one) and how the manipulator ends. */
  datatype GroupStep = GroupStep(write: Option<GroupWrite>, outcome: Outcome)

  /** `AddWarmupGroup`: the cancel word ends the dialog without a write. */
  function AddWarmupGroup(text: string, dbOk: bool): (r: GroupStep)
    ensures ToLower(text) == CancelWord ==> r == GroupStep(None, Done)
    ensures ToLower(text) != CancelWord ==> r.write == Some(InsertGroup(text))
    ensures r.outcome != ContinueState
    ensures r.outcome == Failed <==> r.write.Some? && !dbOk
  {
    if ToLower(text) == CancelWord then GroupStep(None, Done)
    else GroupStep(Some(InsertGroup(text)), if dbOk then Done else Failed)
  }

  /**
   * `RenameWarmupGroup`: the cancel word ends the dialog without a write;
   * otherwise the group picked earlier is renamed.
   */
  function RenameWarmupGroup(t: Table, userID: int, text: string, dbOk: bool): (r: GroupStep)
    ensures ToLower(text) == CancelWord ==> r == GroupStep(None, Done)
    ensures r.write.Some? ==> r.write.value == RenameGroup(ReadVar(t, userID, SelectedWarmupGroup).0, text)
    ensures r.outcome != ContinueState
    ensures ToLower(text) != CancelWord && !ReadVar(t, userID, SelectedWarmupGroup).1 ==> r == GroupStep(None, Failed)
  {
    if ToLower(text) == CancelWord then GroupStep(None, Done)
    else
      var (groupID, ok) := ReadVar(t, userID, SelectedWarmupGroup);
      if !ok then GroupStep(None, Failed)
      else GroupStep(Some(RenameGroup(groupID, text)), if dbOk then Done else Failed)
  }

  // ----------------------------------------------------------- recording

  /** The three recording dialogs. */
  datatype RecordKind = OneTimeMessage | Cheerup | Warmup

  /** The database work a recording step does. */
  datatype RecordEffect =
    | SendNotice(text: string)
    | SaveMessage(recordID: string)
    | DeleteRecord(recordID: string)
    | Broadcast(recordID: string)
    | InsertCheerup(recordID: string)
    | InsertWarmup(group: string, name: string, recordID: string)

  datatype RecordStep = RecordStep(effects: seq<RecordEffect>, outcome: Outcome)

  /**
   * What `стоп` does for each kind once the record id is known: a one-time
   * message is announced, broadcast (a failed broadcast is only logged) and
   * its record deleted; a cheerup is inserted; a warmup is inserted under the
   * group and name chosen earlier. It succeeds iff the final database
   * statement does.
   */
  function FinishRecording(kind: RecordKind, t: Table, userID: int, recordID: string, dbOk: bool): (r: RecordStep)
    ensures r.outcome != ContinueState
    ensures kind == OneTimeMessage ==>
      r == RecordStep([SendNotice(SendingText), Broadcast(recordID), DeleteRecord(recordID)], if dbOk then Done else Failed)
    ensures kind == Cheerup ==> r == RecordStep([InsertCheerup(recordID)], if dbOk then Done else Failed)
    ensures kind == Warmup ==> |r.effects| <= 1 && (r.effects != [] ==> r.effects[0].InsertWarmup? && r.effects[0].recordID == recordID)
    ensures r.outcome == Done <==> dbOk && (kind != Warmup || r.effects != [])
  {
    match kind
    case OneTimeMessage =>
      RecordStep([SendNotice(SendingText), Broadcast(recordID), DeleteRecord(recordID)], if dbOk then Done else Failed)
    case Cheerup =>
      RecordStep([InsertCheerup(recordID)], if dbOk then Done else Failed)
    case Warmup =>
      match ReadVars(t, userID)
      case None => RecordStep([], Failed)
      case Some(vars) =>
        if SelectedWarmupGroup !in vars || WarmupNameVar !in vars then RecordStep([], Failed)
        else RecordStep([InsertWarmup(vars[SelectedWarmupGroup], vars[WarmupNameVar], recordID)],
                        if dbOk then Done else Failed)
  }

  /**
   * `RecordOneTimeMessage`, `RecordCheerup` and `RecordWarmup`: without a
   * record id the step fails; `стоп` finishes the record, `отмена` deletes
   * it, and any other message is saved and keeps the dialog open. `dbOk`
   * says whether the database work succeeds.
   */
  function Record(kind: RecordKind, t: Table, userID: int, text: string, dbOk: bool): (r: RecordStep)
    ensures r.outcome == ContinueState <==>
      ReadVar(t, userID, RecordIDVar).1 && ToLower(text) != StopWord && ToLower(text) != CancelWord && dbOk
    ensures !ReadVar(t, userID, RecordIDVar).1 ==> r == RecordStep([], Failed)
    ensures ReadVar(t, userID, RecordIDVar).1 && ToLower(text) == StopWord ==>
      r == FinishRecording(kind, t, userID, ReadVar(t, userID, RecordIDVar).0, dbOk)
    ensures ReadVar(t, userID, RecordIDVar).1 && ToLower(text) == CancelWord ==>
      r == RecordStep([DeleteRecord(ReadVar(t, userID, RecordIDVar).0)], if dbOk then Done else Failed)
    ensures ReadVar(t, userID, RecordIDVar).1 && ToLower(text) != StopWord && ToLower(text) != CancelWord ==>
      r.effects == [SaveMessage(ReadVar(t, userID, RecordIDVar).0)]
    ensures ReadVar(t, userID, RecordIDVar).1 && ToLower(text) != StopWord && ToLower(text) != CancelWord ==>
      r == RecordStep([SaveMessage(ReadVar(t, userID, RecordIDVar).0)], if dbOk then ContinueState else Failed)
  {
    var (recordID, ok) := ReadVar(t, userID, RecordIDVar);
    if !ok then RecordStep([], Failed)
    else if ToLower(text) == StopWord then FinishRecording(kind, t, userID, recordID, dbOk)
    else if ToLower(text) == CancelWord then RecordStep([DeleteRecord(recordID)], if dbOk then Done else Failed)
    else RecordStep([SaveMessage(recordID)], if dbOk then ContinueState else Failed)
  }

  /** `СТОП` in any case finishes a record: the dialog never stays open on it. */
  lemma StopEndsRecording(kind: RecordKind, t: Table, userID: int, dbOk: bool)
    ensures Record(kind, t, userID, "СТОП", dbOk).outcome != ContinueState
  {
    assert ToLower("СТОП") == StopWord;
  }

  /**
   * Finishing a warmup needs both the chosen group and the name in the
   * user's variables; with both, exactly one warmup row is inserted.
   */
  lemma WarmupNeedsGroupAndName(t: Table, userID: int, dbOk: bool)
    requires ReadVar(t, userID, RecordIDVar).1 && userID in t
    ensures
      var r := Record(Warmup, t, userID, "стоп", dbOk);
      var vars := t[userID].vars;
      && (SelectedWarmupGroup !in vars || WarmupNameVar !in vars ==> r == RecordStep([], Failed))
      && (SelectedWarmupGroup in vars && WarmupNameVar in vars ==>
            r.effects == [InsertWarmup(vars[SelectedWarmupGroup], vars[WarmupNameVar], ReadVar(t, userID, RecordIDVar).0)])
  {
    assert ToLower("стоп") == StopWord;
  }

  /** The recording step as the dialog engine sees it: it sets no variables. */
  function RecordManipulator(kind: RecordKind, dbOk: bool): Manipulator
  {
    (ctx: Context, t: Table) => MutatorResult([], Record(kind, t, ctx.userID, ctx.text, dbOk).outcome)
  }

  // -------------------------------------------------- stored messages

  /** A row of the `messages` table. */
  datatype Message = Message(messageID: string, chatID: int, albumID: string, kind: string, text: string, json: string)

  /** A stored message carries a file unless it is text or its file is empty. */
  predicate HasFile(m: Message)
  {
    m.kind != "text" && m.json != "{}"
  }

  /** An attached file: its media type and its JSON encoding. */
  datatype Media = Media(kind: string, json: string)

  /** The parts of an incoming message `saveMessageToDBandDisk` stores. */
  datatype Incoming = Incoming(messageID: int, chatID: int, albumID: string, text: string, caption: string, media: Option<Media>)

  /** The `messages` row `saveMessageToDBandDisk` inserts for a message. */
  function StoredMessage(msg: Incoming): (m: Message)
    ensures m.messageID == IntToString(msg.messageID) && m.chatID == msg.chatID && m.albumID == msg.albumID
    ensures m.text == (if msg.text != "" then msg.text else msg.caption)
  {
    var text := if msg.text != "" then msg.text else msg.caption;
    match msg.media
    case None => Message(IntToString(msg.messageID), msg.chatID, msg.albumID, "text", text, "")
    case Some(media) =>
      var json := if media.json == "" then "{}" else media.json;
      Message(IntToString(msg.messageID), msg.chatID, msg.albumID, media.kind, text, json)
  }

  /**
   * A stored message has a file exactly when the incoming one had media of a
   * type other than text whose encoding is neither empty nor `{}`.
   */
  lemma StoredHasFile(msg: Incoming)
    ensures HasFile(StoredMessage(msg)) <==>
      msg.media.Some? && msg.media.value.kind != "text" && msg.media.value.json != "" && msg.media.value.json != "{}"
  {
  }

  // ------------------------------------------------------ bakeMessage

  /**
   * `bakeMessage` over the rows of one record in `message_id` order; a row
   * that fails to scan is `None`. Because `lastAlbum` is never assigned, the
   * album branch never skips a row: the result is every row, in order.
   */
  method BakeMessage(queryOk: bool, rows: seq<Option<Message>>) returns (r: Result<seq<Message>>)
    ensures r.Ok? <==> queryOk && 0 < |rows| && forall i | 0 <= i < |rows| :: rows[i].Some?
    ensures r.Ok? ==> |r.value| == |rows| && forall i | 0 <= i < |rows| :: r.value[i] == rows[i].value
  {
    if !queryOk {
      return Err("bakeMessage: pg messages query error");
    }
    var baked: seq<Message> := [];
    var lastAlbum := "";
    var i := 0;
    while i < |rows|
      invariant 0 <= i <= |rows|
      invariant forall k | 0 <= k < i :: rows[k].Some?
      invariant |baked| == i && forall k | 0 <= k < i :: baked[k] == rows[k].value
      invariant lastAlbum == ""
    {
      if rows[i].None? {
        return Err("bakeMessage: messages row scan error");
      }
      var msg := rows[i].value;
      if msg.albumID == "" {
        baked := baked + [msg];
        i := i + 1;
        continue;
      }
      if msg.albumID == lastAlbum {
        i := i + 1;
        continue;
      }
      baked := baked + [msg];
      i := i + 1;
    }
    if |baked| == 0 {
      return Err("bakeMessage: can't find record");
    }
    return Ok(baked);
  }

  // --------------------------------------------------- createSendable

  /** The Telegram objects a stored file is resent as. */
  datatype Sendable =
    | Photo(file: string, caption: string)
    | Audio(file: string, caption: string)
    | Document(file: string, caption: string)
    | Video(file: string, caption: string)
    | Voice(file: string, caption: string)
    | VideoNote(file: string)
    | Sticker(file: string)

  /** The media type telebot reports for each object, as stored in `messages`. */
  function MediaType(s: Sendable): string
  {
    match s
    case Photo(_, _) => "photo"
    case Audio(_, _) => "audio"
    case Document(_, _) => "document"
    case Video(_, _) => "video"
    case Voice(_, _) => "voice"
    case VideoNote(_) => "videoNote"
    case Sticker(_) => "sticker"
  }

  /** The caption an object carries, "" for the two kinds that have none. */
  function Caption(s: Sendable): string
  {
    if s.VideoNote? || s.Sticker? then "" else s.caption
  }

  const MediaTypes: set<string> := {"photo", "audio", "document", "video", "voice", "videoNote", "sticker"}

  /**
   * `createSendable`: one of seven objects by the stored type, keeping the
   * stored text as caption except on video notes and stickers; any other
   * type gives nothing (a nil `Sendable`).
   */
  function CreateSendable(kind: string, text: string, file: string): (r: Option<Sendable>)
    ensures r.Some? <==> kind in MediaTypes
    ensures r.Some? ==> r.value.file == file && MediaType(r.value) == kind
    ensures r.Some? && kind != "videoNote" && kind != "sticker" ==> Caption(r.value) == text
  {
    if kind == "photo" then Some(Photo(file, text))
    else if kind == "audio" then Some(Audio(file, text))
    else if kind == "document" then Some(Document(file, text))
    else if kind == "video" then Some(Video(file, text))
    else if kind == "voice" then Some(Voice(file, text))
    else if kind == "videoNote" then Some(VideoNote(file))
    else if kind == "sticker" then Some(Sticker(file))
    else None
  }

  /** Storing an object's type, caption and file and resending it gives the same object. */
  lemma SendableRoundTrip(s: Sendable)
    ensures CreateSendable(MediaType(s), Caption(s), s.file) == Some(s)
  {
  }
}
