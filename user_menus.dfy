/**
 * The user menus of user_menus.go: the caption setters of the account
 * settings and reminder menus, the data map the reminder menu is fed from,
 * the per-day button pair, what a reminder click does to the queue, and the
 * button lists of the warmup group and warmup menus. Database rows and
 * Telegram send results are parameters.
 */
module UserMenus {
  import opened Wrappers
  import opened StateStore
  import opened InlineMenus
  import opened Notifications

  const Bell: string := "🔔"
  const MutedBell: string := "🔕"
  const Unknown: string := "???"
  const NoTime: string := "HH:MM"
  const GlobalKey: string := "globalOn"
  const GlobalLabel: string := "Глобальный выключатель: "
  const SwitchPrefix: string := "NotificationSwitch_"
  const TimePrefix: string := "NotificationTime_"
  const SelectedWarmupGroup: string := "selectedWarmupGroup"

  /** The `day_of_week` values the reminder slots use. */
  const Weekdays: set<string> := {"mon", "tue", "wed", "thu", "fri", "sat", "sun"}

  function OnKey(day: string): string { day + "On" }
  function TimeKey(day: string): string { day + "Time" }

  // ------------------------------------------------------ caption setters

  /**
   * An on/off caption: the label and a bell for `"true"`, a muted bell for
   * any other value, and `"???"` with an error when the key is missing.
   */
  function SwitchCaption(prefix: string, key: string, data: map<string, string>): (r: (string, bool))
    ensures r.1 <==> key !in data
    ensures key in data && data[key] == "true" ==> r.0 == prefix + Bell
    ensures key in data && data[key] != "true" ==> r.0 == prefix + MutedBell
    ensures key !in data ==> r.0 == prefix + Unknown
  {
    if key !in data then (prefix + Unknown, true)
    else if data[key] == "true" then (prefix + Bell, false)
    else (prefix + MutedBell, false)
  }

  /** The setter of a day's switch button. */
  function DaySwitchSetter(day: string, dayText: string): TextSetter
  {
    data => SwitchCaption(dayText + ": ", OnKey(day), data)
  }

  /** The setter of the global switch button. */
  function GlobalSwitchSetter(): TextSetter
  {
    data => SwitchCaption(GlobalLabel, GlobalKey, data)
  }

  /** The caption of a day's time button: the stored time, or `HH:MM` with an error. */
  function DayTimeCaption(day: string, data: map<string, string>): (r: (string, bool))
    ensures r.1 <==> TimeKey(day) !in data
    ensures TimeKey(day) in data ==> r.0 == data[TimeKey(day)]
    ensures TimeKey(day) !in data ==> r.0 == NoTime
  {
    if TimeKey(day) in data then (data[TimeKey(day)], false) else (NoTime, true)
  }

  function DayTimeSetter(day: string): TextSetter
  {
    data => DayTimeCaption(day, data)
  }

  /**
   * The account settings captions: the prefix and the stored value, or the
   * "unknown" caption with an error when the key is missing.
   */
  function FieldCaption(prefix: string, unknown: string, key: string, data: map<string, string>): (r: (string, bool))
    ensures r.1 <==> key !in data
    ensures key in data ==> r.0 == prefix + data[key]
    ensures key !in data ==> r.0 == unknown
  {
    if key in data then (prefix + data[key], false) else (unknown, true)
  }

  /** The five account settings fields: data key, caption prefix, caption when unknown. */
  const AccountFields: seq<(string, string, string)> := [
    ("name", "Имя: ", "Имя неизвестно"),
    ("age", "Возраст: ", "Возраст неизвестен"),
    ("city", "Город: ", "Город неизвестен"),
    ("timezone", "Часовой пояс: ", "Часовой пояс неизвестен"),
    ("experience", "Опыт вокала: ", "Опыт вокала неизвестен")
  ]

  // ----------------------------------------------- the reminder data map

  /** A `warmup_notifications` row: day, switch text, `HH24:MI` time. */
  datatype SlotRow = SlotRow(day: string, on: string, time: string)

  /** The map the fetcher's loop has built after the given rows. */
  function SlotData(rows: seq<SlotRow>): (data: map<string, string>)
  {
    if |rows| == 0 then map[]
    else
      var r := rows[|rows| - 1];
      SlotData(rows[..|rows| - 1])[OnKey(r.day) := r.on][TimeKey(r.day) := r.time]
  }

  /** What a data fetcher hands back: the map (nil allowed) and whether it reported an error. */
  datatype DataFetch = DataFetch(data: Option<map<string, string>>, failed: bool)

  /**
   * `WarmupNotificationsMenuDataFetcher`: the query, then one row at a time
   * (`None` is a row that fails to scan), then the global switch. A failure
   * after the query still hands back the map built so far.
   */
  method NotificationsData(queryOk: bool, rows: seq<Option<SlotRow>>, global: Option<string>) returns (r: DataFetch)
    ensures !queryOk ==> r == DataFetch(None, true)
    ensures queryOk ==> r.data.Some?
    ensures r.failed <==> !queryOk || global.None? || exists i | 0 <= i < |rows| :: rows[i].None?
    ensures !r.failed ==>
      r.data.value == SlotData(seq(|rows|, i requires 0 <= i < |rows| && rows[i].Some? => rows[i].value))[GlobalKey := global.value]
  {
    if !queryOk {
      return DataFetch(None, true);
    }
    var data: map<string, string> := map[];
    ghost var scanned: seq<SlotRow> := [];
    var i := 0;
    while i < |rows|
      invariant 0 <= i <= |rows|
      invariant forall k | 0 <= k < i :: rows[k].Some?
      invariant |scanned| == i && forall k | 0 <= k < i :: scanned[k] == rows[k].value
      invariant data == SlotData(scanned)
    {
      if rows[i].None? {
        return DataFetch(Some(data), true);
      }
      var row := rows[i].value;
      assert (scanned + [row])[..i] == scanned;
      data := data[OnKey(row.day) := row.on];
      data := data[TimeKey(row.day) := row.time];
      scanned := scanned + [row];
      i := i + 1;
    }
    assert scanned == seq(|rows|, i requires 0 <= i < |rows| && rows[i].Some? => rows[i].value);
    if global.None? {
      return DataFetch(Some(data), true);
    }
    return DataFetch(Some(data[GlobalKey := global.value]), false);
  }

  /** Weekday keys never collide: distinct days give distinct keys, and no day key is `globalOn`. */
  lemma WeekdayKeysDistinct(d: string, e: string)
    requires d in Weekdays && e in Weekdays
    ensures OnKey(d) != TimeKey(e) && OnKey(d) != GlobalKey && TimeKey(d) != GlobalKey
    ensures d != e ==> OnKey(d) != OnKey(e) && TimeKey(d) != TimeKey(e)
  {
    assert |OnKey(d)| == 5 && |TimeKey(e)| == 7 && |GlobalKey| == 8;
    if d != e {
      assert OnKey(d)[..3] == d && OnKey(e)[..3] == e;
      assert TimeKey(d)[..3] == d && TimeKey(e)[..3] == e;
    }
  }

  /** A row's keys stay as that row wrote them when no later row has the same day. */
  lemma {:induction false} SlotDataOfRow(rows: seq<SlotRow>, i: nat)
    requires i < |rows|
    requires forall k | 0 <= k < |rows| :: rows[k].day in Weekdays
    requires forall k | i < k < |rows| :: rows[k].day != rows[i].day
    ensures OnKey(rows[i].day) in SlotData(rows) && SlotData(rows)[OnKey(rows[i].day)] == rows[i].on
    ensures TimeKey(rows[i].day) in SlotData(rows) && SlotData(rows)[TimeKey(rows[i].day)] == rows[i].time
  {
    var last := rows[|rows| - 1];
    WeekdayKeysDistinct(rows[i].day, last.day);
    if i < |rows| - 1 {
      SlotDataOfRow(rows[..|rows| - 1], i);
    }
  }

  /**
   * End to end: when every row scans, the day switch and time buttons show
   * exactly what that day's row holds, without an error.
   */
  lemma ReminderCaptionsShowRow(rows: seq<SlotRow>, i: nat, global: string, dayText: string)
    requires i < |rows|
    requires forall k | 0 <= k < |rows| :: rows[k].day in Weekdays
    requires forall k | i < k < |rows| :: rows[k].day != rows[i].day
    ensures var data := SlotData(rows)[GlobalKey := global];
      && DaySwitchSetter(rows[i].day, dayText)(data)
         == (dayText + ": " + (if rows[i].on == "true" then Bell else MutedBell), false)
      && DayTimeSetter(rows[i].day)(data) == (rows[i].time, false)
      && GlobalSwitchSetter()(data) == (GlobalLabel + (if global == "true" then Bell else MutedBell), false)
  {
    SlotDataOfRow(rows, i);
    WeekdayKeysDistinct(rows[i].day, rows[i].day);
  }

  // ---------------------------------------------------- per-day buttons

  /** `NotificationButtonFabric`: the switch and the time button of a day. */
  function NotificationButtons(day: string, dayText: string): (r: seq<ButtonTemplate>)
    ensures |r| == 2
    ensures r[0].unique == SwitchPrefix + day && r[1].unique == TimePrefix + day
    ensures r[0].text == SetterText(DaySwitchSetter(day, dayText)) && r[1].text == SetterText(DayTimeSetter(day))
  {
    [ButtonTemplate(SwitchPrefix + day, SetterText(DaySwitchSetter(day, dayText)), Callback("toggleDay")),
     ButtonTemplate(TimePrefix + day, SetterText(DayTimeSetter(day)), Callback("setDayTime"))]
  }

  /** The uniques of the buttons of two different days, and of one day's two buttons, differ. */
  lemma NotificationUniquesDistinct(d: string, e: string)
    ensures SwitchPrefix + d != TimePrefix + e
    ensures d != e ==> SwitchPrefix + d != SwitchPrefix + e && TimePrefix + d != TimePrefix + e
  {
    assert (SwitchPrefix + d)[12] == 'S' && (TimePrefix + e)[12] == 'T';
    if d != e {
      if |d| == |e| {
        var k :| 0 <= k < |d| && d[k] != e[k];
        assert (SwitchPrefix + d)[19 + k] == d[k] && (SwitchPrefix + e)[19 + k] == e[k];
        assert (TimePrefix + d)[17 + k] == d[k] && (TimePrefix + e)[17 + k] == e[k];
      }
    }
  }

  // -------------------------------------------------- reminder clicks

  /**
   * The day-switch click after its database update: drop the user from the
   * queue, then queue them at their recomputed nearest slot. A lookup
   * error reads as timestamp 0, so the user then stays out of the queue.
   */
  method DaySwitchClick(svc: NotificationService, userID: int, lookup: Lookup)
    modifies svc
    ensures svc.queue == AddAt(old(svc.queue) - {userID}, userID, LookupResult(lookup).0)
  {
    var ts := LookupResult(lookup).0;
    svc.DelUser(userID);
    svc.AddUserAt(userID, ts);
  }

  /**
   * Removing the user first lets the recomputed slot replace the old one even
   * when it is later; a zero slot leaves the user unqueued.
   */
  lemma FreshSlotReplaces(q: Queue, userID: int, ts: int)
    ensures ts != 0 ==> AddAt(q - {userID}, userID, ts) == q[userID := ts]
    ensures ts == 0 ==> AddAt(q - {userID}, userID, ts) == q - {userID}
    ensures ts != 0 && userID in q && 0 < q[userID] < ts ==> AddAt(q, userID, ts) == q
  {
    if ts != 0 {
      assert AddAt(q - {userID}, userID, ts) == (q - {userID})[userID := ts];
      assert (q - {userID})[userID := ts] == q[userID := ts];
    }
  }

  /**
   * The global-switch click: the flag returned by the update decides between
   * `AddUser` and `DelUser`; a failed update leaves the flag false, so the
   * user is dropped from the queue.
   */
  method GlobalSwitchClick(svc: NotificationService, userID: int, switched: Option<bool>, lookup: Lookup)
    returns (failed: bool)
    modifies svc
    ensures switched == Some(true) && lookup.Found? ==> svc.queue == AddAt(old(svc.queue), userID, lookup.timestamp)
    ensures switched == Some(true) && !lookup.Found? ==> svc.queue == old(svc.queue)
    ensures switched != Some(true) ==> svc.queue == old(svc.queue) - {userID} && !failed
    ensures failed <==> switched == Some(true) && lookup.PgFailure?
  {
    var res := switched == Some(true);
    if res {
      failed := svc.AddUser(userID, lookup);
    } else {
      svc.DelUser(userID);
      failed := false;
    }
  }

  // ------------------------------------------------ dynamic button lists

  /** `om.Set`: overwrite a present key in place, otherwise append. */
  function OrderedSet(pairs: seq<(string, string)>, key: string, value: string): (r: seq<(string, string)>)
    ensures |r| == |pairs| || r == pairs + [(key, value)]
  {
    if |pairs| == 0 then [(key, value)]
    else if pairs[0].0 == key then [(key, value)] + pairs[1..]
    else [pairs[0]] + OrderedSet(pairs[1..], key, value)
  }

  predicate KeysOf(pairs: seq<(string, string)>, key: string)
  {
    exists j | 0 <= j < |pairs| :: pairs[j].0 == key
  }

  /** The ordered map built by setting the pairs one after another. */
  function OrderedFrom(pairs: seq<(string, string)>): seq<(string, string)>
  {
    if |pairs| == 0 then [] else OrderedSet(OrderedFrom(pairs[..|pairs| - 1]), pairs[|pairs| - 1].0, pairs[|pairs| - 1].1)
  }

  lemma {:induction false} OrderedSetFresh(pairs: seq<(string, string)>, key: string, value: string)
    requires forall j | 0 <= j < |pairs| :: pairs[j].0 != key
    ensures OrderedSet(pairs, key, value) == pairs + [(key, value)]
  {
    if |pairs| > 0 {
      OrderedSetFresh(pairs[1..], key, value);
      assert [pairs[0]] + (pairs[1..] + [(key, value)]) == pairs + [(key, value)];
    }
  }

  /** With distinct keys, the ordered map keeps the rows exactly, in query order. */
  lemma {:induction false} OrderedFromDistinct(pairs: seq<(string, string)>)
    requires forall i, j | 0 <= i < j < |pairs| :: pairs[i].0 != pairs[j].0
    ensures OrderedFrom(pairs) == pairs
  {
    if |pairs| > 0 {
      var init := pairs[..|pairs| - 1];
      OrderedFromDistinct(init);
      OrderedSetFresh(init, pairs[|pairs| - 1].0, pairs[|pairs| - 1].1);
      assert init + [pairs[|pairs| - 1]] == pairs;
    }
  }

  /**
   * The end of both user button fetchers: a non-empty map is returned as is;
   * an empty one is answered by a notice to the user whose send result becomes
   * the error, so a delivered notice yields a nil map and no error instead of
   * `NoButtons`.
   */
  function FinishFetch(pairs: seq<(string, string)>, sendOk: bool): (r: ButtonFetch)
    ensures r != NoButtonsError
    ensures |pairs| == 0 ==> r == (if sendOk then Fetched(None) else FetchError)
    ensures |pairs| > 0 ==> r == Fetched(Some(pairs))
  {
    if |pairs| == 0 then (if sendOk then Fetched(None) else FetchError) else Fetched(Some(pairs))
  }

  /** The entries of fully scanned rows, in query order. */
  function EntriesOf<R>(rows: seq<Option<R>>, entry: R -> (string, string)): (pairs: seq<(string, string)>)
    requires forall i | 0 <= i < |rows| :: rows[i].Some?
    ensures |pairs| == |rows|
    ensures forall i | 0 <= i < |rows| :: pairs[i] == entry(rows[i].value)
  {
    seq(|rows|, i requires 0 <= i < |rows| => entry(rows[i].value))
  }

  /**
   * The row loop shared by both fetchers: each scanned row is set into the
   * ordered map under its key; a row that fails to scan (`None`) ends the
   * loop with no map.
   */
  method ScanRows<R>(rows: seq<Option<R>>, entry: R -> (string, string)) returns (omap: Option<seq<(string, string)>>)
    ensures omap.Some? <==> forall i | 0 <= i < |rows| :: rows[i].Some?
    ensures omap.Some? ==> omap.value == OrderedFrom(EntriesOf(rows, entry))
  {
    var pairs: seq<(string, string)> := [];
    ghost var scanned: seq<(string, string)> := [];
    var i := 0;
    while i < |rows|
      invariant 0 <= i <= |rows|
      invariant forall k | 0 <= k < i :: rows[k].Some?
      invariant |scanned| == i && forall k | 0 <= k < i :: scanned[k] == entry(rows[k].value)
      invariant pairs == OrderedFrom(scanned)
    {
      if rows[i].None? {
        return None;
      }
      var (key, text) := entry(rows[i].value);
      assert (scanned + [(key, text)])[..i] == scanned;
      pairs := OrderedSet(pairs, key, text);
      scanned := scanned + [(key, text)];
      i := i + 1;
    }
    assert scanned == EntriesOf(rows, entry);
    return Some(pairs);
  }

  /** A group row is scanned straight into its (group id, name) entry. */
  function GroupEntry(row: (string, string)): (string, string)
  {
    row
  }

  /**
   * `warmupGroupsFetcher`: (group id, name) rows into an ordered map; a row
   * that fails to scan ends the fetch with an error.
   */
  method WarmupGroupsFetcher(queryOk: bool, rows: seq<Option<(string, string)>>, sendOk: bool) returns (r: ButtonFetch)
    ensures r != NoButtonsError
    ensures !queryOk || (exists i | 0 <= i < |rows| :: rows[i].None?) ==> r == FetchError
    ensures queryOk && (forall i | 0 <= i < |rows| :: rows[i].Some?) ==>
      r == FinishFetch(OrderedFrom(EntriesOf(rows, GroupEntry)), sendOk)
  {
    if !queryOk {
      return FetchError;
    }
    var omap := ScanRows(rows, GroupEntry);
    if omap.None? {
      return FetchError;
    }
    return FinishFetch(omap.value, sendOk);
  }

  /** A row of the warmups query: id, name, price text, purchase flag. */
  datatype WarmupRow = WarmupRow(id: string, name: string, price: string, acquired: bool)

  const FreeLabel: string := "🎁 бесплатно"
  const BoughtLabel: string := "🤑 куплено"

  /** The price label of a warmup: free, bought, or its price in roubles. */
  function PriceLabel(price: string, acquired: bool): (caption: string)
    ensures acquired ==> caption == BoughtLabel
    ensures !acquired && price == "0" ==> caption == FreeLabel
    ensures !acquired && price != "0" ==> caption == "💳 " + price + " рублей"
  {
    if price == "0" && !acquired then FreeLabel
    else if acquired then BoughtLabel
    else "💳 " + price + " рублей"
  }

  /** The three labels are told apart by their first character, so a caption shows which case applies. */
  lemma PriceLabelsDistinct(price: string)
    ensures PriceLabel(price, true)[0] != PriceLabel("0", false)[0]
    ensures price != "0" ==> PriceLabel(price, false)[0] != PriceLabel("0", false)[0]
    ensures price != "0" ==> PriceLabel(price, false)[0] != PriceLabel(price, true)[0]
  {
  }

  /** The caption of a warmup button: `"%s [%s]"` of name and price label. */
  function WarmupCaption(row: WarmupRow): string
  {
    row.name + " [" + PriceLabel(row.price, row.acquired) + "]"
  }

  /** The ordered-map entry of a warmup row: its id and its caption. */
  function WarmupPair(row: WarmupRow): (string, string)
  {
    (row.id, WarmupCaption(row))
  }

  /**
   * `warmupsFetcher`: the group chosen earlier is read from the user's
   * variables; each row becomes the pair (warmup id, caption).
   */
  method WarmupsFetcher(t: Table, userID: int, queryOk: bool, rows: seq<Option<WarmupRow>>, sendOk: bool)
    returns (r: ButtonFetch)
    ensures r != NoButtonsError
    ensures !ReadVar(t, userID, SelectedWarmupGroup).1 ==> r == FetchError
    ensures !queryOk || (exists i | 0 <= i < |rows| :: rows[i].None?) ==> r == FetchError
    ensures ReadVar(t, userID, SelectedWarmupGroup).1 && queryOk && (forall i | 0 <= i < |rows| :: rows[i].Some?) ==>
      r == FinishFetch(OrderedFrom(EntriesOf(rows, WarmupPair)), sendOk)
  {
    var (_, ok) := ReadVar(t, userID, SelectedWarmupGroup);
    if !ok || !queryOk {
      return FetchError;
    }
    var omap := ScanRows(rows, WarmupPair);
    if omap.None? {
      return FetchError;
    }
    return FinishFetch(omap.value, sendOk);
  }
}
