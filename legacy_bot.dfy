/**
 * The survey and the `/start` routing of bot.go, the earliest version of the
 * registration dialog. Its setters are stated against the engine of FSM.go
 * (`LegacyFsm`): a setter returns the next state, the variables it stores
 * and whether it reports an error, which here is the error of storing a
 * variable (`writeOk`). `cases.Title` is a parameter; the UTC time of day
 * is carried by the update.
 */
module LegacyBot {
  import opened Wrappers
  import opened Text
  import opened StateStore
  import UserStates
  import opened LegacyFsm
  import LegacySurvey

  const StartSurvey: string := "StartSurvey"
  const SetAge: string := "SetAge"
  const SetCity: string := "SetCity"
  const SetTimezone: string := "SetTimezone"
  const SetExperience: string := "SetExperience"

  const VarName: string := "Name"
  const VarAge: string := "Age"
  const VarCity: string := "City"
  const VarTimezoneRaw: string := "TimezoneRaw"
  const VarTimezoneTxt: string := "TimezoneTxt"

  const WelcomeBack: string := "Welcome back!"

  /** The question texts bot.go registers. */
  const BotQuestions: LegacySurvey.Questions := LegacySurvey.Questions(
    LegacySurvey.AskName,
    "(2/5) Отлично! Теперь скажи, сколько тебе лет?",
    "(3/5) В каком городе живешь?",
    "(4/5) Сколько сейчас времени по твоим часам? Надо написать часы:минуты, например, 23:15. Это надо чтобы понять в каком часовом поясе ты находишься",
    LegacySurvey.AskExperience)

  function Resume(message: string): SetterResult
  {
    SetterResult(ResumeState, [], [SendText(message, [])], false)
  }

  // ------------------------------------------------------------- setters

  /** The name setter: the name is stored exactly as typed. */
  function NameSetter(u: Update, t: Table, writeOk: bool): (r: SetterResult)
    ensures r.next != ResumeState <==> u.text != "" && UserStates.MatchesNamePattern(u.text)
    ensures r.next != ResumeState ==>
      r.next == SetAge && r.writes == [(VarName, u.text)] && (r.failed <==> !writeOk)
  {
    if u.text == "" then Resume(LegacySurvey.CantRecognize)
    else if !UserStates.MatchesNamePattern(u.text) then Resume(UserStates.NameError)
    else SetterResult(SetAge, [(VarName, u.text)], [], !writeOk)
  }

  /** The age setter: an integer from 1 to 150, stored as typed. */
  function AgeSetter(u: Update, t: Table, writeOk: bool): (r: SetterResult)
    ensures r.next != ResumeState <==> ParseInt(u.text).Some? && 1 <= ParseInt(u.text).value <= 150
    ensures r.next != ResumeState ==>
      r.next == SetCity && r.writes == [(VarAge, u.text)] && (r.failed <==> !writeOk)
    ensures r.next == ResumeState ==> r.writes == [] && !r.failed
  {
    if u.text == "" then Resume(LegacySurvey.CantRecognize)
    else
      match ParseInt(u.text)
      case None => Resume(LegacySurvey.AgeError)
      case Some(age) =>
        if age <= 0 then Resume(LegacySurvey.AgeError)
        else if age > 150 then Resume(LegacySurvey.TooOldText)
        else SetterResult(SetCity, [(VarAge, u.text)], [], !writeOk)
  }

  /** The city setter: the same pattern as the name, but stored title-cased. */
  function CitySetter(title: string -> string, u: Update, t: Table, writeOk: bool): (r: SetterResult)
    ensures r.next != ResumeState <==> u.text != "" && UserStates.MatchesNamePattern(u.text)
    ensures r.next != ResumeState ==>
      r.next == SetTimezone && r.writes == [(VarCity, title(u.text))] && (r.failed <==> !writeOk)
  {
    if u.text == "" then Resume(LegacySurvey.CantRecognize)
    else if !UserStates.MatchesNamePattern(u.text) then Resume(UserStates.CityError)
    else SetterResult(SetTimezone, [(VarCity, title(u.text))], [], !writeOk)
  }

  // ------------------------------------------------------------ the offset

  /** `UTC%c%02d:%02d` of a duration, with the sign given separately. */
  function SpelledWithSign(negative: bool, rounded: int): string
    requires MinInt64 <= rounded <= MaxInt64
  {
    var hours := Quot(rounded, 3_600_000_000_000);
    var minutes := Quot(rounded - hours * 3_600_000_000_000, 60_000_000_000);
    UserStates.OffsetSpelled(negative, Abs(hours), Abs(minutes))
  }

  /**
   * The offset of a clock difference in minutes: as a duration (a
   * `ParseDuration` error is ignored, leaving zero), rounded to half an hour;
   * the stored shift is its whole minutes, the text is signed by them.
   */
  function OffsetOfDelta(delta: int): (string, string)
    requires MinInt64 <= delta <= MaxInt64
  {
    var d := match UserStates.ParseMinutes(delta) case Some(x) => x case None => 0;
    var rounded := UserStates.RoundHalfHour(d);
    var minutes := Quot(rounded, 60_000_000_000);
    (IntToString(minutes), SpelledWithSign(minutes < 0, rounded))
  }

  /** The offset of the time setter for the clock time typed and the UTC minute of the day. */
  function Offset(userHours: int, userMinutes: int, utcMinutes: int): (string, string)
  {
    OffsetOfDelta(LegacySurvey.LegacyClockDelta(userHours, userMinutes, utcMinutes))
  }

  /**
   * For hours and minutes of moderate size the shift is the clock
   * difference rounded to a whole number `s` of half hours (within a
   * quarter hour), and the text is `UTC`, `-` iff `s` is negative, then
   * `|s|` as hours and minutes.
   */
  lemma OffsetOfMinutes(h: int, m: int, utc: int) returns (s: int)
    requires -10_000 <= h <= 10_000 && -10_000 <= m <= 10_000 && 0 <= utc < UserStates.MinutesPerDay
    ensures Offset(h, m, utc) == (IntToString(s), UserStates.OffsetSpelled(s < 0, Abs(s) / 60, Abs(s) % 60))
    ensures s % 30 == 0 && -15 <= s - (h * 60 + m - utc) <= 15
  {
    var delta := h * 60 + m - utc;
    LegacySurvey.LegacyDelta(h, m, utc);
    s := UserStates.RoundMinutes(delta);
    assert Offset(h, m, utc) == OffsetOfDelta(delta);
    OffsetOfRounded(delta, s);
  }

  /** `OffsetOfDelta` once the clock difference is known to round to `s` minutes. */
  lemma OffsetOfRounded(delta: int, s: int)
    requires -1_000_000 <= delta <= 1_000_000 && -2_000_000 <= s <= 2_000_000
    requires UserStates.RoundHalfHour(delta * 60_000_000_000) == s * 60_000_000_000
    ensures OffsetOfDelta(delta) == (IntToString(s), UserStates.OffsetSpelled(s < 0, Abs(s) / 60, Abs(s) % 60))
  {
    assert UserStates.ParseMinutes(delta) == Some(delta * 60_000_000_000);
    UserStates.ScaleBack(s);
    SpelledOfMinutes(s);
  }

  /** The text of a whole number of minutes, signed by them, is the one `OffsetText` gives. */
  lemma SpelledOfMinutes(s: int)
    requires -2_000_000 <= s <= 2_000_000
    ensures SpelledWithSign(s < 0, s * 60_000_000_000) == UserStates.OffsetSpelled(s < 0, Abs(s) / 60, Abs(s) % 60)
  {
    UserStates.OffsetTextOfMinutes(s);
    assert SpelledWithSign(s < 0, s * 60_000_000_000) == UserStates.OffsetText(s * 60_000_000_000);
  }

  /** A clock difference too large for a duration is stored as offset zero. */
  lemma OffsetOverflowIsZero(delta: int)
    requires MinInt64 <= delta <= MaxInt64 && UserStates.ParseMinutes(delta).None?
    ensures OffsetOfDelta(delta) == ("0", "UTC+00:00")
  {
    assert UserStates.RoundHalfHour(0) == 0;
    assert Quot(0, 60_000_000_000) == 0;
    assert Pad2(0) == "00";
    assert IntToString(0) == "0";
    assert UserStates.OffsetSpelled(false, 0, 0) == "UTC+00:00";
  }

  /** The text `-3000000:00` passes every check and is stored as offset zero. */
  lemma HugeNegativeHourIsZero(m: int, utc: int)
    requires 0 <= m <= 59 && 0 <= utc < UserStates.MinutesPerDay
    ensures Offset(-3_000_000, m, utc) == ("0", "UTC+00:00")
  {
    var delta := LegacySurvey.LegacyClockDelta(-3_000_000, m, utc);
    assert delta == -180_000_000 + m - utc;
    OffsetOverflowIsZero(delta);
  }

  // ------------------------------------------------------- the time setter

  /**
   * The local-time setter: the checks of `timeValidator` in the same order
   * (with its own message for a wrong number of parts), then both values
   * stored and the offset announced.
   */
  function TimezoneSetter(u: Update, t: Table, writeOk: bool): SetterResult
  {
    if u.text == "" then Resume(LegacySurvey.CantRecognize)
    else if !UserStates.MatchesTimePattern(u.text) then Resume(UserStates.TimeFormatError)
    else
      var parts := Split(u.text, ':');
      if |parts| != 2 then Resume(LegacySurvey.PartsError)
      else if ParseInt(parts[0]).None? || ParseInt(parts[1]).None? then Resume(UserStates.TimeFormatError)
      else
        var hours := ParseInt(parts[0]).value;
        var minutes := ParseInt(parts[1]).value;
        if hours > 23 then Resume(UserStates.HourError)
        else if minutes > 59 then Resume(UserStates.MinuteError)
        else
          var (raw, text) := Offset(hours, minutes, u.utcMinutes);
          SetterResult(SetExperience, [(VarTimezoneRaw, raw), (VarTimezoneTxt, text)],
            [SendText(LegacySurvey.TimezonePrefix + text, [])], !writeOk)
  }

  /**
   * The time setter moves on exactly for the texts `timeValidator` accepts,
   * and then stores the computed offset and its text.
   */
  lemma TimezoneSetterFollowsValidator(u: Update, t: Table, writeOk: bool)
    ensures var r := TimezoneSetter(u, t, writeOk);
      (r.next != ResumeState <==> UserStates.TimeValidator(u.text) == "")
      && (r.next != ResumeState ==>
            var parts := Split(u.text, ':');
            var (raw, text) := Offset(ParseInt(parts[0]).value, ParseInt(parts[1]).value, u.utcMinutes);
            r.next == SetExperience && r.writes == [(VarTimezoneRaw, raw), (VarTimezoneTxt, text)]
            && (r.failed <==> !writeOk))
  {
    if u.text == "" {
      assert !UserStates.MatchesTimePattern(u.text);
    }
  }

  /** The stored shift always reads back as an integer with `strconv.Atoi`. */
  lemma StoredShiftParses(h: int, m: int, utc: int)
    ensures ParseInt(Offset(h, m, utc).0).Some?
  {
    var delta := LegacySurvey.LegacyClockDelta(h, m, utc);
    var d := match UserStates.ParseMinutes(delta) case Some(x) => x case None => 0;
    var minutes := Quot(UserStates.RoundHalfHour(d), 60_000_000_000);
    assert Offset(h, m, utc).0 == IntToString(minutes);
    ParseIntToString(minutes);
  }

  // --------------------------------------------------- the experience setter

  /** The experience setter: a listed answer (any case) ends the survey with `ResetState`. */
  function ExperienceSetter(u: Update, t: Table, writeOk: bool): (r: SetterResult)
    ensures r.next != ResumeState <==> u.text != "" && ToLower(u.text) in LegacySurvey.ExperienceVariants
    ensures r.next != ResumeState ==>
      && r.next == ResetStateName && r.writes == [] && !r.failed
      && r.sends == [SendText(LegacySurvey.RegisteredText, [])]
  {
    if u.text == "" then Resume(LegacySurvey.ChooseVariant)
    else if ToLower(u.text) !in LegacySurvey.ExperienceVariants then Resume(LegacySurvey.ChooseVariant)
    else SetterResult(ResetStateName, [], [SendText(LegacySurvey.RegisteredText, [])], false)
  }

  // ------------------------------------------------------- registration

  /** The state pool `setupStates` registers, over the given question texts. */
  function BotPool(title: string -> string, q: LegacySurvey.Questions): (pool: map<string, State>)
    ensures pool.Keys == {StartSurvey, SetAge, SetCity, SetTimezone, SetExperience}
    ensures pool[StartSurvey].onTrigger == q.name && pool[SetAge].onTrigger == q.age
    ensures pool[SetExperience].extra == LegacySurvey.ExperienceVariants
  {
    map[
      StartSurvey := State(q.name, [], NameSetter),
      SetAge := State(q.age, [], AgeSetter),
      SetCity := State(q.city, [], (u: Update, t: Table, ok: bool) => CitySetter(title, u, t, ok)),
      SetTimezone := State(q.time, [], TimezoneSetter),
      SetExperience := State(q.experience, LegacySurvey.ExperienceVariants, ExperienceSetter)]
  }

  /** `setupStates`: a fresh engine over the table with the five survey states. */
  method SetupStates(db: Table, title: string -> string) returns (fsm: Fsm)
    ensures fresh(fsm)
    ensures fsm.rows == db && fsm.statePool == BotPool(title, BotQuestions)
  {
    var q := BotQuestions;
    var pool := BotPool(title, q);
    fsm := new Fsm(db);
    var _ := fsm.AddState(StartSurvey, q.name, NameSetter, []);
    var _ := fsm.AddState(SetAge, q.age, AgeSetter, []);
    var _ := fsm.AddState(SetCity, q.city, pool[SetCity].setter, []);
    var _ := fsm.AddState(SetTimezone, q.time, TimezoneSetter, []);
    var _ := fsm.AddState(SetExperience, q.experience, ExperienceSetter, LegacySurvey.ExperienceVariants);
  }

  /**
   * A valid name is stored as typed and the user is asked for their age;
   * unlike states.go, the survey moves on.
   */
  lemma NameAdvances(title: string -> string, q: LegacySurvey.Questions, t: Table, u: Update)
    requires u.userID in t && ReadState(t, u.userID) == StartSurvey
    requires u.text != "" && UserStates.MatchesNamePattern(u.text)
    ensures var (t', failed, out) := UpdateEffect(BotPool(title, q), t, u, AllOk);
      && !failed
      && ReadState(t', u.userID) == SetAge
      && ReadVar(t', u.userID, VarName) == (u.text, true)
      && out == [SendText(q.age, [])]
  {
    var pool := BotPool(title, q);
    var r := NameSetter(u, t, true);
    assert pool[StartSurvey].setter(u, t, true) == r;
    var w := WriteVar(t, u.userID, VarName, u.text);
    assert r.writes[1..] == [];
    assert ApplyWrites(t, u.userID, r.writes) == ApplyWrites(w, u.userID, []) == w;
  }

  // ------------------------------------------------------------ /start

  /** The `/start` handler: a registered user is welcomed back, anyone else starts the survey. */
  ghost function StartEffect(pool: map<string, State>, t: Table, userID: int, inDatabase: bool, db: Db): (Table, bool, seq<Message>)
  {
    if inDatabase then (t, false, [ReplyText(WelcomeBack)])
    else TriggerEffect(pool, t, userID, StartSurvey, db)
  }

  /** `/start` on the engine; `UserIsInDatabase` is the parameter `inDatabase`. */
  method Start(fsm: Fsm, userID: int, inDatabase: bool, db: Db) returns (failed: bool, out: seq<Message>)
    modifies fsm
    ensures (fsm.rows, failed, out) == StartEffect(old(fsm.statePool), old(fsm.rows), userID, inDatabase, db)
    ensures fsm.statePool == old(fsm.statePool)
  {
    if inDatabase {
      return false, [ReplyText(WelcomeBack)];
    }
    failed, out := fsm.TriggerState(userID, StartSurvey, db);
  }

  /**
   * A registered user only gets the reply and keeps their state; anyone
   * else is put at the first question and sent it.
   */
  lemma StartRouting(title: string -> string, q: LegacySurvey.Questions, t: Table, userID: int, inDatabase: bool)
    ensures var (t', failed, out) := StartEffect(BotPool(title, q), t, userID, inDatabase, AllOk);
      && !failed
      && (inDatabase ==> t' == t && out == [ReplyText(WelcomeBack)])
      && (!inDatabase ==> ReadState(t', userID) == StartSurvey && out == [SendText(q.name, [])])
  {
    if !inDatabase {
      ReadAfterWriteState(t, userID, StartSurvey, userID);
    }
  }
}
