/**
 * The registration survey of states.go on the engine of FSM.go: name, age,
 * city, local time and singing experience, one state each. `cases.Title`
 * is a parameter; the UTC time of day is carried by the update.
 */
module LegacySurvey {
  import opened Wrappers
  import opened Text
  import opened StateStore
  import UserStates
  import opened LegacyFsm

  const SurveySGStartSurveyReqName: string := "SurveyStateGroup_StartSurveyReqName"
  const SurveySGSetAge: string := "SurveyStateGroup_SetAge"
  const SurveySGSetCity: string := "SurveyStateGroup_SetCity"
  const SurveySGSetTimezone: string := "SurveyStateGroup_SetTimezone"
  const SurveySGSetExperience: string := "SurveyStateGroup_SetExperience"

  const SurveySGVarName: string := "Name"
  const SurveySGVarAge: string := "Age"
  const SurveySGVarCity: string := "City"
  const SurveySGVarTimezoneRaw: string := "TimezoneRaw"
  const SurveySGVarTimezoneStr: string := "TimezoneTxt"

  const ExperienceVariants: seq<string> := ["без опыта", "менее 1 года", "1-2 года", "2-3 года", "3-5 лет", "более 5 лет"]

  const AskName: string := "Привет! Чтобы пользоваться ботом надо сначала пройти опрос из нескольких вопросов.\n\n(1/5) Назови, пожалуйста, своё имя?"
  const AskAge: string := "(2/5) Теперь скажи, сколько тебе лет?"
  const AskCity: string := "(3/5) Отлично! А в каком городе живешь?"
  const AskTime: string := "(4/5) Сколько сейчас времени по твоим часам? Надо написать часы:минуты, например, 23:15. Это надо чтобы понять в каком часовом поясе ты находишься."
  const AskExperience: string := "(5/5) Сколько занимаешься вокалом?"

  const CantRecognize: string := "Не могу распознать ответ. Попробуй еще раз =)"
  const AgeError: string := "Возраст должен быть числом больше нуля, попробуй еще раз =)"
  const TooOldText: string := "Да ты совсем взрослый! Давай по-чесноку, сколько лет?"
  const PartsError: string := "Не могу распознать ответ. Надо указать только часы и минуты формате ЧЧ:ММ, например, 20:55"
  const ChooseVariant: string := "Не могу распознать ответ. Выбери вариант из списка"
  const GreetingFormat: string := "Приятно познакомиться, %s"
  const TimezonePrefix: string := "Получается, твой часовой пояс - "
  const RegisteredText: string := "Спасибо! Ты зарегистрирован в системе бота и теперь тебе доступна его функциональность!"

  // ------------------------------------------------------ Go error values

  /** A Go `error`: nil, a plain error, or a `*multierror.Error` with its list. */
  datatype GoError = NilError | Plain | Multi(errors: seq<GoError>)

  function WriteError(writeOk: bool): GoError
  {
    if writeOk then NilError else Plain
  }

  function NonNil(errs: seq<GoError>): (r: seq<GoError>)
    ensures forall e | e in r :: e != NilError
    ensures |r| == 0 <==> forall i | 0 <= i < |errs| :: errs[i] == NilError
  {
    if |errs| == 0 then []
    else (if errs[0] == NilError then [] else [errs[0]]) + NonNil(errs[1..])
  }

  /**
   * `multierror.Append(err, errs...)`: the non-nil errors collected into a
   * `*multierror.Error`, which is a non-nil `error` even when it holds none.
   */
  function Append(err: GoError, errs: seq<GoError>): (r: GoError)
    ensures r.Multi? && r != NilError
    ensures |r.errors| == 0 <==> (err.Multi? ==> |err.errors| == 0) && (!err.Multi? ==> err == NilError)
                                 && forall i | 0 <= i < |errs| :: errs[i] == NilError
  {
    match err
    case Multi(es) => Multi(es + NonNil(errs))
    case _ => Multi(NonNil([err] + errs))
  }

  /** `(*multierror.Error).ErrorOrNil()`: nil for an empty list. */
  function ErrorOrNil(e: GoError): (r: GoError)
    ensures r == NilError <==> e == NilError || (e.Multi? && |e.errors| == 0)
  {
    if e.Multi? && |e.errors| == 0 then NilError else e
  }

  // ------------------------------------------------------------- setters

  function Resume(message: string): SetterResult
  {
    SetterResult(ResumeState, [], [SendText(message, [])], false)
  }

  /**
   * The name setter: the untrimmed text must hold a pattern match; the
   * title-cased name is stored and greeted. The error returned is
   * `multierror.Append(storeErr, sendErr)`, as written.
   */
  function NameSetter(title: string -> string, u: Update, t: Table, writeOk: bool): (r: SetterResult)
    ensures r.next == ResumeState <==> u.text == "" || !UserStates.MatchesNamePattern(u.text)
    ensures r.next != ResumeState ==>
      r.next == SurveySGSetAge && r.writes == [(SurveySGVarName, title(u.text))] && r.failed
  {
    if u.text == "" then Resume(CantRecognize)
    else if !UserStates.MatchesNamePattern(u.text) then Resume(UserStates.NameError)
    else
      var name := title(u.text);
      var err := Append(WriteError(writeOk), [NilError]);
      SetterResult(SurveySGSetAge, [(SurveySGVarName, name)], [SendText(GreetingFormat, [name])], err != NilError)
  }

  /** The name setter returning `ErrorOrNil()` of the same collected errors. */
  function FixedNameSetter(title: string -> string, u: Update, t: Table, writeOk: bool): (r: SetterResult)
    ensures r.next == ResumeState <==> u.text == "" || !UserStates.MatchesNamePattern(u.text)
    ensures r.next != ResumeState ==>
      r.next == SurveySGSetAge && r.writes == [(SurveySGVarName, title(u.text))] && (r.failed <==> !writeOk)
  {
    if u.text == "" then Resume(CantRecognize)
    else if !UserStates.MatchesNamePattern(u.text) then Resume(UserStates.NameError)
    else
      var name := title(u.text);
      var err := ErrorOrNil(Append(WriteError(writeOk), [NilError]));
      SetterResult(SurveySGSetAge, [(SurveySGVarName, name)], [SendText(GreetingFormat, [name])], err != NilError)
  }

  /** The age setter: an integer from 1 to 100, stored as typed. */
  function AgeSetter(u: Update, t: Table, writeOk: bool): (r: SetterResult)
    ensures r.next != ResumeState <==> ParseInt(u.text).Some? && 1 <= ParseInt(u.text).value <= 100
    ensures r.next != ResumeState ==>
      r.next == SurveySGSetCity && r.writes == [(SurveySGVarAge, u.text)] && (r.failed <==> !writeOk)
  {
    if u.text == "" then Resume(CantRecognize)
    else
      match ParseInt(u.text)
      case None => Resume(AgeError)
      case Some(age) =>
        if age <= 0 then Resume(AgeError)
        else if age > 100 then Resume(TooOldText)
        else SetterResult(SurveySGSetCity, [(SurveySGVarAge, u.text)], [], !writeOk)
  }

  /** The city setter: the same pattern as the name, stored title-cased. */
  function CitySetter(title: string -> string, u: Update, t: Table, writeOk: bool): (r: SetterResult)
    ensures r.next != ResumeState <==> u.text != "" && UserStates.MatchesNamePattern(u.text)
    ensures r.next != ResumeState ==>
      r.next == SurveySGSetTimezone && r.writes == [(SurveySGVarCity, title(u.text))] && (r.failed <==> !writeOk)
  {
    if u.text == "" then Resume(CantRecognize)
    else if !UserStates.MatchesNamePattern(u.text) then Resume(UserStates.CityError)
    else SetterResult(SurveySGSetTimezone, [(SurveySGVarCity, title(u.text))], [], !writeOk)
  }

  // ------------------------------------------------ the offset, no day edge

  /** What `"%f"` prints after the integer part of a whole number, followed by the stray `.0f`. */
  const ShiftSuffix: string := ".000000.0f"

  /** `fmt.Sprintf("%f.0f", minutes)` of a whole number of minutes. */
  function ShiftAsWritten(minutes: int): string
  {
    IntToString(minutes) + ShiftSuffix
  }

  /** `fmt.Sprintf("%.0f", minutes)`, the spelling a later `Atoi` can read. */
  function ShiftCorrected(minutes: int): string
  {
    IntToString(minutes)
  }

  /** The offset of a delta in minutes: parse, round to half an hour, render; the shift as `"%f.0f"` prints it. */
  function LegacyOfDelta(delta: int): Result<UserStates.Timezone>
    requires MinInt64 <= delta <= MaxInt64
  {
    match UserStates.ParseMinutes(delta)
    case None => Err("calcTimezoneByTimeshift: time: invalid duration")
    case Some(d) =>
      var rounded := UserStates.RoundHalfHour(d);
      Ok(UserStates.Timezone(UserStates.OffsetText(rounded), ShiftAsWritten(Quot(rounded, 60_000_000_000))))
  }

  /**
   * The local minute of the day less the UTC one, in 64-bit `int`
   * arithmetic, with no wrap at the day edge (states.go and bot.go alike).
   */
  function LegacyClockDelta(userHours: int, userMinutes: int, utcMinutes: int): (delta: int)
    ensures MinInt64 <= delta <= MaxInt64
  {
    Wrap64(Wrap64(userMinutes + Wrap64(userHours * 60)) - utcMinutes)
  }

  /** `calcTimezoneByTimeShift` of states.go. */
  function LegacyCalc(userHours: int, userMinutes: int, utcMinutes: int): Result<UserStates.Timezone>
  {
    LegacyOfDelta(LegacyClockDelta(userHours, userMinutes, utcMinutes))
  }

  /** Per delta, the computation is that of user_states.go with the shift spelled differently. */
  lemma LegacyMatchesTimezoneOf(delta: int)
    requires MinInt64 <= delta <= MaxInt64
    ensures LegacyOfDelta(delta).Ok? <==> UserStates.TimezoneOf(delta).Ok?
    ensures LegacyOfDelta(delta).Ok? ==>
      && LegacyOfDelta(delta).value.text == UserStates.TimezoneOf(delta).value.text
      && LegacyOfDelta(delta).value.shift == UserStates.TimezoneOf(delta).value.shift + ShiftSuffix
  {
  }

  /** For moderate hours and minutes no 64-bit wrap-around happens. */
  lemma LegacyDelta(h: int, m: int, utc: int)
    requires -10_000 <= h <= 10_000 && -10_000 <= m <= 10_000 && 0 <= utc < UserStates.MinutesPerDay
    ensures LegacyClockDelta(h, m, utc) == h * 60 + m - utc
  {
    assert Wrap64(h * 60) == h * 60;
    assert Wrap64(m + h * 60) == m + h * 60;
  }

  /**
   * The offset for hours and minutes of moderate size: the difference
   * rounded to a whole number `s` of half hours (within a quarter hour),
   * spelled `UTC`, `-` iff `s` is negative, then `|s|` as hours and minutes.
   */
  lemma LegacyCalcOfMinutes(h: int, m: int, utc: int) returns (s: int)
    requires -10_000 <= h <= 10_000 && -10_000 <= m <= 10_000 && 0 <= utc < UserStates.MinutesPerDay
    ensures LegacyCalc(h, m, utc) ==
      Ok(UserStates.Timezone(UserStates.OffsetSpelled(s < 0, Abs(s) / 60, Abs(s) % 60), ShiftAsWritten(s)))
    ensures s % 30 == 0 && -15 <= s - (h * 60 + m - utc) <= 15
  {
    var delta := h * 60 + m - utc;
    LegacyDelta(h, m, utc);
    assert LegacyCalc(h, m, utc) == LegacyOfDelta(delta);
    s := UserStates.TimezoneOfMinutes(delta);
    LegacyMatchesTimezoneOf(delta);
    var l := LegacyOfDelta(delta);
    assert l.Ok? && l.value.text == UserStates.OffsetSpelled(s < 0, Abs(s) / 60, Abs(s) % 60);
    assert l.value.shift == ShiftAsWritten(s);
  }

  /**
   * Where the clock difference needs no wrap, the offset text is the one
   * user_states.go computes.
   */
  lemma LegacyCalcWithoutDayEdge(h: int, m: int, utc: int)
    requires 0 <= h <= 23 && 0 <= m <= 59 && 0 <= utc < UserStates.MinutesPerDay
    requires UserStates.MinShift <= h * 60 + m - utc <= UserStates.MaxShift
    ensures LegacyCalc(h, m, utc).Ok? && UserStates.CalcTimezoneByTimeShift(h, m, utc).Ok?
    ensures LegacyCalc(h, m, utc).value.text == UserStates.CalcTimezoneByTimeShift(h, m, utc).value.text
  {
    var delta := h * 60 + m - utc;
    LegacyDelta(h, m, utc);
    UserStates.ClockDeltaOfClockTime(h, m, utc);
    assert UserStates.DayEdge(delta) == delta;
    var _ := UserStates.TimezoneOfMinutes(delta);
    LegacyMatchesTimezoneOf(delta);
  }

  /**
   * With no wrap at the day edge, a clock difference beyond +14:15 (23:00
   * local at midnight UTC, say) yields an offset past +14:00, outside the
   * range user_states.go keeps to.
   */
  lemma LegacyCalcBeyondRange(h: int, m: int, utc: int) returns (s: int)
    requires 0 <= h <= 23 && 0 <= m <= 59 && 0 <= utc < UserStates.MinutesPerDay
    requires h * 60 + m - utc > UserStates.MaxShift + 15
    ensures s > UserStates.MaxShift
    ensures LegacyCalc(h, m, utc) ==
      Ok(UserStates.Timezone(UserStates.OffsetSpelled(false, s / 60, s % 60), ShiftAsWritten(s)))
  {
    s := LegacyCalcOfMinutes(h, m, utc);
  }

  /** The shift as written holds a `.`, so `strconv.Atoi` never reads it back. */
  lemma ShiftAsWrittenNeverParses(minutes: int)
    ensures ParseInt(ShiftAsWritten(minutes)).None?
  {
    var s := ShiftAsWritten(minutes);
    assert s[|IntToString(minutes)|] == '.';
    if ParseInt(s).Some? {
      ParseIntHasNo(s, '.');
    }
  }

  /** The corrected spelling reads back as the same number. */
  lemma ShiftCorrectedParses(minutes: int)
    requires MinInt64 <= minutes <= MaxInt64
    ensures ParseInt(ShiftCorrected(minutes)) == Some(minutes)
  {
    ParseIntToString(minutes);
  }

  // ------------------------------------------------------- the time setter

  /** The offset computation the time setter calls; `LegacyCalc` in the registered survey. */
  type Calc = (int, int, int) -> Result<UserStates.Timezone>

  /**
   * The local-time setter: the checks of `timeValidator` in the same order
   * (with its own message for a wrong number of parts), then the offset;
   * both values are stored and the offset announced. The error returned is
   * `multierror.Append(err1, err2, err3)`, as written.
   */
  function TimezoneSetter(offsetOf: Calc, u: Update, t: Table, writeOk: bool): SetterResult
  {
    if u.text == "" then Resume(CantRecognize)
    else if !UserStates.MatchesTimePattern(u.text) then Resume(UserStates.TimeFormatError)
    else
      var parts := Split(u.text, ':');
      if |parts| != 2 then Resume(PartsError)
      else
        match (ParseInt(parts[0]), ParseInt(parts[1]))
        case (Some(hours), Some(minutes)) =>
          if hours > 23 then Resume(UserStates.HourError)
          else if minutes > 59 then Resume(UserStates.MinuteError)
          else
            (match offsetOf(hours, minutes, u.utcMinutes)
             case Err(_) => Resume(UserStates.TimeFormatError)
             case Ok(tz) =>
               var err := Append(WriteError(writeOk), [WriteError(writeOk), NilError]);
               SetterResult(SurveySGSetExperience,
                 [(SurveySGVarTimezoneRaw, tz.shift), (SurveySGVarTimezoneStr, tz.text)],
                 [SendText(TimezonePrefix + tz.text, [])],
                 err != NilError))
        case _ => Resume(UserStates.TimeFormatError)
  }

  /**
   * The time setter moves on exactly for the texts `timeValidator` accepts
   * whose offset computes; when it does, it reports an error all the same.
   */
  lemma TimezoneSetterFollowsValidator(offsetOf: Calc, u: Update, t: Table, writeOk: bool)
    ensures var r := TimezoneSetter(offsetOf, u, t, writeOk);
      (r.next != ResumeState <==>
        && UserStates.TimeValidator(u.text) == ""
        && var parts := Split(u.text, ':');
           offsetOf(ParseInt(parts[0]).value, ParseInt(parts[1]).value, u.utcMinutes).Ok?)
      && (r.next != ResumeState ==> r.next == SurveySGSetExperience && r.failed)
  {
    if u.text == "" {
      assert !UserStates.MatchesTimePattern(u.text);
    }
  }

  // --------------------------------------------------- the experience setter

  /** `values[key]` of a Go map: the empty string when missing. */
  function Get(values: map<string, string>, key: string): string
  {
    if key in values then values[key] else ""
  }

  /**
   * Every check of the closing step passes: the five variables are there,
   * the age and the shift read as integers, and the `users` insert works.
   * Each failed check is appended to `mErr`, which starts nil.
   */
  predicate SurveyComplete(values: map<string, string>, writeOk: bool)
  {
    && SurveySGVarName in values && SurveySGVarAge in values && SurveySGVarCity in values
    && SurveySGVarTimezoneStr in values && SurveySGVarTimezoneRaw in values
    && ParseInt(Get(values, SurveySGVarAge)).Some?
    && ParseInt(Get(values, SurveySGVarTimezoneRaw)).Some?
    && writeOk
  }

  /** The experience setter: a listed answer (any case) closes the survey with `ResetState`. */
  function ExperienceSetter(u: Update, t: Table, writeOk: bool): (r: SetterResult)
    ensures r.next != ResumeState <==> u.text != "" && ToLower(u.text) in ExperienceVariants
    ensures r.next != ResumeState ==> r.next == ResetStateName && r.writes == []
  {
    if u.text == "" then Resume(ChooseVariant)
    else if ToLower(u.text) !in ExperienceVariants then Resume(ChooseVariant)
    else
      var values := match ReadVars(t, u.userID) case Some(v) => v case None => map[];
      SetterResult(ResetStateName, [], [SendText(RegisteredText, [])], !SurveyComplete(values, writeOk))
  }

  /** The answer is lower-cased before the lookup, so a capitalised variant is accepted. */
  lemma CapitalisedVariantAccepted(u: Update, t: Table, writeOk: bool)
    requires u.text == "Без опыта"
    ensures ExperienceSetter(u, t, writeOk).next == ResetStateName
  {
    assert ToLower(u.text) == "без опыта";
  }

  /**
   * A shift stored by the time setter as written never reads as an integer,
   * so the closing step always reports an error.
   */
  lemma ExperienceFailsAfterTimezone(u: Update, t: Table, writeOk: bool, minutes: int)
    requires u.userID in t && t[u.userID].vars[SurveySGVarTimezoneRaw := ShiftAsWritten(minutes)] == t[u.userID].vars
    requires u.text != "" && ToLower(u.text) in ExperienceVariants
    ensures ExperienceSetter(u, t, writeOk).failed
  {
    ShiftAsWrittenNeverParses(minutes);
    assert Get(t[u.userID].vars, SurveySGVarTimezoneRaw) == ShiftAsWritten(minutes);
  }

  // ------------------------------------------------------- registration

  /** The five questions, one per state; `SurveyQuestions` holds the texts states.go registers. */
  datatype Questions = Questions(name: string, age: string, city: string, time: string, experience: string)

  const SurveyQuestions: Questions := Questions(AskName, AskAge, AskCity, AskTime, AskExperience)

  /** The state pool `setupSurveyStateGroup` registers, over the given question texts. */
  function SurveyPool(title: string -> string, q: Questions): (pool: map<string, State>)
    ensures pool.Keys == {SurveySGStartSurveyReqName, SurveySGSetAge, SurveySGSetCity, SurveySGSetTimezone, SurveySGSetExperience}
    ensures pool[SurveySGStartSurveyReqName].onTrigger == q.name && pool[SurveySGSetAge].onTrigger == q.age
    ensures pool[SurveySGSetExperience].extra == ExperienceVariants
  {
    map[
      SurveySGStartSurveyReqName := State(q.name, [], (u: Update, t: Table, ok: bool) => NameSetter(title, u, t, ok)),
      SurveySGSetAge := State(q.age, [], AgeSetter),
      SurveySGSetCity := State(q.city, [], (u: Update, t: Table, ok: bool) => CitySetter(title, u, t, ok)),
      SurveySGSetTimezone := State(q.time, [], (u: Update, t: Table, ok: bool) => TimezoneSetter(LegacyCalc, u, t, ok)),
      SurveySGSetExperience := State(q.experience, ExperienceVariants, ExperienceSetter)]
  }

  /** `SetupStates`: a fresh engine over the table with the five survey states. */
  method SetupStates(db: Table, title: string -> string) returns (fsm: Fsm)
    ensures fresh(fsm)
    ensures fsm.rows == db && fsm.statePool == SurveyPool(title, SurveyQuestions)
  {
    var q := SurveyQuestions;
    var pool := SurveyPool(title, q);
    fsm := new Fsm(db);
    var _ := fsm.AddState(SurveySGStartSurveyReqName, q.name, pool[SurveySGStartSurveyReqName].setter, []);
    var _ := fsm.AddState(SurveySGSetAge, q.age, AgeSetter, []);
    var _ := fsm.AddState(SurveySGSetCity, q.city, pool[SurveySGSetCity].setter, []);
    var _ := fsm.AddState(SurveySGSetTimezone, q.time, pool[SurveySGSetTimezone].setter, []);
    var _ := fsm.AddState(SurveySGSetExperience, q.experience, ExperienceSetter, ExperienceVariants);
  }

  /**
   * As written, no answer moves a user past the first question: a valid
   * name makes the setter return an error (the non-nil `multierror`), and
   * anything else makes it return `ResumeState`, which the engine fails to
   * trigger.
   */
  lemma SurveyStuckAtName(title: string -> string, q: Questions, t: Table, u: Update, db: Db)
    requires db.readOk && ReadState(t, u.userID) == SurveySGStartSurveyReqName
    ensures ReadState(UpdateEffect(SurveyPool(title, q), t, u, db).0, u.userID) == SurveySGStartSurveyReqName
  {
    var pool := SurveyPool(title, q);
    var r := pool[SurveySGStartSurveyReqName].setter(u, t, db.writeOk);
    assert r == NameSetter(title, u, t, db.writeOk);
    if r.failed {
      SetterErrorKeepsState(pool, t, u, db);
    } else {
      ResumeIsAnError(pool, t, u, db);
    }
  }

  /** The survey with the corrected name setter. */
  function FixedSurveyPool(title: string -> string, q: Questions): map<string, State>
  {
    SurveyPool(title, q)[SurveySGStartSurveyReqName :=
      State(q.name, [], (u: Update, t: Table, ok: bool) => FixedNameSetter(title, u, t, ok))]
  }

  /**
   * With `ErrorOrNil`, a valid name is stored title-cased and the user is
   * asked for their age.
   */
  lemma FixedNameAdvances(title: string -> string, q: Questions, t: Table, u: Update)
    requires u.userID in t && ReadState(t, u.userID) == SurveySGStartSurveyReqName
    requires u.text != "" && UserStates.MatchesNamePattern(u.text)
    ensures var (t', failed, out) := UpdateEffect(FixedSurveyPool(title, q), t, u, AllOk);
      && !failed
      && ReadState(t', u.userID) == SurveySGSetAge
      && ReadVar(t', u.userID, SurveySGVarName) == (title(u.text), true)
      && out[|out| - 1] == SendText(q.age, [])
  {
    var pool := FixedSurveyPool(title, q);
    var r := pool[SurveySGStartSurveyReqName].setter(u, t, true);
    assert r == FixedNameSetter(title, u, t, true);
    var w := WriteVar(t, u.userID, SurveySGVarName, title(u.text));
    assert r.writes[1..] == [];
    assert ApplyWrites(t, u.userID, r.writes) == ApplyWrites(w, u.userID, []) == w;
  }
}
