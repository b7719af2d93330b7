/**
 * The validators of the user survey and settings dialogs (name, city, local
 * time) and the conversion of a local wall-clock time into a UTC offset
 * (`calcTimezoneByTimeShift`). The current UTC time of day is a parameter.
 */
module UserStates {
  import opened Wrappers
  import opened Text

  // ------------------------------------------------------------ messages

  const NameError: string := "Имя должно включать только русские или английские буквы и быть 2 - 50 символов"
  const CityError: string := "Не могу распознать ответ. Попробуй еще раз!"
  const TimeFormatError: string := "Не могу распознать ответ. Надо написать в формате ЧЧ:ММ, например, 20:55"
  const HourError: string := "Максимальный час - 23. Надо написать в формате ЧЧ:ММ, например, 20:55"
  const MinuteError: string := "Максимальная минута - 59. Надо написать в формате ЧЧ:ММ, например, 20:55"

  // ------------------------------------------------------ name and city

  /** The character class `[ЁёА-яA-Za-z ]`. */
  predicate IsNameChar(c: char)
  {
    c == 'Ё' || c == 'ё' || ('А' <= c <= 'я') || ('A' <= c <= 'Z') || ('a' <= c <= 'z') || c == ' '
  }

  /** Two neighbouring characters of the class start at `i`. */
  predicate NamePairAt(s: string, i: int)
  {
    0 <= i && i + 1 < |s| && IsNameChar(s[i]) && IsNameChar(s[i + 1])
  }

  /**
   * `MatchString` of the unanchored `[ЁёА-яA-Za-z ]{2,50}`: a match exists
   * exactly when two neighbouring characters are in the class.
   */
  predicate MatchesNamePattern(s: string)
  {
    exists i | 0 <= i < |s| :: NamePairAt(s, i)
  }

  /** The check shared by `nameValidator` and `cityValidator`, on the trimmed text. */
  predicate PassesNamePattern(text: string)
  {
    MatchesNamePattern(TrimSpace(text))
  }

  /** `nameValidator`: "" accepts, anything else is the message sent back. */
  function NameValidator(text: string): string
  {
    if PassesNamePattern(text) then "" else NameError
  }

  /** `cityValidator`. */
  function CityValidator(text: string): string
  {
    if PassesNamePattern(text) then "" else CityError
  }

  /** Letters of the class, that is, the class without the space. */
  predicate IsNameLetter(c: char)
  {
    IsNameChar(c) && c != ' '
  }

  /**
   * Two neighbouring letters anywhere make the text pass, however long it
   * is and whatever surrounds them: the `50` of the pattern is no limit.
   */
  lemma LetterPairPasses(pre: string, a: char, b: char, post: string)
    requires IsNameLetter(a) && IsNameLetter(b)
    ensures PassesNamePattern(pre + [a, b] + post)
  {
    var s := pre + [a, b] + post;
    var k := LeadingSpaces(s);
    var t := TrimSpace(s);
    assert s[|pre|] == a && s[|pre| + 1] == b;
    assert k <= |pre|;
    assert |pre| + 1 < k + |t|;
    assert t[|pre| - k] == a && t[|pre| - k + 1] == b;
    assert NamePairAt(t, |pre| - k);
  }

  /** A text that passes holds two neighbouring characters of the class. */
  lemma PassingHasPair(text: string)
    requires PassesNamePattern(text)
    ensures exists i | 0 <= i < |text| :: NamePairAt(text, i)
  {
    var t := TrimSpace(text);
    var k := LeadingSpaces(text);
    var i :| 0 <= i < |t| && NamePairAt(t, i);
    assert text[k + i] == t[i] && text[k + i + 1] == t[i + 1];
    assert NamePairAt(text, k + i);
  }

  /** White space alone, which trimming removes, never passes. */
  lemma BlankFails(text: string)
    requires forall i | 0 <= i < |text| :: IsSpace(text[i])
    ensures NameValidator(text) == NameError && CityValidator(text) == CityError
  {
    assert |TrimSpace(text)| == 0;
  }

  // ------------------------------------------------------------- time

  /** Digit, `:`, digit, digit at `i`: where the unanchored `[0-9]?[0-9]:[0-9][0-9]` can match. */
  predicate TimeAt(s: string, i: int)
  {
    0 <= i && i + 3 < |s| && IsDigit(s[i]) && s[i + 1] == ':' && IsDigit(s[i + 2]) && IsDigit(s[i + 3])
  }

  predicate MatchesTimePattern(s: string)
  {
    exists i | 0 <= i < |s| :: TimeAt(s, i)
  }

  /**
   * `timeValidator`: the pattern, then exactly two `:`-separated parts, both
   * `Atoi`-parsable, then the hour bound, then the minute bound.
   */
  function TimeValidator(text: string): string
  {
    if !MatchesTimePattern(text) then TimeFormatError
    else
      var parts := Split(text, ':');
      if |parts| != 2 then TimeFormatError
      else
        match (ParseInt(parts[0]), ParseInt(parts[1]))
        case (Some(hours), Some(minutes)) =>
          if hours > 23 then HourError
          else if minutes > 59 then MinuteError
          else ""
        case _ => TimeFormatError
  }

  /** A text of the form hour part, `:`, minute part, where the pattern can only match at the colon. */
  predicate HourMinuteShape(hs: string, ms: string)
  {
    0 < |hs| && IsDigit(hs[|hs| - 1]) && 2 <= |ms| && IsDigit(ms[0]) && IsDigit(ms[1])
  }

  /**
   * For a text shaped "hours:minutes" whose parts parse, the hour bound is
   * checked before the minute bound, each with its own message.
   */
  lemma TimeVerdict(hs: string, ms: string)
    requires HourMinuteShape(hs, ms)
    requires ParseInt(hs).Some? && ParseInt(ms).Some?
    ensures var h, m := ParseInt(hs).value, ParseInt(ms).value;
      TimeValidator(hs + ":" + ms) == if h > 23 then HourError else if m > 59 then MinuteError else ""
  {
    var text := hs + ":" + ms;
    ParseIntHasNo(hs, ':');
    ParseIntHasNo(ms, ':');
    assert TimeAt(text, |hs| - 1);
    SplitTwo(hs, ':', ms);
  }

  /**
   * Whatever the validator accepts is "hours:minutes" with two parsable
   * parts, the hours at most 23 and the minutes between 0 and 59: the digit
   * the pattern needs after the only colon rules out a minus sign there.
   */
  lemma AcceptedTime(text: string)
    requires TimeValidator(text) == ""
    ensures var parts := Split(text, ':');
      |parts| == 2 && text == parts[0] + ":" + parts[1] && HourMinuteShape(parts[0], parts[1])
      && ParseInt(parts[0]).Some? && ParseInt(parts[0]).value <= 23
      && ParseInt(parts[1]).Some? && 0 <= ParseInt(parts[1]).value <= 59
  {
    var parts := Split(text, ':');
    var i :| 0 <= i < |text| && TimeAt(text, i);
    assert Join(parts, ':') == parts[0] + [':'] + Join(parts[1..], ':');
    assert parts[1..] == [parts[1]];
    var a, b := parts[0], parts[1];
    assert text == a + ":" + b;
    assert i + 1 == |a|;
    assert b[0] == text[i + 2] && b[1] == text[i + 3];
  }

  /** The hour may be negative: the unanchored pattern and `Atoi`'s sign let "-5:30" through. */
  lemma NegativeHourAccepted()
    ensures TimeValidator("-5:30") == ""
  {
    assert "-5:30" == "-5" + ":" + "30";
    assert ParseInt("-5") == Some(-5) by {
      assert "-5"[1..] == "5";
      assert DigitsValue("5") == 5 by {
        assert "5"[..0] == "";
      }
    }
    assert ParseInt("30") == Some(30) by {
      assert "30"[..1] == "3";
      assert "3"[..0] == "";
    }
    TimeVerdict("-5", "30");
  }

  /** Every `%02d:%02d` rendering of a time of day is accepted. */
  lemma ClockTimeAccepted(h: nat, m: nat)
    requires h <= 23 && m <= 59
    ensures TimeValidator(Pad2(h) + ":" + Pad2(m)) == ""
  {
    ParsePad2(h);
    ParsePad2(m);
    TimeVerdict(Pad2(h), Pad2(m));
  }

  // --------------------------------------------------- UTC offset

  // Durations are `int64` nanoseconds: a minute is 60_000_000_000, half an
  // hour 1_800_000_000_000 and an hour 3_600_000_000_000; they are written
  // out as literals so that the arithmetic on them stays linear.

  /** Minutes in a day, and the range the `timezone_raw` column accepts. */
  const MinutesPerDay: int := 1440
  const MinShift: int := -720
  const MaxShift: int := 840

  /**
   * `time.ParseDuration(fmt.Sprintf("%dm", minutes))` for an `int`: the
   * duration in nanoseconds, or an error once its magnitude passes `1<<63`
   * nanoseconds.
   */
  function ParseMinutes(minutes: int): (d: Option<int>)
    ensures d.Some? ==> MinInt64 <= d.value <= MaxInt64
    ensures d.Some? <==> -153_722_867 <= minutes <= 153_722_867
  {
    if Abs(minutes) > 0x8000_0000_0000_0000 / 60_000_000_000 then None
    else Some(minutes * 60_000_000_000)
  }

  /** `Duration.Round(30 * time.Minute)`, saturating at the ends of `int64`. */
  function RoundHalfHour(d: int): (r: int)
    requires MinInt64 <= d <= MaxInt64
    ensures MinInt64 <= r <= MaxInt64
  {
    var rem := d - Quot(d, 1_800_000_000_000) * 1_800_000_000_000;
    if d < 0 then
      var back := -rem;
      if back + back < 1_800_000_000_000 then d + back
      else if d - 1_800_000_000_000 + back >= MinInt64 then d - 1_800_000_000_000 + back
      else MinInt64
    else
      if rem + rem < 1_800_000_000_000 then d - rem
      else if d + 1_800_000_000_000 - rem <= MaxInt64 then d + 1_800_000_000_000 - rem
      else MaxInt64
  }

  /**
   * Away from the ends of `int64`, rounding gives the nearest multiple of
   * half an hour, a tie going away from zero.
   */
  lemma RoundHalfHourNearest(d: int)
    requires MinInt64 + 1_800_000_000_000 <= d <= MaxInt64 - 1_800_000_000_000
    ensures var r := RoundHalfHour(d);
      r % 1_800_000_000_000 == 0 && -1_800_000_000_000 <= 2 * (r - d) <= 1_800_000_000_000
      && (2 * (r - d) == 1_800_000_000_000 ==> d > 0)
      && (2 * (r - d) == -1_800_000_000_000 ==> d < 0)
  {
    if d >= 0 {
      assert d - Quot(d, 1_800_000_000_000) * 1_800_000_000_000 == d % 1_800_000_000_000;
    } else {
      assert -(d - Quot(d, 1_800_000_000_000) * 1_800_000_000_000) == (-d) % 1_800_000_000_000;
    }
  }

  /** `fmt.Sprintf("UTC%c%02d:%02d", sign, hours, minutes)`. */
  function OffsetSpelled(negative: bool, hours: nat, minutes: nat): string
  {
    "UTC" + (if negative then "-" else "+") + Pad2(hours) + ":" + Pad2(minutes)
  }

  /** The offset text: hours by truncating division, then the minutes left, both without sign. */
  function OffsetText(rounded: int): string
    requires MinInt64 <= rounded <= MaxInt64
  {
    var hours := Quot(rounded, 3_600_000_000_000);
    var minutes := Quot(rounded - hours * 3_600_000_000_000, 60_000_000_000);
    OffsetSpelled(rounded < 0, Abs(hours), Abs(minutes))
  }


  /** The wrap at the edge of the day: move a delta below -12h or above +14h by a day. */
  function DayEdge(delta: int): int
  {
    var d1 := if delta < MinShift then MinutesPerDay + delta else delta;
    if d1 > MaxShift then d1 - MinutesPerDay else d1
  }

  /** The offset text (`UTC+03:00`) and the stored shift in minutes (`180`). */
  datatype Timezone = Timezone(text: string, shift: string)

  /**
   * The first half of `calcTimezoneByTimeShift`: the local minute of the
   * day less the UTC one, in `int` arithmetic that wraps at 64 bits, moved
   * by a day at the day edge.
   */
  function ClockDelta(userHours: int, userMinutes: int, utcMinutes: int): (delta: int)
    requires MinInt64 <= userHours <= MaxInt64 && MinInt64 <= userMinutes <= MaxInt64
    requires 0 <= utcMinutes < MinutesPerDay
    ensures MinInt64 <= delta <= MaxInt64
  {
    DayEdge(Wrap64(Wrap64(userMinutes + Wrap64(userHours * 60)) - utcMinutes))
  }

  /** The second half: parse the delta as a duration, round it, and render the offset. */
  function TimezoneOf(delta: int): Result<Timezone>
    requires MinInt64 <= delta <= MaxInt64
  {
    match ParseMinutes(delta)
    case None => Err("calcTimezoneByTimeshift: time: invalid duration")
    case Some(d) =>
      var rounded := RoundHalfHour(d);
      Ok(Timezone(OffsetText(rounded), IntToString(Quot(rounded, 60_000_000_000))))
  }

  /** `calcTimezoneByTimeShift(userHours, userMinutes)` at UTC minute of the day `utcMinutes`. */
  function CalcTimezoneByTimeShift(userHours: int, userMinutes: int, utcMinutes: int): Result<Timezone>
    requires MinInt64 <= userHours <= MaxInt64 && MinInt64 <= userMinutes <= MaxInt64
    requires 0 <= utcMinutes < MinutesPerDay
  {
    TimezoneOf(ClockDelta(userHours, userMinutes, utcMinutes))
  }


  /** The wrapped delta of two minutes-of-day lies in the accepted range and agrees with their difference modulo a day. */
  lemma DayEdgeRange(user: int, utc: int)
    requires 0 <= user < MinutesPerDay && 0 <= utc < MinutesPerDay
    ensures MinShift <= DayEdge(user - utc) <= MaxShift
    ensures (DayEdge(user - utc) - (user - utc)) % MinutesPerDay == 0
  {
  }

  /** `s` is within a quarter of an hour of `x`, counting modulo a day. */
  predicate NearModDay(x: int, s: int)
  {
    (x - s) % MinutesPerDay <= 15 || (x - s) % MinutesPerDay >= MinutesPerDay - 15
  }

  lemma NearAfterDayEdge(x: int, s: int)
    requires -MinutesPerDay < x < MinutesPerDay
    requires -15 <= s - DayEdge(x) <= 15
    ensures NearModDay(x, s)
  {
    var y := x - s;
    if x < MinShift {
      assert -15 <= y + MinutesPerDay <= 15;
    } else if x > MaxShift {
      assert -15 <= y - MinutesPerDay <= 15;
    } else {
      assert -15 <= y <= 15;
    }
  }

  /** Whole minutes to whole hours and the minutes left, in nanoseconds. */
  lemma HoursOfMinutes(s: nat)
    ensures (s * 60_000_000_000) / 3_600_000_000_000 == s / 60
    ensures s * 60_000_000_000 - (s / 60) * 3_600_000_000_000 == (s % 60) * 60_000_000_000
    ensures ((s % 60) * 60_000_000_000) / 60_000_000_000 == s % 60
  {
    var q, r := s / 60, s % 60;
    assert s * 60_000_000_000 == q * 3_600_000_000_000 + r * 60_000_000_000;
  }

  /** The hour and minute fields `OffsetText` prints for a whole number `s` of minutes. */
  lemma OffsetFields(s: int)
    requires -2_000_000 <= s <= 2_000_000
    ensures var hours := Quot(s * 60_000_000_000, 3_600_000_000_000);
      Abs(hours) == Abs(s) / 60
      && Abs(Quot(s * 60_000_000_000 - hours * 3_600_000_000_000, 60_000_000_000)) == Abs(s) % 60
  {
    var a: int := Abs(s);
    var rounded := s * 60_000_000_000;
    HoursOfMinutes(a);
    var hours := Quot(rounded, 3_600_000_000_000);
    var rest := rounded - hours * 3_600_000_000_000;
    if s >= 0 {
      assert hours == a / 60;
      assert rest == (a % 60) * 60_000_000_000;
    } else {
      assert -rounded == a * 60_000_000_000;
      assert hours == -(a / 60);
      assert rest == -((a % 60) * 60_000_000_000);
    }
  }

  /** The text of a whole number `s` of minutes: its sign, then `|s|` as hours and minutes. */
  lemma OffsetTextOfMinutes(s: int)
    requires -2_000_000 <= s <= 2_000_000
    ensures OffsetText(s * 60_000_000_000) == OffsetSpelled(s < 0, Abs(s) / 60, Abs(s) % 60)
  {
    OffsetFields(s);
  }


  /**
   * For a valid clock time the offset is computed without error, lies in
   * the range the `timezone_raw` column accepts, is a whole number of half
   * hours within a quarter hour of the clock difference modulo a day, and
   * reads back from its text; the offset text spells it as `UTC±HH:MM`.
   */
  lemma TimezoneOfClockTime(h: int, m: int, utc: int)
    requires 0 <= h <= 23 && 0 <= m <= 59 && 0 <= utc < MinutesPerDay
    ensures var r := CalcTimezoneByTimeShift(h, m, utc);
      r.Ok? && ParseInt(r.value.shift).Some?
      && var s := ParseInt(r.value.shift).value;
      MinShift <= s <= MaxShift && s % 30 == 0
      && NearModDay(h * 60 + m - utc, s)
      && r.value.text == OffsetSpelled(s < 0, Abs(s) / 60, Abs(s) % 60)
  {
    var s := ClockShift(h, m, utc);
    ParseIntToString(s);
  }

  /** The value `CalcTimezoneByTimeShift` computes for a valid clock time, with its bounds. */
  lemma ClockShift(h: int, m: int, utc: int) returns (s: int)
    requires 0 <= h <= 23 && 0 <= m <= 59 && 0 <= utc < MinutesPerDay
    ensures CalcTimezoneByTimeShift(h, m, utc) == Ok(Timezone(OffsetSpelled(s < 0, Abs(s) / 60, Abs(s) % 60), IntToString(s)))
    ensures MinShift <= s <= MaxShift && s % 30 == 0 && MinInt64 <= s <= MaxInt64
    ensures NearModDay(h * 60 + m - utc, s)
  {
    var total := h * 60 + m;
    var delta := ClockDelta(h, m, utc);
    assert delta == DayEdge(total - utc) && MinShift <= delta <= MaxShift by {
      DayEdgeRange(total, utc);
      ClockDeltaOfClockTime(h, m, utc);
    }
    s := TimezoneOfMinutes(delta);
    assert CalcTimezoneByTimeShift(h, m, utc) == TimezoneOf(delta);
    RoundedInRange(delta, s);
    NearAfterDayEdge(total - utc, s);
  }

  /** Rounding to half an hour keeps a delta inside the range, whose ends are whole half hours. */
  lemma RoundedInRange(delta: int, s: int)
    requires MinShift <= delta <= MaxShift
    requires s % 30 == 0 && -15 <= s - delta <= 15
    ensures MinShift <= s <= MaxShift
  {
    var q := s / 30;
    assert s == 30 * q;
  }

  /** No wrap-around happens for a valid clock time. */
  lemma ClockDeltaOfClockTime(h: int, m: int, utc: int)
    requires 0 <= h <= 23 && 0 <= m <= 59 && 0 <= utc < MinutesPerDay
    ensures ClockDelta(h, m, utc) == DayEdge(h * 60 + m - utc)
  {
    var a := Wrap64(h * 60);
    assert a == h * 60;
    var b := Wrap64(m + a);
    assert b == h * 60 + m;
    var c := Wrap64(b - utc);
    assert c == h * 60 + m - utc;
  }

  /** The timezone of a delta of at most a million minutes: its rounding to half an hour, spelled out. */
  lemma TimezoneOfMinutes(delta: int) returns (s: int)
    requires -1_000_000 <= delta <= 1_000_000
    ensures TimezoneOf(delta) == Ok(Timezone(OffsetSpelled(s < 0, Abs(s) / 60, Abs(s) % 60), IntToString(s)))
    ensures s % 30 == 0 && -15 <= s - delta <= 15
  {
    s := RoundMinutes(delta);
    var d := delta * 60_000_000_000;
    assert ParseMinutes(delta) == Some(d);
    var rounded := RoundHalfHour(d);
    assert TimezoneOf(delta) == Ok(Timezone(OffsetText(rounded), IntToString(Quot(rounded, 60_000_000_000))));
    assert rounded == s * 60_000_000_000;
    assert Quot(rounded, 60_000_000_000) == s by {
      ScaleBack(s);
    }
    assert OffsetText(rounded) == OffsetSpelled(s < 0, Abs(s) / 60, Abs(s) % 60) by {
      OffsetTextOfMinutes(s);
    }
  }



  lemma ScaleBack(s: int)
    ensures Quot(s * 60_000_000_000, 60_000_000_000) == s
  {
    if s < 0 {
      assert -(s * 60_000_000_000) == (-s) * 60_000_000_000;
    }
  }

  /** Rounding a whole number of minutes to half an hour, stated in minutes. */
  lemma RoundMinutes(delta: int) returns (s: int)
    requires -1_000_000 <= delta <= 1_000_000
    ensures RoundHalfHour(delta * 60_000_000_000) == s * 60_000_000_000
    ensures s % 30 == 0 && -15 <= s - delta <= 15
    ensures 2 * (s - delta) == 30 ==> delta > 0
    ensures 2 * (s - delta) == -30 ==> delta < 0
  {
    var d := delta * 60_000_000_000;
    var r := RoundHalfHour(d);
    RoundHalfHourNearest(d);
    s := r / 60_000_000_000;
    var k := r / 1_800_000_000_000;
    assert r == k * 1_800_000_000_000;
    assert r == (30 * k) * 60_000_000_000;
    assert s == 30 * k;
  }

  // ------------------------------------------- the saver after the validator

  /**
   * The offset `timezoneSaver` computes from a text the validator accepted:
   * the two parts as hours and minutes, then `calcTimezoneByTimeShift`.
   */
  function SavedTimezone(text: string, utcMinutes: int): Result<Timezone>
    requires TimeValidator(text) == ""
    requires 0 <= utcMinutes < MinutesPerDay
  {
    AcceptedTime(text);
    var parts := Split(text, ':');
    CalcTimezoneByTimeShift(ParseInt(parts[0]).value, ParseInt(parts[1]).value, utcMinutes)
  }

  /**
   * As written, "-99:30" is accepted, and the offset computed from it lies
   * below the range of `timezone_raw`, whatever the UTC time.
   */
  lemma NegativeHourOutOfRange(utc: int)
    requires 0 <= utc < MinutesPerDay
    ensures TimeValidator("-99:30") == ""
    ensures var r := SavedTimezone("-99:30", utc);
      r.Ok? && ParseInt(r.value.shift).Some? && ParseInt(r.value.shift).value < MinShift
  {
    MinusNinetyNineParsed();
    assert SavedTimezone("-99:30", utc) == CalcTimezoneByTimeShift(-99, 30, utc);
    var delta := ClockDelta(-99, 30, utc);
    assert delta == -5910 - utc + MinutesPerDay by {
      assert Wrap64(-99 * 60) == -5940;
      assert Wrap64(30 + -5940) == -5910;
      assert Wrap64(-5910 - utc) == -5910 - utc;
    }
    var s := TimezoneOfMinutes(delta);
    ParseIntToString(s);
  }

  lemma MinusNinetyNineParsed()
    ensures TimeValidator("-99:30") == ""
    ensures Split("-99:30", ':') == ["-99", "30"]
    ensures ParseInt("-99") == Some(-99) && ParseInt("30") == Some(30)
  {
    assert "-99:30" == "-99" + ":" + "30";
    assert ParseInt("-99") == Some(-99) by {
      assert "-99"[1..] == "99";
      assert "99"[..1] == "9";
      assert "9"[..0] == "";
    }
    assert ParseInt("30") == Some(30) by {
      assert "30"[..1] == "3";
      assert "3"[..0] == "";
    }
    TimeVerdict("-99", "30");
    SplitTwo("-99", ':', "30");
  }


  /**
   * `timeValidator` with the hour also bounded below, as the `ЧЧ:ММ` its
   * messages ask for: a negative hour gets the format message.
   */
  function StrictTimeValidator(text: string): string
  {
    var verdict := TimeValidator(text);
    if verdict != "" then verdict
    else if ParseInt(Split(text, ':')[0]).value < 0 then TimeFormatError
    else ""
  }

  /** With the hour bounded below, every accepted time gives an offset the `timezone_raw` column accepts. */
  lemma StrictTimeInRange(text: string, utc: int)
    requires StrictTimeValidator(text) == ""
    requires 0 <= utc < MinutesPerDay
    ensures TimeValidator(text) == ""
    ensures var r := SavedTimezone(text, utc);
      r.Ok? && ParseInt(r.value.shift).Some?
      && MinShift <= ParseInt(r.value.shift).value <= MaxShift
  {
    AcceptedTime(text);
    var parts := Split(text, ':');
    TimezoneOfClockTime(ParseInt(parts[0]).value, ParseInt(parts[1]).value, utc);
  }
}
