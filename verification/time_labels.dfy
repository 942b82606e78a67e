/** The 12-hour time labels of the weekly availability editor ("09:30 AM") and
    their conversion to a time of day, measured in minutes since midnight. */
module TimeLabels {
  import opened Wrappers
  import opened Text

  /** `convertToDate`: split on ' ' into time and modifier, split the time on ':',
      `parseInt` hours and minutes, shift PM hours other than 12 by twelve and map
      12 AM to hour 0. `None` stands for the Invalid Date that a `NaN` hour or
      minute produces. The Date is taken on one fixed day, so it is compared
      through hours * 60 + minutes, which may fall outside one day. */
  function ConvertToMinutes(timeString: string): Option<int>
  {
    var parts := Split(timeString, ' ');
    var modifier := if |parts| > 1 then Some(parts[1]) else None;
    var hm := Split(parts[0], ':');
    var hours := ParseInt(hm[0]);
    var minutes := if |hm| > 1 then ParseInt(hm[1]) else None;
    if hours.None? || minutes.None? then None
    else Some(AdjustHour(hours.value, modifier) * 60 + minutes.value)
  }

  function AdjustHour(hours: int, modifier: Option<string>): int
  {
    if modifier == Some("PM") && hours != 12 then hours + 12
    else if modifier == Some("AM") && hours == 12 then 0
    else hours
  }

  /** The label "hh:mm modifier" with two-digit hour and minute. */
  function Label(hours: nat, minutes: nat, modifier: string): string
    requires hours < 100 && minutes < 100
  {
    Pad2(hours) + ":" + Pad2(minutes) + " " + modifier
  }

  /** How `convertToDate` reads a well-formed label, case by case. */
  lemma LabelConversion(hours: nat, minutes: nat, modifier: string)
    requires hours < 100 && minutes < 100
    requires ' ' !in modifier
    ensures modifier == "PM" && hours != 12 ==> ConvertToMinutes(Label(hours, minutes, modifier)) == Some((hours + 12) * 60 + minutes)
    ensures modifier == "PM" && hours == 12 ==> ConvertToMinutes(Label(hours, minutes, modifier)) == Some(12 * 60 + minutes)
    ensures modifier == "AM" && hours == 12 ==> ConvertToMinutes(Label(hours, minutes, modifier)) == Some(minutes)
    ensures modifier == "AM" && hours != 12 ==> ConvertToMinutes(Label(hours, minutes, modifier)) == Some(hours * 60 + minutes)
    ensures modifier != "AM" && modifier != "PM" ==> ConvertToMinutes(Label(hours, minutes, modifier)) == Some(hours * 60 + minutes)
  {
    LabelConverts(hours, minutes, modifier);
  }

  /** A well-formed label reads as its hour, adjusted by its modifier, and its minutes. */
  lemma LabelConverts(hours: nat, minutes: nat, modifier: string)
    requires hours < 100 && minutes < 100
    requires ' ' !in modifier
    ensures ConvertToMinutes(Label(hours, minutes, modifier)) == Some(AdjustHour(hours, Some(modifier)) * 60 + minutes)
  {
    var time := Pad2(hours) + ":" + Pad2(minutes);
    LabelSplits(hours, minutes, modifier);
    TimeSplits(hours, minutes);
    ParsePad2(hours);
    ParsePad2(minutes);
    ConvertParts(Label(hours, minutes, modifier), time, modifier, Pad2(hours), Pad2(minutes));
  }

  /** `convertToDate` once the label is split into time and modifier and the time into hour and minute. */
  /** `convertToDate` on a string without a space: there is no modifier, so the hour is kept. */
  lemma ConvertWithoutModifier(timeString: string, time: string, hours: string, minutes: string)
    requires Split(timeString, ' ') == [time]
    requires Split(time, ':') == [hours, minutes]
    requires ParseInt(hours).Some? && ParseInt(minutes).Some?
    ensures ConvertToMinutes(timeString) == Some(ParseInt(hours).value * 60 + ParseInt(minutes).value)
  {
  }

  lemma ConvertParts(timeString: string, time: string, modifier: string, hours: string, minutes: string)
    requires Split(timeString, ' ') == [time, modifier]
    requires Split(time, ':') == [hours, minutes]
    requires ParseInt(hours).Some? && ParseInt(minutes).Some?
    ensures ConvertToMinutes(timeString) == Some(AdjustHour(ParseInt(hours).value, Some(modifier)) * 60 + ParseInt(minutes).value)
  {
  }

  lemma LabelSplits(hours: nat, minutes: nat, modifier: string)
    requires hours < 100 && minutes < 100
    requires ' ' !in modifier
    ensures Split(Label(hours, minutes, modifier), ' ') == [Pad2(hours) + ":" + Pad2(minutes), modifier]
  {
    var time := Pad2(hours) + ":" + Pad2(minutes);
    Pad2HasNoSeparators(hours);
    Pad2HasNoSeparators(minutes);
    assert ' ' !in time;
    assert Label(hours, minutes, modifier) == time + [' '] + modifier;
    SplitAtFirstSeparator(time, ' ', modifier);
    SplitWithoutSeparator(modifier, ' ');
  }

  lemma TimeSplits(hours: nat, minutes: nat)
    requires hours < 100 && minutes < 100
    ensures Split(Pad2(hours) + ":" + Pad2(minutes), ':') == [Pad2(hours), Pad2(minutes)]
  {
    var h := Pad2(hours);
    var m := Pad2(minutes);
    Pad2HasNoSeparators(hours);
    Pad2HasNoSeparators(minutes);
    assert h + ":" + m == h + [':'] + m;
    SplitAtFirstSeparator(h, ':', m);
    SplitWithoutSeparator(m, ':');
  }

  /** A white-space character before the hour, other than the space itself, which
      splits the label, is skipped by `parseInt`, so it does not change the time a
      label reads as: a tab in front of "09:00 AM" still reads as 09:00. */
  lemma LeadingWhiteSpaceIgnored(c: char, hours: nat, minutes: nat, modifier: string)
    requires hours < 100 && minutes < 100
    requires ' ' !in modifier
    requires IsJsWhiteSpace(c) && c != ' '
    ensures ConvertToMinutes([c] + Label(hours, minutes, modifier)) == ConvertToMinutes(Label(hours, minutes, modifier))
  {
    var h := Pad2(hours);
    var m := Pad2(minutes);
    var padded := [c] + Label(hours, minutes, modifier);
    PaddedLabelSplits(c, hours, minutes, modifier);
    PaddedTimeSplits(c, hours, minutes);
    ParseIntSkipsWhiteSpace([c], h);
    ParsePad2(hours);
    ParsePad2(minutes);
    ConvertParts(padded, [c] + h + [':'] + m, modifier, [c] + h, m);
    LabelConverts(hours, minutes, modifier);
  }

  lemma PaddedLabelSplits(c: char, hours: nat, minutes: nat, modifier: string)
    requires hours < 100 && minutes < 100
    requires ' ' !in modifier
    requires c != ' '
    ensures Split([c] + Label(hours, minutes, modifier), ' ') == [[c] + Pad2(hours) + [':'] + Pad2(minutes), modifier]
  {
    var time := [c] + Pad2(hours) + [':'] + Pad2(minutes);
    Pad2HasNoSeparators(hours);
    Pad2HasNoSeparators(minutes);
    assert ' ' !in time;
    assert [c] + Label(hours, minutes, modifier) == time + [' '] + modifier;
    SplitAtFirstSeparator(time, ' ', modifier);
    SplitWithoutSeparator(modifier, ' ');
  }

  lemma PaddedTimeSplits(c: char, hours: nat, minutes: nat)
    requires hours < 100 && minutes < 100
    requires IsJsWhiteSpace(c)
    ensures Split([c] + Pad2(hours) + [':'] + Pad2(minutes), ':') == [[c] + Pad2(hours), Pad2(minutes)]
  {
    Pad2HasNoSeparators(hours);
    Pad2HasNoSeparators(minutes);
    assert ':' !in [c] + Pad2(hours);
    SplitAtFirstSeparator([c] + Pad2(hours), ':', Pad2(minutes));
    SplitWithoutSeparator(Pad2(minutes), ':');
  }

  /** `convertToDate` splits off the modifier at an ASCII space only. When anything
      else separates the minutes from the modifier (the narrow no-break space U+202F
      that some engines' `toLocaleTimeString` writes, say), `parseInt` stops at it and
      the modifier is lost: the hour is read as written, on a 24-hour clock. */
  lemma OtherSeparatorDropsModifier(hours: nat, minutes: nat, c: char, modifier: string)
    requires hours < 100 && minutes < 100
    requires c != ' ' && c != ':' && !IsDigit(c)
    requires ' ' !in modifier && ':' !in modifier
    ensures ConvertToMinutes(Pad2(hours) + ":" + Pad2(minutes) + [c] + modifier) == Some(hours * 60 + minutes)
  {
    var whole := Pad2(hours) + [':'] + (Pad2(minutes) + [c] + modifier);
    assert whole == Pad2(hours) + ":" + Pad2(minutes) + [c] + modifier;
    SeparatedLabelSplits(hours, minutes, c, modifier);
    ParsePad2(hours);
    MinutesStopAtSeparator(minutes, c, modifier);
    ConvertWithoutModifier(whole, whole, Pad2(hours), Pad2(minutes) + [c] + modifier);
  }

  lemma SeparatedLabelSplits(hours: nat, minutes: nat, c: char, modifier: string)
    requires hours < 100 && minutes < 100
    requires c != ' ' && c != ':'
    requires ' ' !in modifier && ':' !in modifier
    ensures Split(Pad2(hours) + [':'] + (Pad2(minutes) + [c] + modifier), ' ') == [Pad2(hours) + [':'] + (Pad2(minutes) + [c] + modifier)]
    ensures Split(Pad2(hours) + [':'] + (Pad2(minutes) + [c] + modifier), ':') == [Pad2(hours), Pad2(minutes) + [c] + modifier]
  {
    var h := Pad2(hours);
    var tail := Pad2(minutes) + [c] + modifier;
    Pad2HasNoSeparators(hours);
    Pad2HasNoSeparators(minutes);
    TailHasNoSeparators(Pad2(minutes), c, modifier);
    NoSeparatorAround(h, tail);
    SplitWithoutSeparator(h + [':'] + tail, ' ');
    SplitAtFirstSeparator(h, ':', tail);
    SplitWithoutSeparator(tail, ':');
  }

  lemma TailHasNoSeparators(m: string, c: char, modifier: string)
    requires ' ' !in m && ':' !in m && c != ' ' && c != ':'
    requires ' ' !in modifier && ':' !in modifier
    ensures ' ' !in m + [c] + modifier && ':' !in m + [c] + modifier
  {
  }

  lemma NoSeparatorAround(h: string, tail: string)
    requires ' ' !in h && ' ' !in tail
    ensures ' ' !in h + [':'] + tail
  {
  }

  lemma MinutesStopAtSeparator(minutes: nat, c: char, modifier: string)
    requires minutes < 100
    requires !IsDigit(c)
    ensures ParseInt(Pad2(minutes) + [c] + modifier) == Some(minutes)
  {
    var m := Pad2(minutes);
    var tail := m + [c] + modifier;
    assert tail[1..] == [m[1]] + [c] + modifier;
    assert tail[1..][1..] == [c] + modifier;
    assert DigitPrefix([c] + modifier) == [];
    assert DigitPrefix(tail[1..]) == [m[1]];
    assert DigitPrefix(tail) == [m[0], m[1]] == m;
    ParseIntFromDigit(tail);
    ParseDigitsPad2(minutes);
  }

  /** An afternoon label written with U+202F (narrow no-break space) before "PM" reads as
      the morning time: the modifier is only split off at an ASCII space. */
  lemma NarrowSpaceLosesModifier(hours: nat, minutes: nat)
    requires 1 <= hours < 12 && minutes < 60
    ensures ConvertToMinutes(Label(hours, minutes, "PM")) == Some((hours + 12) * 60 + minutes)
    ensures ConvertToMinutes(Pad2(hours) + ":" + Pad2(minutes) + ['\U{202F}'] + "PM") == Some(hours * 60 + minutes)
  {
    LabelConverts(hours, minutes, "PM");
    OtherSeparatorDropsModifier(hours, minutes, '\U{202F}', "PM");
  }

  /** An en-US 12-hour "hh:mm AM/PM" rendering of a time of day, the shape the menu's
      labels have. Engines differ in the separator they put before AM/PM (some write a
      narrow no-break space), so this is one rendering, not every engine's output. */
  function Format12(t: int): string
    requires 0 <= t < 24 * 60
  {
    Label(Hour12(t), t % 60, Meridiem(t))
  }

  /** The hour on a 12-hour clock, 12 standing for 0. */
  function Hour12(t: int): (h: nat)
    requires 0 <= t < 24 * 60
    ensures 1 <= h <= 12
  {
    if (t / 60) % 12 == 0 then 12 else (t / 60) % 12
  }

  function Meridiem(t: int): string
    requires 0 <= t < 24 * 60
  {
    if t / 60 < 12 then "AM" else "PM"
  }

  /** Reading back the 12-hour hour with its modifier recovers the time of day. */
  lemma Hour12Adjusts(t: int)
    requires 0 <= t < 24 * 60
    ensures AdjustHour(Hour12(t), Some(Meridiem(t))) * 60 + t % 60 == t
  {
    assert t == (t / 60) * 60 + t % 60;
  }

  /** `convertToDate` inverts the 12-hour rendering on every time of day. */
  lemma FormatRoundTrip(t: int)
    requires 0 <= t < 24 * 60
    ensures ConvertToMinutes(Format12(t)) == Some(t)
  {
    LabelConverts(Hour12(t), t % 60, Meridiem(t));
    Hour12Adjusts(t);
  }

  /** The `is-greater` test: both labels convert and the end is strictly later.
      A comparison with an Invalid Date is false. */
  predicate IsGreater(start: string, end: string)
  {
    var s := ConvertToMinutes(start);
    var e := ConvertToMinutes(end);
    s.Some? && e.Some? && e.value > s.value
  }

  /** On rendered times the test accepts exactly the strictly later ends; equal start and end fail. */
  lemma IsGreaterOnTimes(start: int, end: int)
    requires 0 <= start < 24 * 60 && 0 <= end < 24 * 60
    ensures IsGreater(Format12(start), Format12(end)) <==> end > start
  {
    FormatRoundTrip(start);
    FormatRoundTrip(end);
  }

  /** An empty label never converts, so the schema's `required()` checks on a
      slot are implied by its `is-greater` test. */
  lemma EmptyLabelDoesNotConvert()
    ensures ConvertToMinutes("") == None
  {
    assert Split("", ' ') == [""];
    assert Split("", ':') == [""];
    assert DigitPrefix("") == "";
  }

  /** The `times` menu offered for slot starts and ends. */
  const Times: seq<string> := [
    "09:00 AM", "09:30 AM", "10:00 AM", "10:30 AM", "11:00 AM", "11:30 AM",
    "12:00 PM", "12:30 PM", "01:00 PM", "01:30 PM", "02:00 PM", "02:30 PM",
    "03:00 PM", "03:30 PM", "04:00 PM", "04:30 PM", "05:00 PM", "05:30 PM",
    "06:00 PM", "06:30 PM", "07:00 PM", "07:30 PM", "08:00 PM"
  ]

  /** The label spelled out character by character. */
  lemma LabelSpelling(hours: nat, minutes: nat, modifier: string)
    requires hours < 100 && minutes < 100
    ensures Label(hours, minutes, modifier)
      == [DigitChar(hours / 10), DigitChar(hours % 10), ':', DigitChar(minutes / 10), DigitChar(minutes % 10), ' '] + modifier
  {
  }

  lemma DigitChars()
    ensures DigitChar(0) == '0' && DigitChar(1) == '1' && DigitChar(2) == '2' && DigitChar(3) == '3'
    ensures DigitChar(4) == '4' && DigitChar(5) == '5' && DigitChar(6) == '6' && DigitChar(7) == '7'
    ensures DigitChar(8) == '8' && DigitChar(9) == '9'
  {
  }

  /** Entries 0 to 3 of the menu, 09:00 to 10:30, are renderings of 09:00 plus that many half hours. */
  lemma TimesFrom0900()
    ensures forall i :: 0 <= i < 4 ==> Times[i] == Format12(9 * 60 + 30 * i)
  {
    DigitChars();
    LabelSpelling(9, 0, "AM");
    LabelSpelling(9, 30, "AM");
    LabelSpelling(10, 0, "AM");
    LabelSpelling(10, 30, "AM");
  }

  /** Entries 4 to 7 of the menu, 11:00 to 12:30, are renderings of 09:00 plus that many half hours. */
  lemma TimesFrom1100()
    ensures forall i :: 4 <= i < 8 ==> Times[i] == Format12(9 * 60 + 30 * i)
  {
    DigitChars();
    LabelSpelling(11, 0, "AM");
    LabelSpelling(11, 30, "AM");
    LabelSpelling(12, 0, "PM");
    LabelSpelling(12, 30, "PM");
  }

  /** Entries 8 to 11 of the menu, 13:00 to 14:30, are renderings of 09:00 plus that many half hours. */
  lemma TimesFrom1300()
    ensures forall i :: 8 <= i < 12 ==> Times[i] == Format12(9 * 60 + 30 * i)
  {
    DigitChars();
    LabelSpelling(1, 0, "PM");
    LabelSpelling(1, 30, "PM");
    LabelSpelling(2, 0, "PM");
    LabelSpelling(2, 30, "PM");
  }

  /** Entries 12 to 15 of the menu, 15:00 to 16:30, are renderings of 09:00 plus that many half hours. */
  lemma TimesFrom1500()
    ensures forall i :: 12 <= i < 16 ==> Times[i] == Format12(9 * 60 + 30 * i)
  {
    DigitChars();
    LabelSpelling(3, 0, "PM");
    LabelSpelling(3, 30, "PM");
    LabelSpelling(4, 0, "PM");
    LabelSpelling(4, 30, "PM");
  }

  /** Entries 16 to 19 of the menu, 17:00 to 18:30, are renderings of 09:00 plus that many half hours. */
  lemma TimesFrom1700()
    ensures forall i :: 16 <= i < 20 ==> Times[i] == Format12(9 * 60 + 30 * i)
  {
    DigitChars();
    LabelSpelling(5, 0, "PM");
    LabelSpelling(5, 30, "PM");
    LabelSpelling(6, 0, "PM");
    LabelSpelling(6, 30, "PM");
  }

  /** Entries 20 to 22 of the menu, 19:00 to 20:00, are renderings of 09:00 plus that many half hours. */
  lemma TimesFrom1900()
    ensures forall i :: 20 <= i < 23 ==> Times[i] == Format12(9 * 60 + 30 * i)
  {
    DigitChars();
    LabelSpelling(7, 0, "PM");
    LabelSpelling(7, 30, "PM");
    LabelSpelling(8, 0, "PM");
  }

  /** Each entry of the menu is the rendering of 09:00 plus `i` half hours. */
  lemma TimesEntry(i: nat)
    requires i < 23
    ensures Times[i] == Format12(9 * 60 + 30 * i)
  {
    if i < 4 {
      TimesFrom0900();
    } else if i < 8 {
      TimesFrom1100();
    } else if i < 12 {
      TimesFrom1300();
    } else if i < 16 {
      TimesFrom1500();
    } else if i < 20 {
      TimesFrom1700();
    } else {
      TimesFrom1900();
    }
  }

  /** The menu converts to 09:00, 09:30, ..., 20:00: a strictly increasing run in 30-minute steps. */
  lemma TimesMenuSteps()
    ensures |Times| == 23
    ensures ConvertToMinutes(Times[0]) == Some(9 * 60)
    ensures ConvertToMinutes(Times[22]) == Some(20 * 60)
    ensures forall i :: 0 <= i < 23 ==> ConvertToMinutes(Times[i]) == Some(9 * 60 + 30 * i)
    ensures forall i :: 0 <= i < 22 ==> IsGreater(Times[i], Times[i + 1])
  {
    forall i | 0 <= i < 23
      ensures ConvertToMinutes(Times[i]) == Some(9 * 60 + 30 * i)
    {
      TimesEntry(i);
      FormatRoundTrip(9 * 60 + 30 * i);
    }
  }
}
