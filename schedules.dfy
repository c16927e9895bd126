/**
 One schedule token, such as `"TTh 10-11:30AM lec ERDT"`: the `Schedule`
 constructor of le3.js (lines 20-102) and `Schedule.hasConflict` (lines
 103-111). A schedule is a set of weekdays and a time interval on a 0-24
 hour scale whose fraction stands for minutes.
 */
module Schedules {
  import opened Text
  import opened Days
  import opened Clock

  datatype Schedule = Schedule(days: set<Weekday>, timeStart: Number, timeEnd: Number)

  /** The trimmed token split on spaces: day letters, time range, then the rest. */
  function Words(input: string): seq<string>
  {
    Split(Trim(input), ' ')
  }

  /**
   What the constructor needs to run without throwing: a second word (the
   time range) and a `-` in it. Without them `timeString` or `endTimeString`
   is `undefined` and the next method call on it fails.
   */
  predicate WellFormedToken(input: string)
  {
    |Words(input)| >= 2 && |Split(Words(input)[1], '-')| >= 2
  }

  /** `dateString`: the day letters. */
  function DateText(input: string): string
  {
    Words(input)[0]
  }

  /** `timeString`: the time range. */
  function TimeText(input: string): string
    requires |Words(input)| >= 2
  {
    Words(input)[1]
  }

  /** `startTimeString`: the time range up to its first `-`. */
  function StartText(input: string): string
    requires WellFormedToken(input)
  {
    Split(TimeText(input), '-')[0]
  }

  /** `endTimeString`: the time range between its first and second `-`. */
  function EndText(input: string): string
    requires WellFormedToken(input)
  {
    Split(TimeText(input), '-')[1]
  }

  /**
   The day letters run up to the first space of the trimmed token, and the
   time range from there up to the next space or the end.
   */
  lemma TokenLayout(input: string)
    requires |Words(input)| >= 2
    ensures DateText(input) + [' '] + TimeText(input) <= Trim(input)
    ensures ' ' !in DateText(input) && ' ' !in TimeText(input)
    ensures var t := Trim(input); var n := |DateText(input)| + 1 + |TimeText(input)|;
      n == |t| || t[n] == ' '
  {
    SplitFirstTwo(Trim(input), ' ');
  }

  /**
   The start time runs up to the first `-` of the time range and the end time
   from there up to the second `-` or the end; whatever follows a second `-`
   is not read.
   */
  lemma TimeRangeLayout(input: string)
    requires WellFormedToken(input)
    ensures StartText(input) + ['-'] + EndText(input) <= TimeText(input)
    ensures '-' !in StartText(input) && '-' !in EndText(input)
    ensures var time := TimeText(input); var n := |StartText(input)| + 1 + |EndText(input)|;
      n == |time| || time[n] == '-'
  {
    SplitFirstTwo(TimeText(input), '-');
  }

  /** The first two words of `days + " " + time + rest`, where `rest` is empty or starts a new word. */
  lemma FirstTwoWords(days: string, time: string, rest: string)
    requires ' ' !in days && ' ' !in time
    requires rest == [] || rest[0] == ' '
    ensures var ws := Split(days + [' '] + time + rest, ' '); |ws| >= 2 && ws[0] == days && ws[1] == time
  {
    assert days + [' '] + time + rest == days + [' '] + (time + rest);
    SplitAfter(days, ' ', time + rest);
    if rest == [] {
      assert time + rest == time;
      SplitNone(time, ' ');
    } else {
      assert time + rest == time + [' '] + rest[1..];
      SplitAfter(time, ' ', rest[1..]);
    }
  }

  /**
   A token laid out as day letters, a space, a start time, a `-`, an end time
   and then either nothing or a space and further words is read back into
   exactly those day letters and times.
   */
  lemma TokenFields(days: string, start: string, end: string, rest: string)
    requires ' ' !in days && ' ' !in start && ' ' !in end && '-' !in start && '-' !in end
    requires rest == [] || rest[0] == ' '
    requires var input := days + [' '] + start + ['-'] + end + rest; Trim(input) == input
    ensures var input := days + [' '] + start + ['-'] + end + rest;
      WellFormedToken(input) && DateText(input) == days &&
      StartText(input) == start && EndText(input) == end
  {
    var input := days + [' '] + start + ['-'] + end + rest;
    var time := start + ['-'] + end;
    assert input == days + [' '] + time + rest;
    FirstTwoWords(days, time, rest);
    SplitAfter(start, '-', end);
    SplitNone(end, '-');
  }

  /**
   `Math.floor(x) != 12 ? 12 : 0`: 12 hours, except for a time in the noon
   hour. `Math.floor(NaN)` is NaN, which differs from 12.
   */
  function NoonShift(x: Number): real
  {
    if x.NaN? || x.value.Floor != 12 then 12.0 else 0.0
  }

  /** `x += Math.floor(x) != 12 ? 12 : 0`. */
  function Shifted(x: Number): Number
  {
    Plus(x, Finite(NoonShift(x)))
  }

  /**
   The AM/PM rule of le3.js:88-99, applied to the scanned values `start` and
   `end` of the texts `startText` and `endText`. Side by side: the end gets 12
   hours more exactly when the end text has no `AM` and its hour is not 12;
   the start gets 12 hours more exactly when neither text has an `AM` and its
   hour is not 12; otherwise a value stays as scanned.
   */
  function ApplySuffix(startText: string, endText: string, start: Number, end: Number): (r: (Number, Number))
    ensures r.0 == start || r.0 == Plus(start, Finite(12.0))
    ensures r.1 == end || r.1 == Plus(end, Finite(12.0))
    ensures end.Finite? ==>
      (r.1 == Finite(end.value + 12.0) <==> !Contains(endText, "AM") && end.value.Floor != 12)
    ensures start.Finite? ==>
      (r.0 == Finite(start.value + 12.0) <==>
        !Contains(endText, "AM") && !Contains(startText, "AM") && start.value.Floor != 12)
  {
    if Contains(endText, "AM") then (start, end)
    else if Contains(startText, "AM") then (start, Shifted(end))
    else (Shifted(start), Shifted(end))
  }

  /** With no `AM` in either text, both times take the 12-hour shift. */
  lemma BothMoveWithoutAM(startText: string, endText: string, start: Number, end: Number)
    requires !Contains(startText, "AM") && !Contains(endText, "AM")
    ensures ApplySuffix(startText, endText, start, end) == (Shifted(start), Shifted(end))
  {
  }

  /** No `AM` in the end text, an `AM` in the start text: only the end may move. */
  lemma EndMovesAfterAM(startText: string, endText: string, start: Number, end: Number)
    requires Contains(startText, "AM") && !Contains(endText, "AM")
    ensures ApplySuffix(startText, endText, start, end) == (start, Shifted(end))
  {
  }

  /**
   The AM/PM rule on the sample ranges: `"10-11:30AM"` is 10 to 11.5 (the end
   is AM, nothing moves), `"10AM-12PM"` is 10 to 12 (only the end may move, and
   noon stays), `"1-2PM"` is 13 to 14 (both move).
   */
  lemma SuffixExamples()
    ensures ApplySuffix("10", "11:30AM", ScanTime("10"), ScanTime("11:30AM")) == (Finite(10.0), Finite(11.5))
    ensures ApplySuffix("10AM", "12PM", ScanTime("10AM"), ScanTime("12PM")) == (Finite(10.0), Finite(12.0))
    ensures ApplySuffix("1", "2PM", ScanTime("1"), ScanTime("2PM")) == (Finite(13.0), Finite(14.0))
  {
    assert "11:30AM" == "11:30" + "AM" + "";
    ContainsInside("11:30", "AM", "");
    assert "10AM" == "10" + "AM" + "";
    ContainsInside("10", "AM", "");
    ContainsNeedsHead("12PM", "AM");
    ContainsNeedsHead("2PM", "AM");
    ContainsNeedsHead("1", "AM");
    EndMovesAfterAM("10AM", "12PM", ScanTime("10AM"), ScanTime("12PM"));
    BothMoveWithoutAM("1", "2PM", ScanTime("1"), ScanTime("2PM"));
    ScanTimeExamples();
  }

  /**
   The schedule a token describes: the days its letters name, and its two
   times as scanned, each possibly moved 12 hours on by the AM/PM rule. A
   time that scans to NaN stays NaN.
   */
  function ParseSchedule(input: string): (r: Schedule)
    requires WellFormedToken(input)
    ensures r.days == DaysOf(DateText(input))
    ensures r.timeStart == ScanTime(StartText(input)) || r.timeStart == Plus(ScanTime(StartText(input)), Finite(12.0))
    ensures r.timeEnd == ScanTime(EndText(input)) || r.timeEnd == Plus(ScanTime(EndText(input)), Finite(12.0))
    ensures r.timeStart.NaN? <==> ScanTime(StartText(input)).NaN?
    ensures r.timeEnd.NaN? <==> ScanTime(EndText(input)).NaN?
    ensures r.timeStart.Finite? ==> r.timeStart.value >= 0.0
    ensures r.timeEnd.Finite? ==> r.timeEnd.value >= 0.0
  {
    ScanTimeNonNegative(StartText(input));
    ScanTimeNonNegative(EndText(input));
    var times := ApplySuffix(StartText(input), EndText(input), ScanTime(StartText(input)), ScanTime(EndText(input)));
    Schedule(DaysOf(DateText(input)), times.0, times.1)
  }

  /**
   A token laid out as in `TokenFields` parses to the days of its letters and
   its two times after the AM/PM rule.
   */
  lemma ParseLaidOutToken(days: string, start: string, end: string, rest: string)
    requires ' ' !in days && ' ' !in start && ' ' !in end && '-' !in start && '-' !in end
    requires rest == [] || rest[0] == ' '
    requires var input := days + [' '] + start + ['-'] + end + rest; Trim(input) == input
    ensures var input := days + [' '] + start + ['-'] + end + rest;
      var times := ApplySuffix(start, end, ScanTime(start), ScanTime(end));
      WellFormedToken(input) && ParseSchedule(input) == Schedule(DaysOf(days), times.0, times.1)
  {
    TokenFields(days, start, end, rest);
  }

  /**
   The constructor's steps: trim, split on spaces, collect the days, split the
   time range on `-`, scan both sides, then adjust the two temporaries in
   place for AM/PM.
   */
  method NewSchedule(input: string) returns (sched: Schedule)
    requires WellFormedToken(input)
    ensures sched == ParseSchedule(input)
  {
    var trimmed := Trim(input);
    var stringList := Split(trimmed, ' ');
    var dateString := stringList[0];
    var timeString := stringList[1];
    var daySchedule := DecodeDays(dateString);
    var pieces := Split(timeString, '-');
    var startTimeString, endTimeString := pieces[0], pieces[1];
    assert dateString == DateText(input);
    assert startTimeString == StartText(input) && endTimeString == EndText(input);
    var tempStartTime := ConvertTo12Hours(startTimeString);
    var tempEndTime := ConvertTo12Hours(endTimeString);
    if Contains(endTimeString, "AM") {
      // The end is explicitly AM: both values stay.
    } else if Contains(startTimeString, "AM") {
      tempEndTime := Plus(tempEndTime, Finite(NoonShift(tempEndTime)));
    } else {
      tempStartTime := Plus(tempStartTime, Finite(NoonShift(tempStartTime)));
      tempEndTime := Plus(tempEndTime, Finite(NoonShift(tempEndTime)));
    }
    ghost var p := ParseSchedule(input);
    assert p.days == daySchedule;
    assert ApplySuffix(startTimeString, endTimeString, ScanTime(startTimeString), ScanTime(endTimeString)).0 == tempStartTime;
    assert ApplySuffix(startTimeString, endTimeString, ScanTime(startTimeString), ScanTime(endTimeString)).1 == tempEndTime;
    assert p.timeStart == tempStartTime;
    assert p.timeEnd == tempEndTime;
    sched := Schedule(daySchedule, tempStartTime, tempEndTime);
  }

  /**
   `Schedule.hasConflict`: a weekday in common, and intervals that overlap
   with positive length (touching ends do not count). A comparison with NaN
   is false.
   */
  predicate Conflicts(a: Schedule, b: Schedule)
  {
    a.days * b.days != {} && Less(a.timeStart, b.timeEnd) && Less(b.timeStart, a.timeEnd)
  }

  /**
   The loop of le3.js:105-110: look for a day of `a` that `b` also has, and
   at the first one found answer whether the times overlap.
   */
  method HasConflict(a: Schedule, b: Schedule) returns (r: bool)
    ensures r == Conflicts(a, b)
  {
    var rest := a.days;
    while rest != {}
      invariant rest <= a.days
      invariant (a.days - rest) * b.days == {}
      decreases rest
    {
      var element :| element in rest;
      if element in b.days {
        assert element in a.days * b.days;
        return Less(a.timeStart, b.timeEnd) && Less(b.timeStart, a.timeEnd);
      }
      rest := rest - {element};
    }
    assert a.days - rest == a.days;
    return false;
  }

  lemma ConflictsSymmetric(a: Schedule, b: Schedule)
    ensures Conflicts(a, b) <==> Conflicts(b, a)
  {
  }

  /** Intervals that only touch, such as [10, 11.5) and [11.5, 13), never conflict. */
  lemma TouchingNeverConflict(a: Schedule, b: Schedule)
    requires a.timeEnd.Finite? && b.timeStart.Finite? && a.timeEnd.value <= b.timeStart.value
    ensures !Conflicts(a, b) && !Conflicts(b, a)
  {
  }

  /** The two sample pairs: touching Tuesday/Thursday blocks, and overlapping Tuesday blocks. */
  lemma ConflictExamples()
    ensures !Conflicts(Schedule({T, Th}, Finite(10.0), Finite(11.5)), Schedule({T, Th}, Finite(11.5), Finite(13.0)))
    ensures Conflicts(Schedule({T}, Finite(10.0), Finite(11.5)), Schedule({T}, Finite(11.0), Finite(12.0)))
  {
    assert T in {T} * {T};
  }

  /** Schedules with no weekday in common never conflict, whatever their times. */
  lemma DisjointDaysNeverConflict(a: Schedule, b: Schedule)
    requires a.days !! b.days
    ensures !Conflicts(a, b)
  {
    assert a.days * b.days == {};
  }

  /** A schedule with a NaN time conflicts with nothing, in either order. */
  lemma NaNNeverConflicts(a: Schedule, b: Schedule)
    requires a.timeStart.NaN? || a.timeEnd.NaN?
    ensures !Conflicts(a, b) && !Conflicts(b, a)
  {
  }
}
