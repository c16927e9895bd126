/**
 Tokens and lines of the sample input at the top of le3.js, worked through
 the model. The samples themselves are not part of the core.
 */
module Samples {
  import opened Text
  import opened Days
  import opened Clock
  import opened Schedules
  import opened Sections

  /** A sample token whose end is marked AM: nothing moves. */
  lemma ParseScheduleMorning()
    ensures var x := "TTh 10-11:30AM lec ERDT";
      WellFormedToken(x) && ParseSchedule(x) == Schedule({T, Th}, Finite(10.0), Finite(11.5))
  {
    var x := "TTh 10-11:30AM lec ERDT";
    assert x == "TTh" + [' '] + "10" + ['-'] + "11:30AM" + " lec ERDT";
    TrimNoop(x);
    ParseLaidOutToken("TTh", "10", "11:30AM", " lec ERDT");
    SuffixExamples();
    DaysOfExamples();
  }

  /** A sample token from AM to noon: noon stays 12. */
  lemma ParseScheduleToNoon()
    ensures var x := "W 10AM-12PM lab TBA";
      WellFormedToken(x) && ParseSchedule(x) == Schedule({W}, Finite(10.0), Finite(12.0))
  {
    var x := "W 10AM-12PM lab TBA";
    assert x == "W" + [' '] + "10AM" + ['-'] + "12PM" + " lab TBA";
    TrimNoop(x);
    ParseLaidOutToken("W", "10AM", "12PM", " lab TBA");
    SuffixExamples();
    DaysOfExamples();
  }

  /** A sample token with no AM anywhere: both ends move to the afternoon. */
  lemma ParseScheduleAfternoon()
    ensures var x := "TTh 1-2PM lec P&G";
      WellFormedToken(x) && ParseSchedule(x) == Schedule({T, Th}, Finite(13.0), Finite(14.0))
  {
    var x := "TTh 1-2PM lec P&G";
    assert x == "TTh" + [' '] + "1" + ['-'] + "2PM" + " lec P&G";
    TrimNoop(x);
    ParseLaidOutToken("TTh", "1", "2PM", " lec P&G");
    SuffixExamples();
    DaysOfExamples();
  }

  /** GE matching ignores case: the entry `"cs"` occurs in `"CS 12 LEC 2"`. */
  lemma GEMatchIgnoresCase()
    ensures IsGE("CS 12 LEC 2", ["cs"])
  {
    assert ToLower("cs") == "cs";
    assert ToLower("CS 12 LEC 2") == "cs" + " 12 lec 2";
    ContainsInside("", "cs", " 12 lec 2");
    assert "" + "cs" + " 12 lec 2" == "cs" + " 12 lec 2";
  }

  /** The sample line is laid out as a name, a comma and a single schedule token. */
  lemma SampleLineLayout()
    ensures var name, token := "CS 12 LEC 2", "TTh 1-2PM lec P&G";
      "CS 12 LEC 2,TTh 1-2PM lec P&G" == name + [','] + token &&
      ',' !in name && ',' !in token && ';' !in token &&
      Trim(name + [','] + token) == name + [','] + token
  {
    var name, token := "CS 12 LEC 2", "TTh 1-2PM lec P&G";
    var line := "CS 12 LEC 2,TTh 1-2PM lec P&G";
    assert line == name + [','] + token;
    TrimNoop(line);
  }

  /** A whole sample line: its name, its one afternoon schedule, and a GE match on `"cs"`. */
  lemma ParseSampleLine()
    ensures var line := "CS 12 LEC 2,TTh 1-2PM lec P&G";
      WellFormedLine(line) &&
      ParseSection(line, ["cs"]) == Section("CS 12 LEC 2", [Schedule({T, Th}, Finite(13.0), Finite(14.0))], true)
  {
    var name, token := "CS 12 LEC 2", "TTh 1-2PM lec P&G";
    SampleLineLayout();
    ParseScheduleAfternoon();
    ParseOneTokenLine(name, token, ["cs"]);
    GEMatchIgnoresCase();
  }

  /** The AM/PM rule on `"1:0x-2PM"`: no AM anywhere, so both sides move, and NaN stays NaN. */
  lemma HexStartSuffix()
    ensures ApplySuffix("1:0x", "2PM", ScanTime("1:0x"), ScanTime("2PM")) == (NaN, Finite(14.0))
  {
    ContainsNeedsHead("1:0x", "AM");
    ContainsNeedsHead("2PM", "AM");
    BothMoveWithoutAM("1:0x", "2PM", ScanTime("1:0x"), ScanTime("2PM"));
    ScanTimeHexExample();
    assert ScanTime("2PM") == Finite(2.0) by {
      ScanTimeExamples();
    }
  }

  /** `"M 1:0x-2PM lec TBA"` is Monday from NaN to 14. */
  lemma ParseHexStartToken()
    ensures var x := "M 1:0x-2PM lec TBA";
      WellFormedToken(x) && ParseSchedule(x) == Schedule({M}, NaN, Finite(14.0))
  {
    var x := "M 1:0x-2PM lec TBA";
    assert x == "M" + [' '] + "1:0x" + ['-'] + "2PM" + " lec TBA";
    TrimNoop(x);
    ParseLaidOutToken("M", "1:0x", "2PM", " lec TBA");
    HexStartSuffix();
    DaysOfExamples();
  }

  /**
   A start time with `0x` after its colon scans to NaN and stays NaN through
   the AM/PM rule, so the schedule conflicts with nothing, not even with a
   schedule on the same day at the same hours.
   */
  lemma ParseScheduleHexStart()
    ensures var x := "M 1:0x-2PM lec TBA";
      WellFormedToken(x) && !Conflicts(ParseSchedule(x), Schedule({M}, Finite(13.0), Finite(14.0)))
  {
    var x := "M 1:0x-2PM lec TBA";
    ParseHexStartToken();
    NaNNeverConflicts(ParseSchedule(x), Schedule({M}, Finite(13.0), Finite(14.0)));
  }
}
