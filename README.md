# le3.js class-schedule parser, modelled in Dafny

le3.js reads a plain-text list of university class sections. There is one
section per line. Each line has a name, a comma, and one or more schedule
tokens separated by `;`. A schedule token is day letters, a space and a time
range such as `10-11:30AM`, with further words after it. The program:

- turns each token into a `Schedule`: a set of weekdays and a start and end
  time on a 0-24 hour scale;
- turns each line into a `Section`, with a name, its schedules, and a GE
  flag found by matching the name against a list of GE course names;
- answers two queries over the list: the GE sections, and the sections that
  clash with another section.

The model follows the source module by module:

- `Text`: the JavaScript string primitives the program relies on (`trim`,
  `split`, `includes`, `toLowerCase`, the digit test), and lemmas about them.
- `Days`: day-letter decoding. `DecodeDays` is the source's loop, proved
  equal to the function `DaysOf`. `DaysOfMembership` says which letters
  give which day.
- `Clock`: the `convertTo12Hours` scanner. `ConvertTo12Hours` is the loop
  with its accumulator and colon flag, proved equal to `ScanTime`.
  `ScanTimeDecomposed` describes `ScanTime` without the loop. `MinuteQuirk`
  shows that the scanner reads the units digit of the minutes twice.
- `Schedules`: the `Schedule` constructor and `Schedule.hasConflict`.
  `NewSchedule` follows the constructor step by step and is proved equal to
  `ParseSchedule`. `HasConflict` is proved equal to the predicate
  `Conflicts`.
- `Sections`: the `Section` constructor (`ParseSection`) and
  `Section.hasConflict`. The nested loops are `HasConflict`, proved equal
  to `SectionsConflict`.
- `Queries`: `parseInput`, `getGEs` and `getAllWithConflict`. Both filters
  are proved to select, in order, exactly the positions their flags mark.
- `Samples`: tokens and one line of the sample input, worked through the
  model.

Times are JavaScript numbers modelled as exact rationals (`real`) or NaN.
`parseInt("0x")` is NaN, so a `0` followed by `x` or `X` after the colon
makes a time NaN; NaN survives the AM/PM rule, and every comparison with it
is false, so such a schedule conflicts with nothing. `Math.floor` is
`.Floor`. The GE
list is a parameter. Sections are compared by identity in the source;
here "another section" means "another position in the list".

## Model

| member | source | states |
|---|---|---|
| Text.IndexOf | le3.js:26 | the result is the position of the first occurrence of the character, or the length when there is none |
| Text.SplitPieces | le3.js:26 | `split` gives one piece more than there are separators; no piece holds the separator; joining the pieces with it gives the string back |
| Text.SplitFirstTwo | le3.js:27-28 | the first two pieces of a split sit at the front, separated by the separator; the second ends at the end or at the next separator |
| Text.SplitCount | le3.js:139 | one piece more than there are separators |
| Text.TrimShape | le3.js:25 | `trim` leaves a slice with no white space at either end and only white space around it |
| Text.TrimNoop | le3.js:119 | a string with no white space at either end is its own `trim` |
| Text.IsDigit | le3.js:67 | the characters `isNaN(parseInt(c))` rejects are exactly those outside `0`..`9` |
| Text.Trim | le3.js:25 | `trim`: leading, then trailing white space removed (characterised by `TrimShape`) |
| Text.Split | le3.js:26 | `split` on one character gives at least one piece (characterised by `SplitPieces`) |
| Text.Contains | le3.js:88 | `includes`, searched from the left (characterised by `ContainsAt`) |
| Text.LowerChar | le3.js:125 | an ASCII capital becomes its small letter, 32 code points on; every other character stays |
| Text.ToLower | le3.js:125 | lower-casing keeps the length, maps every character by `LowerChar`, and leaves no ASCII capital |
| Text.ToLowerIdempotent | le3.js:125 | lower-casing twice is lower-casing once |
| Text.SameUpToCaseLower | le3.js:125 | two strings lower-case to the same string exactly when they differ only in ASCII case |
| Text.ContainsAt | le3.js:88 | `includes` holds exactly when the needle is a prefix of some suffix |
| Text.ContainsInside | le3.js:88 | a string contains anything placed inside it |
| Text.ContainsNeedsHead | le3.js:88 | a needle whose first character does not occur in the string is not contained in it |
| Days.Ordinal | le3.js:33-53 | every weekday tag has one of the six values 0..5 |
| Days.DaysOf | le3.js:30-58 | the day set of a string of day letters, one letter at a time (characterised by `DaysOfMembership`) |
| Days.OrdinalInjective | le3.js:33-53 | distinct tags get distinct numbers, so a set of tags stands for the source's set of numbers |
| Days.DaysOfMembership | le3.js:30-58 | M, W, F and S are present exactly when their letter is; Th exactly when some T is followed by h; T exactly when some T is last or not followed by h |
| Days.OtherLettersIgnored | le3.js:55-56 | characters that are not M, T, W, F or S add no day |
| Days.DaysOfExamples | le3.js:30-58 | `"TTh"` is {T, Th}, `"MTWThF"` is {M, T, W, Th, F}, `"Th"` is {Th}, `"W"` is {W}, `"M"` is {M} |
| Days.DecodeDays | le3.js:30-58 | the loop builds exactly the day set of its letters |
| Clock.NumeralValue | le3.js:74 | the decimal numeral starting at a digit: two digits when the next character is a digit, one otherwise; below 100 |
| Clock.Plus | le3.js:70 | JavaScript `+` on a `Number`, which is an exact value or NaN: NaN when either side is NaN, the sum otherwise |
| Clock.Times | le3.js:69 | `output *= 10`: NaN stays NaN, a value is multiplied |
| Clock.Div | le3.js:74 | `/ 60`: NaN stays NaN, a value is divided |
| Clock.Less | le3.js:107 | JavaScript `<`: false whenever either side is NaN |
| Clock.MinuteNumeral | le3.js:74 | `parseInt` of the two characters at a digit is NaN exactly for `0x`/`0X`, and otherwise the numeral starting there |
| Clock.Step | le3.js:67-79 | one iteration of the scanning loop: a digit before the colon shifts the value one decimal place and adds itself, a digit after it adds its numeral over 60, any other character leaves the value; a colon raises the flag |
| Clock.ScanTime | le3.js:63-82 | the value `convertTo12Hours` returns, the loop run over the whole string (characterised by `ScanTimeDecomposed`) |
| Clock.ConvertTo12Hours | le3.js:63-82 | the loop returns exactly the scanned value |
| Clock.ScanUpToShape | le3.js:66-80 | before the first colon the scanner holds the decimal value of the digits seen and the flag is down; after it, the flag is up and the value is the hours plus the minute contributions, or NaN once a `0x`/`0X` pair has been met |
| Clock.ScanTimeDecomposed | le3.js:63-82 | the scanned value is NaN exactly when a `0x`/`0X` pair starts after the first colon; otherwise it is the decimal value of the digits before the colon plus, for each digit after it, the numeral starting there over 60 |
| Clock.ScanTimeWithoutColon | le3.js:67-71 | without a colon the value is the decimal value of the digits, non-digits skipped |
| Clock.ScanTimeNonNegative | le3.js:63-82 | a scanned value that is a number is never negative |
| Clock.ScanTimeHexNaN | le3.js:72-75 | a `0x`/`0X` pair after the colon makes the value NaN, whatever follows |
| Clock.ScanTimeHexExample | le3.js:74 | `"1:0x"` scans to NaN |
| Clock.HexBetweenExists | le3.js:72-75 | the recursive test for a `0x`/`0X` pair in a range holds exactly when some position in it starts one |
| Clock.QuirkValue | le3.js:66-80 | a first colon followed by two digits and then no digits gives the hours plus `(10a + 2b)/60` |
| Clock.MinuteQuirk | le3.js:72-75 | `h:ab` followed by letters scans to `h + (10a + 2b)/60`, unless `b` is 0 and an `x`/`X` follows |
| Clock.ScanTimeExamples | le3.js:63-82 | `"11:30AM"` scans to 11.5 and `"1:45PM"` to 1 + 50/60, among others |
| Clock.MinuteSum | le3.js:72-75 | the minute contributions are never negative |
| Clock.MinuteSumNoDigits | le3.js:67 | a range without digits adds nothing and holds no `0x` pair |
| Clock.MinuteSumSplit | le3.js:66 | the minute contributions of adjacent ranges add up |
| Schedules.TokenLayout | le3.js:25-28 | the day letters run up to the first space of the trimmed token and the time range up to the next space or the end |
| Schedules.TimeRangeLayout | le3.js:60 | the start runs up to the first `-`, the end up to the second `-` or the end; anything after a second `-` is ignored |
| Schedules.TokenFields | le3.js:25-60 | a token laid out as letters, space, start, `-`, end and further words reads back into exactly those parts |
| Schedules.NoonShift | le3.js:93 | `Math.floor(x) != 12 ? 12 : 0`: 12, except 0 for a number whose hour is 12; `Math.floor(NaN)` is not 12, so NaN gets 12 |
| Schedules.Shifted | le3.js:97-98 | `x += Math.floor(x) != 12 ? 12 : 0`: the time plus its noon-aware shift, NaN staying NaN |
| Schedules.ApplySuffix | le3.js:88-99 | each time is raw or raw + 12, so NaN stays NaN; a numeric end moves exactly when the end text has no `AM` and its hour is not 12; a numeric start moves exactly when neither text has `AM` and its hour is not 12 |
| Schedules.EndMovesAfterAM | le3.js:91-94 | with `AM` in the start text and none in the end text, only the end takes the shift |
| Schedules.BothMoveWithoutAM | le3.js:95-99 | with no `AM` in either text, both times take the noon-aware 12-hour shift |
| Schedules.SuffixExamples | le3.js:88-99 | `"10-11:30AM"` is (10, 11.5), `"10AM-12PM"` is (10, 12), `"1-2PM"` is (13, 14) |
| Schedules.ParseSchedule | le3.js:20-102 | the days are those of the day letters; each time is its scanned value or that plus 12; a time is NaN exactly when its text scans to NaN; a numeric time is never negative |
| Schedules.ParseLaidOutToken | le3.js:20-102 | a laid-out token parses to the days of its letters and its two times after the AM/PM rule |
| Schedules.NewSchedule | le3.js:20-102 | the constructor's steps, with the in-place updates of the two times, give exactly the parsed schedule |
| Schedules.HasConflict | le3.js:103-111 | the loop answers exactly whether a weekday is shared and the intervals overlap strictly, comparisons with NaN being false |
| Schedules.Conflicts | le3.js:103-111 | `Schedule.hasConflict`'s answer: a weekday in common, and each interval starts strictly before the other ends |
| Schedules.ConflictsSymmetric | le3.js:103-111 | schedule conflict is symmetric |
| Schedules.TouchingNeverConflict | le3.js:107 | intervals that only touch never conflict |
| Schedules.DisjointDaysNeverConflict | le3.js:105-110 | schedules with no common weekday never conflict |
| Schedules.NaNNeverConflicts | le3.js:107 | a schedule with a NaN time conflicts with nothing, in either order |
| Schedules.ConflictExamples | le3.js:103-111 | touching T/Th blocks do not conflict; overlapping Tuesday blocks do |
| Sections.IsGE | le3.js:125 | true exactly when some lower-cased GE entry occurs in the lower-cased name |
| Sections.IsGEIgnoresCase | le3.js:125 | the GE test gives the same answer when the name or the GE entries are rewritten in other ASCII capitals |
| Sections.ParseSection | le3.js:113-126 | one schedule per `;`-piece of the schedule block, in order, each the parse of its piece; the GE flag as for `IsGE` |
| Sections.LineLayout | le3.js:119-122 | the name is the trimmed line up to its first comma; the schedule block runs to the second comma or the end; the rest is dropped |
| Sections.ScheduleCount | le3.js:123 | a section has one schedule more than there are `;` in its block, and no token holds a `;` |
| Sections.ParseOneTokenLine | le3.js:113-126 | a line of a name and a single token is that name with that one schedule |
| Sections.HasConflict | le3.js:127-136 | the nested loops answer exactly whether some pair of schedules conflicts |
| Sections.SectionsConflict | le3.js:127-136 | `Section.hasConflict`'s answer: some schedule of the one section conflicts with some schedule of the other |
| Sections.SectionsConflictSymmetric | le3.js:127-136 | section conflict is symmetric |
| Sections.DisjointDaysSectionsNeverConflict | le3.js:127-136 | sections whose schedules share no weekday never conflict |
| Queries.ParseInput | le3.js:138-140 | one section per line, in line order, and one line more than there are newlines |
| Queries.KeepSelects | le3.js:143 | `filter` keeps the flagged elements in order: they come from strictly ascending positions, and these are exactly the flagged ones |
| Queries.SelectsMembership | le3.js:143 | an element is in a filter exactly when it sits at a flagged position |
| Queries.Keep | le3.js:143 | `filter`: the elements whose flag is set, in their original order (characterised by `KeepSelects`) |
| Queries.GetGEs | le3.js:142-144 | selects, in order, exactly the sections whose GE flag is set |
| Queries.GetGEsMembership | le3.js:142-144 | a section is among the GEs exactly when it is one of the sections and a GE |
| Queries.HasRival | le3.js:147 | the `some` of `getAllWithConflict`: the section conflicts with a section at another position |
| Queries.GetAllWithConflict | le3.js:146-148 | selects, in order, exactly the sections that conflict with a section at another position |
| Queries.LoneSectionNeverConflicts | le3.js:147 | a single section is never reported, even if it conflicts with itself |
| Queries.RivalsBothReported | le3.js:146-148 | both sections of a conflicting pair are reported |
| Queries.ReportedHaveRivals | le3.js:146-148 | a section is reported exactly when it sits at a position that conflicts with another position |
| Queries.DuplicatesBothReported | le3.js:147 | two copies of a self-conflicting section are both reported |
| Samples.ParseScheduleMorning | le3.js:4 | `"TTh 10-11:30AM lec ERDT"` is {T, Th} from 10 to 11.5 |
| Samples.ParseScheduleToNoon | le3.js:5 | `"W 10AM-12PM lab TBA"` is {W} from 10 to 12 |
| Samples.ParseScheduleAfternoon | le3.js:7 | `"TTh 1-2PM lec P&G"` is {T, Th} from 13 to 14 |
| Samples.GEMatchIgnoresCase | le3.js:125 | the GE entry `"cs"` matches the name `"CS 12 LEC 2"` |
| Samples.ParseSampleLine | le3.js:7 | the line `"CS 12 LEC 2,TTh 1-2PM lec P&G"` is that name, one afternoon schedule, and a GE match on `"cs"` |
| Samples.HexStartSuffix | le3.js:88-99 | the AM/PM rule takes `"1:0x-2PM"` to (NaN, 14) |
| Samples.ParseHexStartToken | le3.js:20-102 | `"M 1:0x-2PM lec TBA"` is {M} from NaN to 14 |
| Samples.ParseScheduleHexStart | le3.js:103-111 | that schedule conflicts with nothing, not even Monday 13 to 14 |

## Left out

- The sample text blocks (le3.js:4-17) and the driver that prints the parsed sections (le3.js:150-153) are demonstration only. `Samples` reads some sample lines through the model.
- The `./gelist` module (le3.js:18) is not part of this model. The GE list is a parameter of `IsGE`, `ParseSection` and `ParseInput`.
- Inputs the source cannot read are preconditions, not results. The source throws on them: a token with no space, a time range with no `-` (le3.js:60, 84), and a line with no comma after trimming (le3.js:123). `WellFormedToken`, `WellFormedLine` and `WellFormedInput` exclude these. This includes a blank line, which throws at le3.js:123, so an input that ends in a newline is outside `WellFormedInput`.
- Times are exact rationals, not IEEE-754 doubles, so rounding is not modelled, and it can change a conflict answer on ordinary input. `"1:55"` is 1.9999999999999998 in doubles but exactly 2 in the model, so `"M 1:55-3AM"` against `"M 1-2AM"` (where no 12 is added) conflicts in the source (1.9999999999999998 < 2) and not in the model (2 < 2). Where 12 is added the difference can vanish: 1.9999999999999998 + 12 rounds to 14 in doubles.
- `Text.ToLower`: lower-cases the ASCII letters only, because `toLowerCase` on other Unicode letters is not modelled. `trim` removes the ECMAScript white-space and line-terminator code points.
- Schedules and sections are values. The source's objects and their field assignments in the constructors become datatype values, and object identity in `getAllWithConflict` (le3.js:147) becomes distinctness of list positions.
- `Schedules.HasConflict` goes through the days of the first schedule in an arbitrary order and returns the time test at the first one the second schedule also has; the source goes through them in the `Set`'s insertion order. The answer does not depend on the order, because the time test does not involve the day.
- The `timeStart = 0` and `timeEnd = 2359` defaults (le3.js:22-23) are always overwritten before the constructor returns, so they are not modelled.
