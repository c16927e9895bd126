/**
 Day letters of a schedule token (le3.js:29-58). The six tags are numbered
 M = 0, T = 1, W = 2, Th = 3, F = 4, S = 5 in the source; there is no Sunday.
 */
module Days {

  datatype Weekday = M | T | W | Th | F | S

  /** The enumeration value the source stores for each tag. */
  function Ordinal(d: Weekday): (n: nat)
    ensures n < 6
  {
    match d
    case M => 0
    case T => 1
    case W => 2
    case Th => 3
    case F => 4
    case S => 5
  }

  /**
   Distinct tags get distinct numbers, so a set of tags stands for the
   source's `Set` of numbers one for one.
   */
  lemma OrdinalInjective(d: Weekday, e: Weekday)
    requires Ordinal(d) == Ordinal(e)
    ensures d == e
  {
  }

  /** What the character at position `i` adds: a `T` looks one character ahead for `h`. */
  function DayAt(s: string, i: nat): set<Weekday>
    requires i < |s|
  {
    match s[i]
    case 'M' => {M}
    case 'T' => if i + 1 < |s| && s[i + 1] == 'h' then {Th} else {T}
    case 'W' => {W}
    case 'F' => {F}
    case 'S' => {S}
    case _ => {}
  }

  /** The day set after the first `n` iterations of the loop over the day letters. */
  function DaysUpTo(s: string, n: nat): set<Weekday>
    requires n <= |s|
  {
    if n == 0 then {} else DaysUpTo(s, n - 1) + DayAt(s, n - 1)
  }

  /** The day set a day-letter string decodes to. */
  function DaysOf(s: string): set<Weekday>
  {
    DaysUpTo(s, |s|)
  }

  lemma {:induction false} DaysUpToMember(s: string, n: nat, d: Weekday)
    requires n <= |s|
    ensures d in DaysUpTo(s, n) <==> exists i :: 0 <= i < n && d in DayAt(s, i)
  {
    if n > 0 {
      DaysUpToMember(s, n - 1, d);
    }
  }

  /**
   Which letters give which days: `M`, `W`, `F` and `S` each give their own
   tag; a `T` gives Thursday when an `h` follows it and Tuesday otherwise,
   also when it is the last letter; nothing else gives anything.
   */
  lemma DaysOfMembership(s: string)
    ensures M in DaysOf(s) <==> 'M' in s
    ensures W in DaysOf(s) <==> 'W' in s
    ensures F in DaysOf(s) <==> 'F' in s
    ensures S in DaysOf(s) <==> 'S' in s
    ensures Th in DaysOf(s) <==> exists i :: 0 <= i < |s| - 1 && s[i] == 'T' && s[i + 1] == 'h'
    ensures T in DaysOf(s) <==> exists i :: 0 <= i < |s| && s[i] == 'T' && (i == |s| - 1 || s[i + 1] != 'h')
  {
    DaysUpToMember(s, |s|, M);
    DaysUpToMember(s, |s|, W);
    DaysUpToMember(s, |s|, F);
    DaysUpToMember(s, |s|, S);
    DaysUpToMember(s, |s|, Th);
    DaysUpToMember(s, |s|, T);
    assert forall i :: 0 <= i < |s| ==> (M in DayAt(s, i) <==> s[i] == 'M');
    assert forall i :: 0 <= i < |s| ==> (W in DayAt(s, i) <==> s[i] == 'W');
    assert forall i :: 0 <= i < |s| ==> (F in DayAt(s, i) <==> s[i] == 'F');
    assert forall i :: 0 <= i < |s| ==> (S in DayAt(s, i) <==> s[i] == 'S');
  }

  /** Letters other than the six day letters never add a day. */
  lemma {:induction false} OtherLettersIgnored(s: string)
    requires forall i :: 0 <= i < |s| ==> s[i] !in "MTWFS"
    ensures DaysOf(s) == {}
  {
    forall d | d in DaysOf(s) ensures false {
      DaysUpToMember(s, |s|, d);
    }
  }

  /**
   `"TTh"` is Tuesday and Thursday, `"MTWThF"` is Monday to Friday, a lone
   `"Th"` is Thursday only, and `"W"` and `"M"` are their own days.
   */
  lemma DaysOfExamples()
    ensures DaysOf("TTh") == {T, Th}
    ensures DaysOf("MTWThF") == {M, T, W, Th, F}
    ensures DaysOf("Th") == {Th}
    ensures DaysOf("W") == {W}
    ensures DaysOf("M") == {M}
  {
    var a := "TTh";
    assert DaysUpTo(a, 1) == {T};
    assert DaysUpTo(a, 2) == {T, Th};
    var b := "MTWThF";
    assert DaysUpTo(b, 2) == {M, T};
    assert DaysUpTo(b, 4) == {M, T, W, Th};
    assert DaysUpTo(b, 6) == {M, T, W, Th, F};
    assert DaysUpTo("Th", 1) == {Th};
    assert DaysUpTo("W", 1) == {W};
    assert DaysUpTo("M", 1) == {M};
  }

  /** The loop at le3.js:30-58, adding each letter's day to the set in turn. */
  method DecodeDays(dateString: string) returns (daySchedule: set<Weekday>)
    ensures daySchedule == DaysOf(dateString)
  {
    daySchedule := {};
    for i := 0 to |dateString|
      invariant daySchedule == DaysUpTo(dateString, i)
    {
      match dateString[i]
      case 'M' =>
        daySchedule := daySchedule + {M};
      case 'T' =>
        if i + 1 < |dateString| && dateString[i + 1] == 'h' {
          daySchedule := daySchedule + {Th};
        } else {
          daySchedule := daySchedule + {T};
        }
      case 'W' =>
        daySchedule := daySchedule + {W};
      case 'F' =>
        daySchedule := daySchedule + {F};
      case 'S' =>
        daySchedule := daySchedule + {S};
      case _ =>
    }
  }
}
