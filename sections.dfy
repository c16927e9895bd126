/**
 One line of input, such as `"CS 11 CLASS 1,W 10AM-12PM lab TBA; F 10AM-1PM lec TBA"`:
 the `Section` constructor of le3.js (lines 113-126) and `Section.hasConflict`
 (lines 127-136). The GE list, which the source imports from a module of its
 own, is a parameter.
 */
module Sections {
  import opened Text
  import opened Schedules

  datatype Section = Section(name: string, schedules: seq<Schedule>, isGE: bool)

  /** The trimmed line split on commas: the name, then the schedule block, then the rest. */
  function Fields(line: string): seq<string>
  {
    Split(Trim(line), ',')
  }

  /** The schedule tokens: the text between the first and second comma, split on `;`. */
  function ScheduleTokens(line: string): seq<string>
    requires |Fields(line)| >= 2
  {
    Split(Fields(line)[1], ';')
  }

  /**
   What the constructor needs to run without throwing: a comma in the
   trimmed line (otherwise `scheduleStrings` is `undefined`), and a
   well-formed schedule token in every `;`-piece.
   */
  predicate WellFormedLine(line: string)
  {
    |Fields(line)| >= 2 &&
    forall k :: 0 <= k < |ScheduleTokens(line)| ==> WellFormedToken(ScheduleTokens(line)[k])
  }

  /**
   `ge_list.some(elem => name.toLowerCase().includes(elem.toLowerCase()))`:
   some entry of the list, lower-cased, occurs in the lower-cased name.
   */
  function IsGE(name: string, geList: seq<string>): (b: bool)
    ensures b <==> exists k :: 0 <= k < |geList| && Contains(ToLower(name), ToLower(geList[k]))
  {
    if geList == [] then false
    else Contains(ToLower(name), ToLower(geList[0])) || IsGE(name, geList[1..])
  }

  /**
   The GE test ignores ASCII case on both sides: renaming a section or
   rewriting the GE entries with other capitals does not change it.
   */
  lemma IsGEIgnoresCase(n1: string, n2: string, g1: seq<string>, g2: seq<string>)
    requires SameUpToCase(n1, n2)
    requires |g1| == |g2| && forall k :: 0 <= k < |g1| ==> SameUpToCase(g1[k], g2[k])
    ensures IsGE(n1, g1) == IsGE(n2, g2)
  {
    SameUpToCaseLower(n1, n2);
    forall k | 0 <= k < |g1| ensures ToLower(g1[k]) == ToLower(g2[k]) {
      SameUpToCaseLower(g1[k], g2[k]);
    }
  }

  /**
   The section a line describes: its name, one schedule per `;`-piece of the
   schedule block in input order, and whether it is a GE offering.
   */
  function ParseSection(line: string, geList: seq<string>): (r: Section)
    requires WellFormedLine(line)
    ensures r.name == Fields(line)[0]
    ensures |r.schedules| == |ScheduleTokens(line)|
    ensures forall k :: 0 <= k < |r.schedules| ==> r.schedules[k] == ParseSchedule(ScheduleTokens(line)[k])
    ensures r.isGE <==> exists k :: 0 <= k < |geList| && Contains(ToLower(r.name), ToLower(geList[k]))
  {
    var tokens := ScheduleTokens(line);
    var name := Fields(line)[0];
    Section(name, seq(|tokens|, k requires 0 <= k < |tokens| => ParseSchedule(tokens[k])), IsGE(name, geList))
  }

  /**
   Where the parts of a line sit: the name is the trimmed line up to its first
   comma, the schedule block runs from there to the second comma or the end,
   and anything after a second comma is dropped.
   */
  lemma LineLayout(line: string)
    requires |Fields(line)| >= 2
    ensures var name, block := Fields(line)[0], Fields(line)[1];
      name + [','] + block <= Trim(line) && ',' !in name && ',' !in block &&
      (|name| + 1 + |block| == |Trim(line)| || Trim(line)[|name| + 1 + |block|] == ',')
  {
    SplitFirstTwo(Trim(line), ',');
  }

  /**
   A section has one schedule per `;` of its schedule block plus one, so
   always at least one, and each schedule token is free of `;`.
   */
  lemma ScheduleCount(line: string, geList: seq<string>)
    requires WellFormedLine(line)
    ensures |ParseSection(line, geList).schedules| == multiset(Fields(line)[1])[';'] + 1
    ensures forall k :: 0 <= k < |ScheduleTokens(line)| ==> ';' !in ScheduleTokens(line)[k]
  {
    SplitPieces(Fields(line)[1], ';');
  }

  /**
   A line made of a name and a single schedule token, with no comma in either
   and no `;` in the token, is that name with that one schedule.
   */
  lemma ParseOneTokenLine(name: string, token: string, geList: seq<string>)
    requires ',' !in name && ',' !in token && ';' !in token
    requires Trim(name + [','] + token) == name + [','] + token
    requires WellFormedToken(token)
    ensures var line := name + [','] + token;
      WellFormedLine(line) && ParseSection(line, geList) == Section(name, [ParseSchedule(token)], IsGE(name, geList))
  {
    SplitAfter(name, ',', token);
    SplitNone(token, ',');
    SplitNone(token, ';');
  }

  /** `Section.hasConflict`: some schedule of `sec` conflicts with some schedule of `other`. */
  predicate SectionsConflict(sec: Section, other: Section)
  {
    exists i, j :: 0 <= i < |other.schedules| && 0 <= j < |sec.schedules| &&
      Conflicts(sec.schedules[j], other.schedules[i])
  }

  /**
   The nested loops of le3.js:129-135: over the other section's schedules,
   then this one's, returning at the first conflicting pair.
   */
  method HasConflict(sec: Section, other: Section) returns (r: bool)
    ensures r == SectionsConflict(sec, other)
  {
    for i := 0 to |other.schedules|
      invariant forall i', j :: 0 <= i' < i && 0 <= j < |sec.schedules| ==>
        !Conflicts(sec.schedules[j], other.schedules[i'])
    {
      for j := 0 to |sec.schedules|
        invariant forall j' :: 0 <= j' < j ==> !Conflicts(sec.schedules[j'], other.schedules[i])
      {
        var c := Schedules.HasConflict(sec.schedules[j], other.schedules[i]);
        if c {
          return true;
        }
      }
    }
    return false;
  }

  /** Section conflict is symmetric, because schedule conflict is. */
  lemma SectionsConflictSymmetric(a: Section, b: Section)
    ensures SectionsConflict(a, b) <==> SectionsConflict(b, a)
  {
    if SectionsConflict(a, b) {
      var i, j :| 0 <= i < |b.schedules| && 0 <= j < |a.schedules| && Conflicts(a.schedules[j], b.schedules[i]);
      ConflictsSymmetric(a.schedules[j], b.schedules[i]);
    }
    if SectionsConflict(b, a) {
      var i, j :| 0 <= i < |a.schedules| && 0 <= j < |b.schedules| && Conflicts(b.schedules[j], a.schedules[i]);
      ConflictsSymmetric(b.schedules[j], a.schedules[i]);
    }
  }

  /** Sections whose schedules share no weekday never conflict. */
  lemma DisjointDaysSectionsNeverConflict(a: Section, b: Section)
    requires forall i, j :: 0 <= i < |a.schedules| && 0 <= j < |b.schedules| ==>
      a.schedules[i].days !! b.schedules[j].days
    ensures !SectionsConflict(a, b)
  {
    forall i, j | 0 <= i < |b.schedules| && 0 <= j < |a.schedules|
      ensures !Conflicts(a.schedules[j], b.schedules[i])
    {
      DisjointDaysNeverConflict(a.schedules[j], b.schedules[i]);
    }
  }
}
