/**
 The exported queries of le3.js: `parseInput` (lines 138-140), `getGEs`
 (lines 142-144) and `getAllWithConflict` (lines 146-148). Each is a
 `split`/`map` or a `filter`, so each is a function here.
 */
module Queries {
  import opened Text
  import opened Schedules
  import opened Sections

  /** The input's lines, split on newline characters. */
  function Lines(input: string): seq<string>
  {
    Split(input, '\n')
  }

  /** Every line is one the `Section` constructor can read without throwing. */
  predicate WellFormedInput(input: string)
  {
    forall k :: 0 <= k < |Lines(input)| ==> WellFormedLine(Lines(input)[k])
  }

  /**
   `parseInput`: one section per line, in line order; there is one line more
   than there are newline characters.
   */
  function ParseInput(input: string, geList: seq<string>): (r: seq<Section>)
    requires WellFormedInput(input)
    ensures |r| == |Lines(input)| == multiset(input)['\n'] + 1
    ensures forall k :: 0 <= k < |r| ==> r[k] == ParseSection(Lines(input)[k], geList)
  {
    SplitCount(input, '\n');
    var lines := Lines(input);
    seq(|lines|, k requires 0 <= k < |lines| => ParseSection(lines[k], geList))
  }

  /** `filter`: the elements of `s` whose flag in `keep` is set, in their original order. */
  function Keep<X>(s: seq<X>, keep: seq<bool>): seq<X>
    requires |keep| == |s|
  {
    if s == [] then [] else (if keep[0] then [s[0]] else []) + Keep(s[1..], keep[1..])
  }

  /** The indices in `ks` ascend strictly and stay below `n`. */
  ghost predicate Ascending(ks: seq<nat>, n: nat)
  {
    (forall k :: 0 <= k < |ks| ==> ks[k] < n) &&
    (forall k, l :: 0 <= k < l < |ks| ==> ks[k] < ks[l])
  }

  /**
   `r` lists the elements of `s` at the strictly ascending positions `ks`,
   and those are exactly the positions whose flag in `keep` is set.
   */
  ghost predicate SelectedAt<X>(ks: seq<nat>, r: seq<X>, s: seq<X>, keep: seq<bool>)
  {
    |keep| == |s| && |ks| == |r| && Ascending(ks, |s|) &&
    (forall k :: 0 <= k < |ks| ==> r[k] == s[ks[k]]) &&
    (forall i :: 0 <= i < |s| ==> (keep[i] <==> i in ks))
  }

  /** `r` is a filter of `s` by the flags `keep`: order kept, nothing else added or dropped. */
  ghost predicate Selects<X>(r: seq<X>, s: seq<X>, keep: seq<bool>)
  {
    exists ks :: SelectedAt(ks, r, s, keep)
  }

  /** The positions `ks` moved one place on. */
  function Shift(ks: seq<nat>): (r: seq<nat>)
    ensures |r| == |ks| && forall k :: 0 <= k < |ks| ==> r[k] == ks[k] + 1
  {
    seq(|ks|, k requires 0 <= k < |ks| => ks[k] + 1)
  }

  lemma ShiftMembers(ks: seq<nat>)
    ensures 0 !in Shift(ks)
    ensures forall i :: 1 <= i ==> (i in Shift(ks) <==> i - 1 in ks)
  {
    forall i | 1 <= i ensures i in Shift(ks) <==> i - 1 in ks {
      if i - 1 in ks {
        var k :| 0 <= k < |ks| && ks[k] == i - 1;
        assert Shift(ks)[k] == i;
      }
    }
  }

  /** Dropping a first element whose flag is clear: the positions move one place on. */
  lemma SelectedSkip<X>(ks: seq<nat>, tail: seq<X>, s: seq<X>, keep: seq<bool>)
    requires |s| >= 1 && |keep| == |s| && !keep[0]
    requires SelectedAt(ks, tail, s[1..], keep[1..])
    ensures SelectedAt(Shift(ks), tail, s, keep)
  {
    ShiftMembers(ks);
  }

  /** Keeping a first element whose flag is set: position 0, then the others moved on. */
  lemma SelectedTake<X>(ks: seq<nat>, tail: seq<X>, s: seq<X>, keep: seq<bool>)
    requires |s| >= 1 && |keep| == |s| && keep[0]
    requires SelectedAt(ks, tail, s[1..], keep[1..])
    ensures SelectedAt([0] + Shift(ks), [s[0]] + tail, s, keep)
  {
    ShiftMembers(ks);
    var ks2 := [0] + Shift(ks);
    assert forall i :: 1 <= i < |s| ==> (i in ks2 <==> i in Shift(ks));
  }

  lemma {:induction false} KeepSelects<X>(s: seq<X>, keep: seq<bool>)
    requires |keep| == |s|
    ensures Selects(Keep(s, keep), s, keep)
  {
    if s == [] {
      assert SelectedAt([], Keep(s, keep), s, keep);
    } else {
      KeepSelects(s[1..], keep[1..]);
      var tail := Keep(s[1..], keep[1..]);
      var ks :| SelectedAt(ks, tail, s[1..], keep[1..]);
      if keep[0] {
        SelectedTake(ks, tail, s, keep);
        assert SelectedAt([0] + Shift(ks), Keep(s, keep), s, keep);
      } else {
        SelectedSkip(ks, tail, s, keep);
        assert SelectedAt(Shift(ks), Keep(s, keep), s, keep);
      }
    }
  }

  /** An element is in a filter of `s` exactly when it sits in `s` at a kept position. */
  lemma SelectsMembership<X>(r: seq<X>, s: seq<X>, keep: seq<bool>, x: X)
    requires Selects(r, s, keep)
    ensures x in r <==> exists i :: 0 <= i < |s| && keep[i] && s[i] == x
  {
    var ks :| SelectedAt(ks, r, s, keep);
    if x in r {
      var k :| 0 <= k < |r| && r[k] == x;
      assert keep[ks[k]];
    }
    if exists i :: 0 <= i < |s| && keep[i] && s[i] == x {
      var i :| 0 <= i < |s| && keep[i] && s[i] == x;
      var k :| 0 <= k < |ks| && ks[k] == i;
      assert r[k] == x;
    }
  }

  /** The flags of `getGEs`: the section's own `isGE`. */
  function GEFlags(sections: seq<Section>): (r: seq<bool>)
    ensures |r| == |sections| && forall i :: 0 <= i < |sections| ==> r[i] == sections[i].isGE
  {
    seq(|sections|, i requires 0 <= i < |sections| => sections[i].isGE)
  }

  /** `getGEs`: the GE sections, in their original order. */
  function GetGEs(sections: seq<Section>): (r: seq<Section>)
    ensures Selects(r, sections, GEFlags(sections))
  {
    KeepSelects(sections, GEFlags(sections));
    Keep(sections, GEFlags(sections))
  }

  /** A section is among the GEs exactly when it is one of the sections and is a GE. */
  lemma GetGEsMembership(sections: seq<Section>, x: Section)
    ensures x in GetGEs(sections) <==> x in sections && x.isGE
  {
    SelectsMembership(GetGEs(sections), sections, GEFlags(sections), x);
  }

  /**
   The section at `i` conflicts with some other section of the list. Sections
   are compared by identity in the source, so "other" means another position.
   */
  predicate HasRival(sections: seq<Section>, i: nat)
    requires i < |sections|
  {
    exists j :: 0 <= j < |sections| && j != i && SectionsConflict(sections[i], sections[j])
  }

  /** The flags of `getAllWithConflict`. */
  function RivalFlags(sections: seq<Section>): (r: seq<bool>)
    ensures |r| == |sections| && forall i :: 0 <= i < |sections| ==> r[i] == HasRival(sections, i)
  {
    seq(|sections|, i requires 0 <= i < |sections| => HasRival(sections, i))
  }

  /** `getAllWithConflict`: the sections that conflict with another one, in their original order. */
  function GetAllWithConflict(sections: seq<Section>): (r: seq<Section>)
    ensures Selects(r, sections, RivalFlags(sections))
  {
    KeepSelects(sections, RivalFlags(sections));
    Keep(sections, RivalFlags(sections))
  }

  /** A lone section has nothing to conflict with, not even itself. */
  lemma LoneSectionNeverConflicts(x: Section)
    ensures GetAllWithConflict([x]) == []
  {
    assert !HasRival([x], 0);
    assert RivalFlags([x]) == [false];
    assert Keep([x], [false]) == Keep([x][1..], [false][1..]);
  }

  /** Both sections of a conflicting pair are reported, whichever order they come in. */
  lemma RivalsBothReported(sections: seq<Section>, i: nat, j: nat)
    requires i < |sections| && j < |sections| && i != j
    requires SectionsConflict(sections[i], sections[j])
    ensures sections[i] in GetAllWithConflict(sections)
    ensures sections[j] in GetAllWithConflict(sections)
  {
    var r := GetAllWithConflict(sections);
    SectionsConflictSymmetric(sections[i], sections[j]);
    assert HasRival(sections, i);
    assert HasRival(sections, j);
    SelectsMembership(r, sections, RivalFlags(sections), sections[i]);
    SelectsMembership(r, sections, RivalFlags(sections), sections[j]);
  }

  /**
   A section that is reported conflicts with some section of the list, and a
   section whose schedules meet no other section's is not reported.
   */
  lemma ReportedHaveRivals(sections: seq<Section>, x: Section)
    ensures x in GetAllWithConflict(sections) <==>
      exists i :: 0 <= i < |sections| && sections[i] == x && HasRival(sections, i)
  {
    SelectsMembership(GetAllWithConflict(sections), sections, RivalFlags(sections), x);
  }

  /**
   Two copies of the same self-conflicting section are two objects in the
   source, so each is the other's rival and both are reported.
   */
  lemma DuplicatesBothReported(x: Section)
    requires SectionsConflict(x, x)
    ensures GetAllWithConflict([x, x]) == [x, x]
  {
    var s := [x, x];
    assert HasRival(s, 0) by {
      assert s[0] == x && s[1] == x;
    }
    assert HasRival(s, 1) by {
      assert s[1] == x && s[0] == x;
    }
    assert RivalFlags(s) == [true, true];
    assert s[1..] == [x] && [true, true][1..] == [true];
    assert Keep([x], [true]) == [x] + Keep([x][1..], [true][1..]);
    assert Keep(s, [true, true]) == [x] + Keep([x], [true]);
  }
}
