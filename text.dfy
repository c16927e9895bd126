/**
 The string primitives that le3.js borrows from JavaScript: `trim`,
 `toLowerCase`, `includes`, `split` with a one-character separator, and the
 digit test behind `isNaN(parseInt(c))`. Strings are sequences of characters.
 */
module Text {

  /** `parseInt` of a one-character string is a number exactly for '0'..'9'. */
  predicate IsDigit(c: char)
  {
    '0' <= c <= '9'
  }

  function DigitValue(c: char): (v: nat)
    requires IsDigit(c)
    ensures v < 10
  {
    c as int - '0' as int
  }

  /** ECMAScript WhiteSpace and LineTerminator code points, the ones `trim` removes. */
  predicate IsSpace(c: char)
  {
    c == '\t' || c == '\n' || c == '\U{000B}' || c == '\U{000C}' || c == '\r' || c == ' '
    || c == '\U{00A0}' || c == '\U{1680}' || ('\U{2000}' <= c <= '\U{200A}')
    || c == '\U{2028}' || c == '\U{2029}' || c == '\U{202F}' || c == '\U{205F}'
    || c == '\U{3000}' || c == '\U{FEFF}'
  }

  predicate AllSpace(s: string)
  {
    forall i :: 0 <= i < |s| ==> IsSpace(s[i])
  }

  /** Drops the leading white space. */
  function TrimStart(s: string): string
    decreases |s|
  {
    if s != [] && IsSpace(s[0]) then TrimStart(s[1..]) else s
  }

  /** Drops the trailing white space. */
  function TrimEnd(s: string): string
    decreases |s|
  {
    if s != [] && IsSpace(s[|s| - 1]) then TrimEnd(s[..|s| - 1]) else s
  }

  /** `String.prototype.trim`. */
  function Trim(s: string): string
  {
    TrimEnd(TrimStart(s))
  }

  lemma {:induction false} TrimStartShape(s: string)
    ensures var r := TrimStart(s);
      |r| <= |s| && r == s[|s| - |r|..] && AllSpace(s[..|s| - |r|]) && (r == [] || !IsSpace(r[0]))
    decreases |s|
  {
    if s != [] && IsSpace(s[0]) {
      TrimStartShape(s[1..]);
      var r := TrimStart(s[1..]);
      assert s[..|s| - |r|] == [s[0]] + s[1..][..|s| - 1 - |r|];
    }
  }

  lemma {:induction false} TrimEndShape(s: string)
    ensures var r := TrimEnd(s);
      |r| <= |s| && r == s[..|r|] && AllSpace(s[|r|..]) && (r == [] || !IsSpace(r[|r| - 1]))
    decreases |s|
  {
    if s != [] && IsSpace(s[|s| - 1]) {
      TrimEndShape(s[..|s| - 1]);
      var r := TrimEnd(s[..|s| - 1]);
      assert s[|r|..] == s[..|s| - 1][|r|..] + [s[|s| - 1]];
    }
  }

  /**
   What `trim` leaves: a slice of `s` that neither starts nor ends with white
   space, with nothing but white space before and after it in `s`.
   */
  lemma TrimShape(s: string)
    ensures var r := Trim(s);
      r == [] || (!IsSpace(r[0]) && !IsSpace(r[|r| - 1]))
    ensures var r := Trim(s); var lead := |s| - |TrimStart(s)|;
      0 <= lead && lead + |r| <= |s| && r == s[lead..lead + |r|] &&
      AllSpace(s[..lead]) && AllSpace(s[lead + |r|..])
  {
    TrimStartShape(s);
    var t := TrimStart(s);
    TrimEndShape(t);
    var r := TrimEnd(t);
    var lead := |s| - |t|;
    assert r != [] ==> r[0] == t[0];
    assert s[lead + |r|..] == t[|r|..];
  }

  /** A string that neither starts nor ends with white space is its own `trim`. */
  lemma TrimNoop(s: string)
    requires s == [] || (!IsSpace(s[0]) && !IsSpace(s[|s| - 1]))
    ensures Trim(s) == s
  {
  }

  /** An ASCII capital becomes its small letter, 32 code points on; every other character stays. */
  function LowerChar(c: char): (d: char)
    ensures 'A' <= c <= 'Z' ==> 'a' <= d <= 'z' && d as int == c as int + 32
    ensures !('A' <= c <= 'Z') ==> d == c
  {
    if 'A' <= c <= 'Z' then (c as int + 32) as char else c
  }

  /** `toLowerCase`, for the ASCII letters: character by character, as `LowerChar`. */
  function ToLower(s: string): (r: string)
    ensures |r| == |s|
    ensures forall i :: 0 <= i < |s| ==> r[i] == LowerChar(s[i])
    ensures forall i :: 0 <= i < |s| ==> !('A' <= r[i] <= 'Z')
  {
    seq(|s|, i requires 0 <= i < |s| => LowerChar(s[i]))
  }

  /** Lower-casing twice is lower-casing once. */
  lemma ToLowerIdempotent(s: string)
    ensures ToLower(ToLower(s)) == ToLower(s)
  {
  }

  /** `a` and `b` differ at most in the case of ASCII letters. */
  predicate SameUpToCase(a: string, b: string)
  {
    |a| == |b| && forall i :: 0 <= i < |a| ==> LowerChar(a[i]) == LowerChar(b[i])
  }

  /** Strings that differ only in ASCII case lower-case to the same string, and only they do. */
  lemma SameUpToCaseLower(a: string, b: string)
    ensures SameUpToCase(a, b) <==> ToLower(a) == ToLower(b)
  {
    if ToLower(a) == ToLower(b) {
      assert |a| == |b|;
      forall i | 0 <= i < |a| ensures LowerChar(a[i]) == LowerChar(b[i]) {
        assert ToLower(a)[i] == ToLower(b)[i];
      }
    }
  }

  /** `s.includes(t)`, searched from the left. */
  predicate Contains(s: string, t: string)
    decreases |s|
  {
    t <= s || (s != [] && Contains(s[1..], t))
  }

  /** `t` is contained in `s` exactly when it is a prefix of some suffix of `s`. */
  lemma {:induction false} ContainsAt(s: string, t: string)
    ensures Contains(s, t) <==> exists i :: 0 <= i <= |s| - |t| && t <= s[i..]
    decreases |s|
  {
    assert s[0..] == s;
    if s != [] {
      ContainsAt(s[1..], t);
      assert forall i :: 1 <= i <= |s| ==> s[i..] == s[1..][i - 1..];
    }
  }

  /** A non-empty `t` whose first character does not occur in `s` is not contained in `s`. */
  lemma {:induction false} ContainsNeedsHead(s: string, t: string)
    requires t != [] && t[0] !in s
    ensures !Contains(s, t)
    decreases |s|
  {
    if s != [] {
      assert s[0] in s;
      ContainsNeedsHead(s[1..], t);
    }
  }

  /** The position of the first `c` in `s`, or `|s|` when there is none. */
  function IndexOf(s: string, c: char): (k: nat)
    ensures k <= |s| && c !in s[..k]
    ensures k < |s| ==> s[k] == c
    ensures k == |s| <==> c !in s
  {
    if s == [] then 0
    else if s[0] == c then 0
    else
      var k := 1 + IndexOf(s[1..], c);
      assert s[..k] == [s[0]] + s[1..][..k - 1];
      k
  }

  /** The first `c` of `a + [c] + rest` is the one after `a`, when `a` holds none. */
  lemma IndexOfAfter(a: string, c: char, rest: string)
    requires c !in a
    ensures IndexOf(a + [c] + rest, c) == |a|
  {
    var s := a + [c] + rest;
    assert s[|a|] == c;
    assert forall i :: 0 <= i < |a| ==> s[i] == a[i];
  }

  /** `pieces` glued back together with `c` between neighbours. */
  function Join(pieces: seq<string>, c: char): string
    requires |pieces| >= 1
  {
    if |pieces| == 1 then pieces[0] else pieces[0] + [c] + Join(pieces[1..], c)
  }

  /** `s.split(c)`: the pieces of `s` between occurrences of `c`, in order. */
  function Split(s: string, c: char): (r: seq<string>)
    ensures |r| >= 1
    decreases |s|
  {
    var k := IndexOf(s, c);
    if k == |s| then [s] else [s[..k]] + Split(s[k + 1..], c)
  }

  /** `s` around its position `k`: the part before, the character there, the part after. */
  lemma SliceAround(s: string, k: nat)
    requires k < |s|
    ensures s == s[..k] + [s[k]] + s[k + 1..]
  {
  }

  /** One step of `split`: the piece before the first separator, then the split of the rest. */
  lemma SplitUnfold(s: string, c: char)
    ensures var k := IndexOf(s, c);
      k < |s| ==> Split(s, c) == [s[..k]] + Split(s[k + 1..], c) && s == s[..k] + [c] + s[k + 1..]
    ensures IndexOf(s, c) == |s| ==> Split(s, c) == [s]
  {
    var k := IndexOf(s, c);
    if k < |s| {
      SliceAround(s, k);
    }
  }

  /** There is one piece more than there are separators. */
  lemma {:induction false} SplitCount(s: string, c: char)
    ensures |Split(s, c)| == multiset(s)[c] + 1
    decreases |s|
  {
    var k := IndexOf(s, c);
    SplitUnfold(s, c);
    if k < |s| {
      SplitCount(s[k + 1..], c);
      assert multiset(s) == multiset(s[..k]) + multiset{c} + multiset(s[k + 1..]);
    }
  }

  /** No piece holds the separator. */
  lemma {:induction false} SplitFree(s: string, c: char)
    ensures forall k :: 0 <= k < |Split(s, c)| ==> c !in Split(s, c)[k]
    decreases |s|
  {
    var k := IndexOf(s, c);
    SplitUnfold(s, c);
    if k < |s| {
      SplitFree(s[k + 1..], c);
    }
  }

  /** Gluing the pieces back together with the separator gives the string. */
  lemma {:induction false} SplitJoin(s: string, c: char)
    ensures Join(Split(s, c), c) == s
    decreases |s|
  {
    var k := IndexOf(s, c);
    SplitUnfold(s, c);
    if k < |s| {
      var rest := Split(s[k + 1..], c);
      SplitJoin(s[k + 1..], c);
      var r := [s[..k]] + rest;
      assert r[1..] == rest;
    }
  }

  /**
   The pieces are the maximal `c`-free runs of `s`: there is one piece more
   than there are separators, no piece holds a `c`, and gluing the pieces
   back together with `c` gives `s`.
   */
  lemma SplitPieces(s: string, c: char)
    ensures |Split(s, c)| == multiset(s)[c] + 1
    ensures forall k :: 0 <= k < |Split(s, c)| ==> c !in Split(s, c)[k]
    ensures Join(Split(s, c), c) == s
  {
    SplitCount(s, c);
    SplitFree(s, c);
    SplitJoin(s, c);
  }

  /**
   The first two pieces of a `split` sit at the front of `s`, separated by
   `c`, and the second one ends at the end of `s` or at the next `c`.
   */
  lemma SplitFirstTwo(s: string, c: char)
    requires |Split(s, c)| >= 2
    ensures var p0, p1 := Split(s, c)[0], Split(s, c)[1];
      p0 + [c] + p1 <= s && c !in p0 && c !in p1 &&
      (|p0| + 1 + |p1| == |s| || s[|p0| + 1 + |p1|] == c)
  {
    var k := IndexOf(s, c);
    SplitUnfold(s, c);
    var t := s[k + 1..];
    var m := IndexOf(t, c);
    SplitUnfold(t, c);
    var p0, p1 := s[..k], t[..m];
    assert Split(s, c)[0] == p0;
    assert Split(s, c)[1] == p1;
    PrefixAfter(p0 + [c], p1, t);
    assert p0 + [c] + t == s;
    if m < |t| {
      assert s[k + 1 + m] == t[m];
    }
  }

  /** A prefix stays a prefix behind a common front part. */
  lemma PrefixAfter(a: string, b: string, t: string)
    requires b <= t
    ensures a + b <= a + t
  {
    assert (a + t)[..|a + b|] == a + b;
  }

  /** Splitting before the first separator: the piece up to it, then the split of the rest. */
  lemma SplitAfter(a: string, c: char, rest: string)
    requires c !in a
    ensures Split(a + [c] + rest, c) == [a] + Split(rest, c)
  {
    var s := a + [c] + rest;
    IndexOfAfter(a, c, rest);
    assert s[..|a|] == a;
    assert s[|a| + 1..] == rest;
  }

  /** A string without a separator is a single piece. */
  lemma SplitNone(s: string, c: char)
    requires c !in s
    ensures Split(s, c) == [s]
  {
  }

  /** `t` is found inside `p + t + q`. */
  lemma ContainsInside(p: string, t: string, q: string)
    ensures Contains(p + t + q, t)
  {
    var s := p + t + q;
    assert t <= s[|p|..];
    ContainsAt(s, t);
  }
}
