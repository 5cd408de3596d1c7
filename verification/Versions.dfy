/** naturalCompare and versionSegments: versions as runs of digits and letters, compared run by run. */
module Versions {
  import opened Results
  import opened Texts

  datatype Kind = Digit | Letter | Other

  function KindOf(c: char): Kind {
    if '0' <= c <= '9' then Digit else if 'a' <= c <= 'z' then Letter else Other
  }

  function LowerChar(c: char): char {
    if 'A' <= c <= 'Z' then c - 'A' + 'a' else c
  }

  /** strings.ToLower, for ASCII text. */
  function Lower(s: string): (l: string)
    ensures |l| == |s| && forall i :: 0 <= i < |s| ==> l[i] == LowerChar(s[i])
  {
    seq(|s|, i requires 0 <= i < |s| => LowerChar(s[i]))
  }

  /** What versionSegments splits: the version without one leading "v", in lower case. */
  function Plain(v: string): string {
    Lower(if HasPrefix(v, "v") then v[1..] else v)
  }

  // ---------- versionSegments ----------

  /** One more character after the text t: it joins the last run, starts a run, or is dropped. */
  function AddChar(parts: seq<string>, t: string, c: char): seq<string> {
    if KindOf(c) == Other then parts
    else if t != [] && KindOf(t[|t| - 1]) == KindOf(c) && parts != [] then
      parts[..|parts| - 1] + [parts[|parts| - 1] + [c]]
    else parts + [[c]]
  }

  /** The maximal runs of digits and of letters, in order. */
  function Segments(t: string): (parts: seq<string>)
    ensures t != [] && KindOf(t[|t| - 1]) != Other ==> parts != []
  {
    if t == [] then [] else AddChar(Segments(t[..|t| - 1]), t[..|t| - 1], t[|t| - 1])
  }

  lemma SegmentsSnoc(t: string, c: char)
    ensures Segments(t + [c]) == AddChar(Segments(t), t, c)
  {
    assert (t + [c])[..|t|] == t;
  }

  /** A run: not empty, all digits or all letters. */
  predicate Run(p: string) {
    p != [] && KindOf(p[0]) != Other && forall i :: 0 <= i < |p| ==> KindOf(p[i]) == KindOf(p[0])
  }

  predicate Runs(parts: seq<string>) {
    forall i {:trigger parts[i]} :: 0 <= i < |parts| ==> Run(parts[i])
  }

  function Joined(parts: seq<string>): string {
    if parts == [] then [] else Joined(parts[..|parts| - 1]) + parts[|parts| - 1]
  }

  function KeptChars(t: string): string {
    if t == [] then []
    else KeptChars(t[..|t| - 1]) + (if KindOf(t[|t| - 1]) == Other then [] else [t[|t| - 1]])
  }

  /** A text that ends in a run has it as its last segment. */
  predicate Ends(parts: seq<string>, t: string) {
    t != [] && KindOf(t[|t| - 1]) != Other ==>
      parts != [] && Run(parts[|parts| - 1]) && KindOf(parts[|parts| - 1][0]) == KindOf(t[|t| - 1])
  }

  lemma AddCharRuns(parts: seq<string>, t: string, c: char)
    requires Runs(parts) && Ends(parts, t)
    ensures Runs(AddChar(parts, t, c)) && Ends(AddChar(parts, t, c), t + [c])
    ensures Joined(AddChar(parts, t, c)) == Joined(parts) + (if KindOf(c) == Other then [] else [c])
  {
    if KindOf(c) != Other {
      var m := |parts| - 1;
      if t != [] && KindOf(t[|t| - 1]) == KindOf(c) && parts != [] {
        assert Run(parts[m] + [c]);
        assert AddChar(parts, t, c)[..m] == parts[..m];
      } else {
        assert Run([c]);
        assert AddChar(parts, t, c)[..|parts|] == parts;
      }
    }
  }

  /** The segments are runs, and together they are the kept characters of the text. */
  lemma {:induction false} SegmentsAreRuns(t: string)
    ensures Runs(Segments(t)) && Ends(Segments(t), t) && Joined(Segments(t)) == KeptChars(t)
  {
    hide AddChar, Runs, Ends, Joined;
    NoSegmentsRun();
    if t != [] {
      var n := |t| - 1;
      SegmentsAreRuns(t[..n]);
      AddCharRuns(Segments(t[..n]), t[..n], t[n]);
      assert t[..n] + [t[n]] == t;
    }
  }

  lemma NoSegmentsRun()
    ensures Runs([]) && Ends([], []) && Joined([]) == []
  {
  }

  lemma NoSegments()
    ensures Segments([]) == []
  {
  }

  /** No run crosses from a into b. */
  predicate Apart(a: string, b: string) {
    a == [] || b == [] || KindOf(a[|a| - 1]) != KindOf(b[0]) || KindOf(b[0]) == Other
  }

  lemma {:induction false} SegmentsSplit(a: string, b: string)
    requires Apart(a, b)
    ensures Segments(a + b) == Segments(a) + Segments(b)
  {
    hide Segments, AddChar;
    NoSegments();
    if b == [] {
      assert a + b == a;
    } else {
      var n := |b| - 1;
      assert Apart(a, b[..n]);
      SegmentsSplit(a, b[..n]);
      SegmentsSnoc(a + b[..n], b[n]);
      SegmentsSnoc(b[..n], b[n]);
      assert (a + b[..n]) + [b[n]] == a + b && b[..n] + [b[n]] == b;
      AddAfter(Segments(a), Segments(b[..n]), a, b[..n], b[n]);
    }
  }

  lemma AddAfter(before: seq<string>, parts: seq<string>, a: string, b: string, c: char)
    requires if b == [] then parts == [] && Apart(a, [c]) else KindOf(b[|b| - 1]) != Other ==> parts != []
    ensures AddChar(before + parts, a + b, c) == before + AddChar(parts, b, c)
  {
    if b == [] {
      assert a + b == a && before + parts == before;
    } else if parts != [] {
      var m := |before + parts| - 1;
      assert (before + parts)[..m] == before + parts[..|parts| - 1];
    }
  }

  lemma {:induction false} SegmentsOfRun(r: string)
    requires Run(r)
    ensures Segments(r) == [r]
  {
    if |r| > 1 {
      var n := |r| - 1;
      SegmentsOfRun(r[..n]);
      assert r == r[..n] + [r[n]];
    } else {
      assert r == [r[0]] && r[..0] == [];
    }
  }

  /** versionSegments. */
  method VersionSegments(v: string) returns (parts: seq<string>)
    ensures parts == Segments(Plain(v))
  {
    hide Segments, Plain;
    var t := Plain(v);
    NoSegments();
    parts := [];
    var current: string, digit := "", false;
    for i := 0 to |t|
      invariant parts + (if current != "" then [current] else []) == Segments(t[..i])
      invariant current != "" <==> i > 0 && KindOf(t[i - 1]) != Other
      invariant current != "" ==> digit == (KindOf(t[i - 1]) == Digit)
    {
      var r := t[i];
      var isDigit := '0' <= r <= '9';
      var isLetter := 'a' <= r <= 'z';
      SegmentsSnoc(t[..i], r);
      assert t[..i + 1] == t[..i] + [r];
      assert i > 0 ==> t[..i][i - 1] == t[i - 1];
      assert current != "" ==> (parts + [current])[..|parts|] == parts;
      assert [] + [r] == [r] && parts + [] == parts;
      if !isDigit && !isLetter {
        if current != "" {
          parts := parts + [current];
          current := "";
        }
        continue;
      }
      if current != "" && isDigit != digit {
        parts := parts + [current];
        current := "";
      }
      current := current + [r];
      digit := isDigit;
    }
    assert t[..|t|] == t;
    if current != "" {
      parts := parts + [current];
    }
  }

  // ---------- numbers ----------

  predicate Number(s: string) {
    forall i :: 0 <= i < |s| ==> '0' <= s[i] <= '9'
  }

  /** The integer a run of digits denotes. */
  function Value(s: string): nat
    requires Number(s)
  {
    if s == [] then 0 else 10 * Value(s[..|s| - 1]) + (s[|s| - 1] - '0') as nat
  }

  /** strings.TrimLeft(s, "0"). */
  function TrimZeros(s: string): string {
    if s != [] && s[0] == '0' then TrimZeros(s[1..]) else s
  }

  function Sign(d: int): int {
    if d < 0 then -1 else if d > 0 then 1 else 0
  }

  lemma {:induction false} ValueWithoutZero(s: string)
    requires Number(s) && s != [] && s[0] == '0'
    ensures Number(s[1..]) && Value(s) == Value(s[1..])
  {
    var n := |s| - 1;
    if n > 0 {
      ValueWithoutZero(s[..n]);
      assert s[1..][..n - 1] == s[..n][1..];
    } else {
      assert s[..n] == [] && s[1..] == [];
    }
  }

  lemma {:induction false} TrimZerosKeepsValue(s: string)
    requires Number(s)
    ensures Number(TrimZeros(s)) && Value(TrimZeros(s)) == Value(s)
    ensures TrimZeros(s) != [] ==> TrimZeros(s)[0] != '0'
  {
    if s != [] && s[0] == '0' {
      ValueWithoutZero(s);
      TrimZerosKeepsValue(s[1..]);
    }
  }

  lemma {:induction false} LongerIsGreater(x: string, y: string)
    requires Number(x) && Number(y) && |x| < |y| && y[0] != '0'
    ensures Value(x) < Value(y)
  {
    var n := |y| - 1;
    if x != [] {
      LongerIsGreater(x[..|x| - 1], y[..n]);
    } else if n > 0 {
      LongerIsGreater(x, y[..n]);
    } else {
      assert y[..n] == [];
    }
  }

  lemma {:induction false} CompareSnoc(x: string, y: string)
    requires |x| == |y| && x != []
    ensures var n := |x| - 1;
            Compare(x, y) == if Compare(x[..n], y[..n]) != 0 then Compare(x[..n], y[..n]) else Compare([x[n]], [y[n]])
  {
    var n := |x| - 1;
    if n > 0 && x[0] == y[0] {
      CompareSnoc(x[1..], y[1..]);
      assert x[..n][1..] == x[1..][..n - 1] && y[..n][1..] == y[1..][..n - 1];
    } else if n == 0 {
      assert x == [x[0]] && y == [y[0]];
    }
  }

  lemma {:induction false} SameLengthCompares(x: string, y: string)
    requires Number(x) && Number(y) && |x| == |y|
    ensures Compare(x, y) == Sign(Value(x) - Value(y))
  {
    if x != [] {
      var n := |x| - 1;
      CompareSnoc(x, y);
      SameLengthCompares(x[..n], y[..n]);
    }
  }

  /** The comparison of two digit runs, at any length, is that of the integers they denote. */
  lemma DigitsCompare(x: string, y: string)
    requires Number(x) && Number(y)
    ensures var nx, ny := TrimZeros(x), TrimZeros(y);
            Sign(Value(x) - Value(y)) == if |nx| != |ny| then (if |nx| < |ny| then -1 else 1) else Compare(nx, ny)
  {
    hide Compare, Value, TrimZeros, Number;
    var nx, ny := TrimZeros(x), TrimZeros(y);
    TrimZerosKeepsValue(x);
    TrimZerosKeepsValue(y);
    if |nx| < |ny| {
      LongerIsGreater(nx, ny);
    } else if |ny| < |nx| {
      LongerIsGreater(ny, nx);
    } else {
      SameLengthCompares(nx, ny);
    }
  }

  // ---------- naturalCompare ----------

  predicate IsWord(s: string) {
    s != "" && (s[0] < '0' || s[0] > '9')
  }

  predicate IsPostRelease(s: string) {
    s == "post" || s == "p" || s == "pl" || s == "patch"
  }

  /** The place of a segment, or of the end of a version, among the kinds: pre-release word, end, number, post-release
      word. */
  function Class(x: Option<string>): nat {
    match x
    case None => 1
    case Some(s) => if !IsWord(s) then 2 else if IsPostRelease(s) then 3 else 0
  }

  predicate Word(x: Option<string>) {
    x.Some? && IsWord(x.value)
  }

  predicate Part(x: Option<string>) {
    x.Some? ==> Run(x.value)
  }

  /** The order at one position: words by their text, numbers by value, and otherwise by class. */
  function At(x: Option<string>, y: Option<string>): int
    requires Part(x) && Part(y)
  {
    if Word(x) && Word(y) then Compare(x.value, y.value)
    else if Class(x) != Class(y) then Sign(Class(x) - Class(y))
    else if x.Some? && y.Some? then Sign(Value(x.value) - Value(y.value))
    else 0
  }

  function Seg(a: seq<string>, i: nat): (x: Option<string>)
    requires Runs(a)
    ensures Part(x)
  {
    if i < |a| then Some(a[i]) else None
  }

  /** The order of two segment lists from position i on: that of the first position where they differ. */
  function From(a: seq<string>, b: seq<string>, i: nat): int
    requires Runs(a) && Runs(b)
    decreases |a| + |b| - i
  {
    if i >= |a| && i >= |b| then 0
    else if At(Seg(a, i), Seg(b, i)) != 0 then At(Seg(a, i), Seg(b, i))
    else From(a, b, i + 1)
  }

  function Natural(v1: string, v2: string): int {
    SegmentsAreRuns(Plain(v1));
    SegmentsAreRuns(Plain(v2));
    From(Segments(Plain(v1)), Segments(Plain(v2)), 0)
  }

  lemma FromStep(a: seq<string>, b: seq<string>, i: nat)
    requires Runs(a) && Runs(b) && (i < |a| || i < |b|)
    ensures From(a, b, i) == if At(Seg(a, i), Seg(b, i)) != 0 then At(Seg(a, i), Seg(b, i)) else From(a, b, i + 1)
  {
    hide At, Runs, Part;
  }

  lemma FromEnd(a: seq<string>, b: seq<string>, i: nat)
    requires Runs(a) && Runs(b) && i >= |a| && i >= |b|
    ensures From(a, b, i) == 0
  {
  }

  lemma RunIsNumber(p: string)
    requires Run(p) && !IsWord(p)
    ensures Number(p)
  {
    assert KindOf(p[0]) == Digit;
  }

  /** The cases of naturalCompare's loop body, at one position. */
  lemma Position(a: seq<string>, b: seq<string>, i: nat)
    requires Runs(a) && Runs(b) && (i < |a| || i < |b|)
    ensures i >= |a| ==> At(Seg(a, i), Seg(b, i)) == if IsWord(b[i]) && !IsPostRelease(b[i]) then 1 else -1
    ensures i >= |b| ==> At(Seg(a, i), Seg(b, i)) == if IsWord(a[i]) && !IsPostRelease(a[i]) then -1 else 1
    ensures i < |a| && i < |b| && !IsWord(a[i]) && !IsWord(b[i]) ==>
              var nx, ny := TrimZeros(a[i]), TrimZeros(b[i]);
              At(Seg(a, i), Seg(b, i)) == if |nx| != |ny| then (if |nx| < |ny| then -1 else 1) else Compare(nx, ny)
    ensures i < |a| && i < |b| && IsWord(a[i]) && !IsWord(b[i]) ==>
              At(Seg(a, i), Seg(b, i)) == if IsPostRelease(a[i]) then 1 else -1
    ensures i < |a| && i < |b| && !IsWord(a[i]) && IsWord(b[i]) ==>
              At(Seg(a, i), Seg(b, i)) == if IsPostRelease(b[i]) then -1 else 1
    ensures i < |a| && i < |b| && IsWord(a[i]) && IsWord(b[i]) ==> At(Seg(a, i), Seg(b, i)) == Compare(a[i], b[i])
  {
    hide Run, IsWord, IsPostRelease, TrimZeros, Value, Compare, Number;
    if i < |a| && i < |b| && !IsWord(a[i]) && !IsWord(b[i]) {
      RunIsNumber(a[i]);
      RunIsNumber(b[i]);
      DigitsCompare(a[i], b[i]);
    }
  }

  /** naturalCompare. */
  method NaturalCompare(v1: string, v2: string) returns (c: int)
    ensures c == Natural(v1, v2)
  {
    hide Runs, Compare, TrimZeros, Segments, From, Seg, At, IsWord, IsPostRelease, Plain;
    var a := VersionSegments(v1);
    var b := VersionSegments(v2);
    SegmentsAreRuns(Plain(v1));
    SegmentsAreRuns(Plain(v2));
    var i := 0;
    while i < |a| || i < |b|
      decreases |a| + |b| - i
      invariant i <= |a| || i <= |b|
      invariant Runs(a) && Runs(b) && From(a, b, i) == From(a, b, 0)
    {
      FromStep(a, b, i);
      Position(a, b, i);
      if i >= |a| {
        if IsWord(b[i]) && !IsPostRelease(b[i]) {
          return 1;
        }
        return -1;
      }
      if i >= |b| {
        if IsWord(a[i]) && !IsPostRelease(a[i]) {
          return -1;
        }
        return 1;
      }
      var x, y := a[i], b[i];
      if !IsWord(x) && !IsWord(y) {
        var nx, ny := TrimZeros(x), TrimZeros(y);
        if |nx| != |ny| {
          if |nx| < |ny| {
            return -1;
          }
          return 1;
        }
        var d := Compare(nx, ny);
        if d != 0 {
          return d;
        }
        i := i + 1;
        continue;
      }
      if IsWord(x) != IsWord(y) {
        if IsWord(x) {
          if IsPostRelease(x) {
            return 1;
          }
          return -1;
        }
        if IsPostRelease(y) {
          return -1;
        }
        return 1;
      }
      var d := Compare(x, y);
      if d != 0 {
        return d;
      }
      i := i + 1;
    }
    FromEnd(a, b, i);
    return 0;
  }

  // ---------- sign and equality ----------

  lemma {:induction false} FromFlips(a: seq<string>, b: seq<string>, i: nat)
    requires Runs(a) && Runs(b)
    ensures From(b, a, i) == -From(a, b, i)
    decreases |a| + |b| - i
  {
    hide Runs;
    if i < |a| || i < |b| {
      AtFlips(Seg(a, i), Seg(b, i));
      FromFlips(a, b, i + 1);
    }
  }

  lemma AtFlips(x: Option<string>, y: Option<string>)
    requires Part(x) && Part(y)
    ensures At(y, x) == -At(x, y)
  {
    hide IsWord, IsPostRelease, Compare, Value, Run;
    if Word(x) && Word(y) {
      CompareFlips(x.value, y.value);
    }
  }

  /** Swapping the versions flips the sign. */
  lemma NaturalFlips(v1: string, v2: string)
    ensures Natural(v2, v1) == -Natural(v1, v2)
  {
    SegmentsAreRuns(Plain(v1));
    SegmentsAreRuns(Plain(v2));
    FromFlips(Segments(Plain(v1)), Segments(Plain(v2)), 0);
  }

  /** The same word, or digits for the same integer. */
  predicate SameSegment(x: string, y: string)
    requires Run(x) && Run(y)
  {
    if IsWord(x) || IsWord(y) then x == y else RunIsNumber(x); RunIsNumber(y); Value(x) == Value(y)
  }

  lemma AtZero(x: Option<string>, y: Option<string>)
    requires Part(x) && Part(y)
    ensures At(x, y) == 0 <==> x.Some? == y.Some? && (x.Some? ==> SameSegment(x.value, y.value))
  {
    hide IsPostRelease, Compare, Value;
  }

  ghost predicate Agree(a: seq<string>, b: seq<string>, i: nat)
    requires Runs(a) && Runs(b)
  {
    (|a| == |b| || (|a| <= i && |b| <= i)) && forall k {:trigger a[k]} {:trigger b[k]} ::
      i <= k < |a| && k < |b| ==> Run(a[k]) && Run(b[k]) && SameSegment(a[k], b[k])
  }

  lemma {:induction false} FromZero(a: seq<string>, b: seq<string>, i: nat)
    requires Runs(a) && Runs(b)
    ensures From(a, b, i) == 0 <==> Agree(a, b, i)
    decreases |a| + |b| - i
  {
    hide At, Run, SameSegment;
    if i < |a| || i < |b| {
      FromStep(a, b, i);
      FromZero(a, b, i + 1);
      AtZero(Seg(a, i), Seg(b, i));
    }
  }

  /** Two versions are equal exactly when their segments agree, one by one, up to leading zeros. */
  lemma NaturalZero(v1: string, v2: string)
    ensures var a, b := Segments(Plain(v1)), Segments(Plain(v2));
            Runs(a) && Runs(b)
              && (Natural(v1, v2) == 0 <==>
                   |a| == |b| && forall k {:trigger a[k]} {:trigger b[k]} ::
                     0 <= k < |a| ==> Run(a[k]) && Run(b[k]) && SameSegment(a[k], b[k]))
  {
    hide SameSegment, Run, From;
    SegmentsAreRuns(Plain(v1));
    SegmentsAreRuns(Plain(v2));
    FromZero(Segments(Plain(v1)), Segments(Plain(v2)), 0);
  }

  // ---------- transitivity ----------

  /** The words that may appear together: every pre-release word comes before every post-release word in the alphabet
      too. */
  ghost predicate Compatible(words: set<string>) {
    forall w, q {:trigger IsPostRelease(w), IsPostRelease(q)} ::
      w in words && q in words && IsWord(w) && !IsPostRelease(w) && IsPostRelease(q) ==> Compare(w, q) < 0
  }

  ghost predicate Within(words: set<string>, parts: seq<string>) {
    forall i {:trigger parts[i]} :: 0 <= i < |parts| ==> parts[i] in words
  }

  predicate Among(words: set<string>, x: Option<string>) {
    Part(x) && (x.Some? ==> x.value in words)
  }

  lemma AtByClass(words: set<string>, x: Option<string>, y: Option<string>)
    requires Compatible(words) && Among(words, x) && Among(words, y)
    ensures Class(x) < Class(y) ==> At(x, y) < 0
    ensures At(x, y) <= 0 ==> Class(x) <= Class(y)
  {
    hide Compare, Value, Run;
    if Word(x) && Word(y) {
      CompareFlips(x.value, y.value);
      assert IsPostRelease(x.value) || !IsPostRelease(x.value);
    }
  }

  lemma AtWithinClass(x: Option<string>, y: Option<string>, z: Option<string>)
    requires Part(x) && Part(y) && Part(z) && Class(x) == Class(y) == Class(z) && At(x, y) <= 0 && At(y, z) <= 0
    ensures At(x, z) <= 0 && (At(x, z) == 0 ==> At(x, y) == 0 && At(y, z) == 0)
  {
    hide Compare, Value, Run;
    if Word(x) && Word(y) && Word(z) {
      CompareTrans(x.value, y.value, z.value);
    }
  }

  lemma AtTrans(words: set<string>, x: Option<string>, y: Option<string>, z: Option<string>)
    requires Compatible(words) && Among(words, x) && Among(words, y) && Among(words, z) && At(x, y) <= 0
             && At(y, z) <= 0
    ensures At(x, z) <= 0 && (At(x, z) == 0 ==> At(x, y) == 0 && At(y, z) == 0)
  {
    hide At, Class;
    AtByClass(words, x, y);
    AtByClass(words, y, z);
    AtByClass(words, x, z);
    if Class(x) == Class(y) == Class(z) {
      AtWithinClass(x, y, z);
    }
  }

  lemma {:induction false} FromTrans(words: set<string>, a: seq<string>, b: seq<string>, c: seq<string>, i: nat)
    requires Compatible(words) && Runs(a) && Runs(b) && Runs(c) && Within(words, a) && Within(words, b)
             && Within(words, c)
    requires From(a, b, i) <= 0 && From(b, c, i) <= 0
    ensures From(a, c, i) <= 0
    decreases |a| + |b| + |c| - i
  {
    hide Compatible, Run, At;
    if i < |a| || i < |b| || i < |c| {
      AtNone();
      AtTrans(words, Seg(a, i), Seg(b, i), Seg(c, i));
      if At(Seg(a, i), Seg(b, i)) == 0 && At(Seg(b, i), Seg(c, i)) == 0 {
        FromTrans(words, a, b, c, i + 1);
      }
    }
  }

  lemma AtNone()
    ensures At(None, None) == 0
  {
  }

  ghost predicate Transitive(words: set<string>) {
    forall u, v, w {:trigger Natural(u, v), Natural(v, w)} ::
      (&& Within(words, Segments(Plain(u))) && Within(words, Segments(Plain(v))) && Within(words, Segments(Plain(w)))
       && Natural(u, v) <= 0 && Natural(v, w) <= 0) ==> Natural(u, w) <= 0
  }

  lemma NaturalTrans(words: set<string>, u: string, v: string, w: string)
    requires Compatible(words)
    requires Within(words, Segments(Plain(u))) && Within(words, Segments(Plain(v))) && Within(words, Segments(Plain(w)))
    requires Natural(u, v) <= 0 && Natural(v, w) <= 0
    ensures Natural(u, w) <= 0
  {
    hide Compatible, Within, From, Runs, Segments;
    SegmentsAreRuns(Plain(u));
    SegmentsAreRuns(Plain(v));
    SegmentsAreRuns(Plain(w));
    FromTrans(words, Segments(Plain(u)), Segments(Plain(v)), Segments(Plain(w)), 0);
  }

  lemma WordVersion(w: string)
    requires Run(w) && IsWord(w)
    ensures Segments(Plain("." + w)) == [w]
  {
    hide Segments;
    var t := "." + w;
    assert t[0] == '.';
    assert KindOf(w[0]) == Letter;
    assert forall i :: 0 <= i < |w| ==> KindOf(w[i]) == Letter;
    assert Lower(t) == "." + w;
    SegmentsSplit(".", w);
    SegmentsOfRun(w);
    DotDropped();
  }

  lemma DotDropped()
    ensures Segments(".") == [] && Segments(Plain("")) == []
  {
    assert "."[..0] == [];
  }

  /** One pre-release word after a post-release word in the alphabet: word, end, post-release word go round. */
  lemma NotTransitive(words: set<string>, w: string, q: string)
    requires w in words && q in words && Run(w) && Run(q) && IsWord(w) && !IsPostRelease(w) && IsPostRelease(q)
             && Compare(w, q) >= 0
    ensures !Transitive(words)
  {
    hide Segments, Plain, Compare, Run;
    WordVersion(w);
    WordVersion(q);
    DotDropped();
    assert Natural("." + w, "") < 0 && Natural("", "." + q) < 0;
    assert Natural("." + w, "." + q) > 0;
  }

  /** naturalCompare is transitive on the versions over a set of segments exactly when the set's words are
      compatible. */
  lemma TransitiveIff(words: set<string>)
    requires forall s :: s in words ==> Run(s)
    ensures Transitive(words) <==> Compatible(words)
  {
    hide Segments, Plain, Compare, Run, Within, Natural, IsWord, IsPostRelease;
    if Compatible(words) {
      forall u, v, w {:trigger Natural(u, v), Natural(v, w)} |
        Within(words, Segments(Plain(u))) && Within(words, Segments(Plain(v))) && Within(words, Segments(Plain(w)))
        && Natural(u, v) <= 0 && Natural(v, w) <= 0
        ensures Natural(u, w) <= 0
      {
        NaturalTrans(words, u, v, w);
      }
    } else {
      var w, q :| w in words && q in words && IsWord(w) && !IsPostRelease(w) && IsPostRelease(q) && Compare(w, q) >= 0;
      NotTransitive(words, w, q);
    }
  }

  /** Without post-release words nothing can go wrong. */
  lemma TransitiveWithoutPost(words: set<string>)
    requires forall s :: s in words ==> Run(s) && !IsPostRelease(s)
    ensures Transitive(words)
  {
    TransitiveIff(words);
  }

  lemma PlainSame(s: string)
    requires s != [] && s[0] != 'v' && forall i :: 0 <= i < |s| ==> !('A' <= s[i] <= 'Z')
    ensures Plain(s) == s
  {
  }

  lemma ExampleSegments()
    ensures Segments("1.0") == ["1", "0"] && Segments("1.0rc1") == ["1", "0", "rc", "1"]
            && Segments("1.0.post1") == ["1", "0", "post", "1"]
  {
    hide Segments;
    DotDropped();
    SegmentsOfRun("1");
    SegmentsOfRun("0");
    SegmentsOfRun("rc");
    SegmentsOfRun("post");
    SegmentsSplit("1", ".");
    SegmentsSplit("1.", "0");
    assert "1." == "1" + "." && "1.0" == "1." + "0";
    SegmentsSplit("1.0", "rc");
    SegmentsSplit("1.0rc", "1");
    assert "1.0rc" == "1.0" + "rc" && "1.0rc1" == "1.0rc" + "1";
    SegmentsSplit("1.0", ".");
    SegmentsSplit("1.0.", "post");
    SegmentsSplit("1.0.post", "1");
    assert "1.0." == "1.0" + "." && "1.0.post" == "1.0." + "post" && "1.0.post1" == "1.0.post" + "1";
  }

  /** 1.0rc1 < 1.0 < 1.0.post1, but 1.0rc1 > 1.0.post1. */
  lemma PostReleaseGoesRound()
    ensures Natural("1.0rc1", "1.0") < 0 && Natural("1.0", "1.0.post1") < 0 && Natural("1.0rc1", "1.0.post1") > 0
  {
    hide Segments, Plain, From, Value, Compare, IsPostRelease;
    ExampleSegments();
    PlainSame("1.0");
    PlainSame("1.0rc1");
    PlainSame("1.0.post1");
    var one, rc, post := ["1", "0"], ["1", "0", "rc", "1"], ["1", "0", "post", "1"];
    SegmentsAreRuns("1.0");
    SegmentsAreRuns("1.0rc1");
    SegmentsAreRuns("1.0.post1");
    ExampleOrder(one, rc, post);
  }

  lemma ExampleOrder(one: seq<string>, rc: seq<string>, post: seq<string>)
    requires Runs(one) && Runs(rc) && Runs(post)
    requires one == ["1", "0"] && rc == one + ["rc", "1"] && post == one + ["post", "1"]
    ensures From(rc, one, 0) < 0 && From(one, post, 0) < 0 && From(rc, post, 0) > 0
  {
    hide Value, Run;
    FromStep(rc, one, 0);
    FromStep(rc, one, 1);
    FromStep(rc, one, 2);
    FromStep(one, post, 0);
    FromStep(one, post, 1);
    FromStep(one, post, 2);
    FromStep(rc, post, 0);
    FromStep(rc, post, 1);
    FromStep(rc, post, 2);
    assert "rc"[0] == 'r' && "post"[0] == 'p' && "1"[0] == '1' && "0"[0] == '0';
  }

  // ---------- what the order says of the texts ----------

  lemma LowerParts(u: string, w: string)
    ensures Lower(u + w) == Lower(u) + Lower(w)
  {
    hide LowerChar;
  }

  lemma PlainParts(u: string, w: string)
    requires u != ""
    ensures Plain(u + w) == Plain(u) + Lower(w)
  {
    hide Lower;
    LowerParts(u, w);
    LowerParts(u[1..], w);
    assert (u + w)[0] == u[0] && (u + w)[1..] == u[1..] + w;
    assert HasPrefix(u, "v") <==> u[0] == 'v';
    assert HasPrefix(u + w, "v") <==> (u + w)[0] == 'v';
  }

  lemma SameSegments(u: string, w: string, x: string)
    requires Segments(Plain(u)) == Segments(Plain(w))
    ensures Natural(u, x) == Natural(w, x) && Natural(x, u) == Natural(x, w)
  {
    hide Segments, Plain;
  }

  /** A leading "v" makes no difference. */
  lemma PrefixDropped(u: string, w: string)
    requires u == "" || u[0] != 'v'
    ensures Natural("v" + u, w) == Natural(u, w) && Natural(w, "v" + u) == Natural(w, u)
  {
    hide Segments;
    assert ("v" + u)[1..] == u;
    SameSegments("v" + u, u, w);
  }

  /** Nor does the case of letters, but for that of the first. */
  lemma CaseIgnored(u: string, w: string, x: string)
    requires Alike(u, w) && (u != "" ==> u[0] == w[0])
    ensures Natural(u, w) == 0 && Natural(u, x) == Natural(w, x) && Natural(x, u) == Natural(x, w)
  {
    hide Segments;
    forall c: char, d: char | AlikeChar(c, d)
      ensures LowerChar(c) == LowerChar(d)
    {
      assert 'a' as int - 'A' as int == 32;
    }
    assert Lower(u) == Lower(w);
    assert u != "" ==> Lower(u[1..]) == Lower(w[1..]);
    SameSegments(u, w, x);
    SameSegments(u, w, u);
    NaturalFlips(u, u);
  }

  /** Neither a letter nor a digit. */
  predicate Separator(c: char) {
    !('0' <= c <= '9') && !('a' <= c <= 'z') && !('A' <= c <= 'Z')
  }

  lemma SeparatorDropped(u: string, c: char, w: string)
    requires u != "" && Separator(c)
    ensures Segments(Plain(u + [c] + w)) == Segments(Plain(u)) + Segments(Lower(w))
  {
    hide Segments, Plain;
    PlainParts(u, [c] + w);
    assert u + [c] + w == u + ([c] + w) && Lower([c] + w) == [c] + Lower(w);
    SegmentsSplit(Plain(u), [c] + Lower(w));
    SegmentsSplit([c], Lower(w));
    NoSegments();
    SegmentsSnoc([], c);
    assert AddChar([], [], c) == [] && [] + [c] == [c];
  }

  /** Which separator stands between two parts is of no account. */
  lemma SeparatorsAlike(u: string, c: char, d: char, w: string, x: string)
    requires u != "" && Separator(c) && Separator(d)
    ensures Natural(u + [c] + w, x) == Natural(u + [d] + w, x)
  {
    SeparatorDropped(u, c, w);
    SeparatorDropped(u, d, w);
    SameSegments(u + [c] + w, u + [d] + w, x);
  }

  predicate Digits(s: string) {
    s != "" && forall i :: 0 <= i < |s| ==> '0' <= s[i] <= '9'
  }

  predicate Letters(s: string) {
    s != "" && forall i :: 0 <= i < |s| ==> 'a' <= s[i] <= 'z'
  }

  /** A version that can be followed by a word: it ends in a digit. */
  predicate EndsInDigit(u: string) {
    u != "" && '0' <= u[|u| - 1] <= '9'
  }

  /** u with one more word has one more segment. */
  lemma WithWord(u: string, w: string)
    requires EndsInDigit(u) && Letters(w)
    ensures Segments(Plain(u + w)) == Segments(Plain(u)) + [w] && IsWord(w)
  {
    hide Segments;
    PlainParts(u, w);
    assert Lower(w) == w;
    var t := Plain(u);
    assert t != "" && t[|t| - 1] == u[|u| - 1];
    assert KindOf(w[0]) == Letter && KindOf(t[|t| - 1]) == Digit;
    SegmentsSplit(t, w);
    assert forall i :: 0 <= i < |w| ==> KindOf(w[i]) == Letter;
    SegmentsOfRun(w);
  }

  /** So has u with one more number. */
  lemma WithNumber(u: string, d: string)
    requires u != "" && Digits(d)
    ensures Segments(Plain(u + "." + d)) == Segments(Plain(u)) + [d] && !IsWord(d) && Number(d)
  {
    hide Segments, Plain;
    SeparatorDropped(u, '.', d);
    assert Lower(d) == d;
    assert forall i :: 0 <= i < |d| ==> KindOf(d[i]) == Digit;
    SegmentsOfRun(d);
  }

  lemma PlainEnd(u: string)
    requires u != "" && u != "v" && KindOf(u[|u| - 1]) != Other
    ensures Plain(u) != "" && Plain(u)[|Plain(u)| - 1] == u[|u| - 1]
  {
    assert u[0] == 'v' ==> u == "v" || |u| > 1;
  }

  /** Between a number and a word, in either order, a separator makes no difference. */
  lemma BoundaryCounts(u: string, w: string, x: string)
    requires (EndsInDigit(u) && Letters(w)) || (u != "" && u != "v" && 'a' <= u[|u| - 1] <= 'z' && Digits(w))
    ensures Natural(u + "." + w, x) == Natural(u + w, x)
  {
    hide Segments, Plain, Natural;
    PlainParts(u, w);
    SeparatorDropped(u, '.', w);
    PlainEnd(u);
    assert Lower(w) == w && KindOf(w[0]) != KindOf(u[|u| - 1]);
    SegmentsSplit(Plain(u), w);
    SameSegments(u + "." + w, u + w, x);
  }

  lemma {:induction false} FromCommon(a: seq<string>, b: seq<string>, n: nat, i: nat)
    requires Runs(a) && Runs(b) && i <= n <= |a| && n <= |b| && a[..n] == b[..n]
    ensures From(a, b, i) == From(a, b, n)
    decreases n - i
  {
    hide Runs, At;
    if i < n {
      assert a[..n][i] == b[..n][i];
      AtFlips(Seg(a, i), Seg(a, i));
      FromStep(a, b, i);
      FromCommon(a, b, n, i + 1);
    }
  }

  /** Versions that agree but for one more segment in the first, and at most one in the second. */
  lemma LastSegment(u: string, v: string, a: seq<string>, x: string, y: Option<string>)
    requires Segments(Plain(u)) == a + [x] && Segments(Plain(v)) == a + (if y.Some? then [y.value] else [])
    ensures Part(Some(x)) && Part(y) && Natural(u, v) == At(Some(x), y)
  {
    hide Segments, Plain, At, Run;
    SegmentsAreRuns(Plain(u));
    SegmentsAreRuns(Plain(v));
    var s, t := Segments(Plain(u)), Segments(Plain(v));
    assert s[..|a|] == a && t[..|a|] == a;
    FromCommon(s, t, |a|, 0);
    FromStep(s, t, |a|);
    FromEnd(s, t, |a| + 1);
    assert s[|a|] == x && (y.Some? ==> t[|a|] == y.value);
  }

  /** A trailing word marks a pre-release, but for the four that mark a later one. */
  lemma TrailingWord(u: string, w: string)
    requires EndsInDigit(u) && Letters(w)
    ensures Natural(u + w, u) == if w in {"post", "p", "pl", "patch"} then 1 else -1
  {
    hide Segments, Plain;
    WithWord(u, w);
    LastSegment(u + w, u, Segments(Plain(u)), w, None);
  }

  /** A trailing number makes a later version. */
  lemma TrailingNumber(u: string, d: string)
    requires u != "" && Digits(d)
    ensures Natural(u + "." + d, u) == 1
  {
    hide Segments, Plain;
    WithNumber(u, d);
    LastSegment(u + "." + d, u, Segments(Plain(u)), d, None);
  }

  /** A number is later than a pre-release word and earlier than a post-release word. */
  lemma NumberAgainstWord(u: string, d: string, w: string)
    requires EndsInDigit(u) && Digits(d) && Letters(w)
    ensures Natural(u + "." + d, u + w) == if w in {"post", "p", "pl", "patch"} then -1 else 1
  {
    hide Segments, Plain;
    WithNumber(u, d);
    WithWord(u, w);
    LastSegment(u + "." + d, u + w, Segments(Plain(u)), d, Some(w));
  }

  /** Numbers compare as integers, whatever their length. */
  lemma NumbersInOrder(u: string, d: string, e: string)
    requires u != "" && Digits(d) && Digits(e)
    ensures Number(d) && Number(e)
    ensures Natural(u + "." + d, u + "." + e) == Sign(Value(d) - Value(e))
  {
    hide Segments, Plain, Value;
    WithNumber(u, d);
    WithNumber(u, e);
    LastSegment(u + "." + d, u + "." + e, Segments(Plain(u)), d, Some(e));
  }

  /** Words compare as in a dictionary. */
  lemma WordsInOrder(u: string, w: string, x: string)
    requires EndsInDigit(u) && Letters(w) && Letters(x)
    ensures Natural(u + w, u + x) < 0 <==> Follows(w, x)
  {
    hide Segments, Plain, Compare, Follows;
    WithWord(u, w);
    WithWord(u, x);
    LastSegment(u + w, u + x, Segments(Plain(u)), w, Some(x));
    CompareIff(w, x);
  }
}
