/** The string functions the report and the version order are built on, for ASCII text. */
module Texts {

  /** strings.Compare: -1, 0 or 1, by the first difference. */
  function Compare(a: string, b: string): (c: int)
    ensures c == -1 || c == 0 || c == 1
    ensures c == 0 <==> a == b
  {
    if a == [] then (if b == [] then 0 else -1)
    else if b == [] then 1
    else if a[0] < b[0] then -1
    else if b[0] < a[0] then 1
    else
      assert a == [a[0]] + a[1..] && b == [b[0]] + b[1..];
      Compare(a[1..], b[1..])
  }

  lemma {:induction false} CompareFlips(a: string, b: string)
    ensures Compare(b, a) == -Compare(a, b)
  {
    if a != [] && b != [] && a[0] == b[0] {
      CompareFlips(a[1..], b[1..]);
    }
  }

  lemma {:induction false} CompareTrans(a: string, b: string, c: string)
    requires Compare(a, b) <= 0 && Compare(b, c) <= 0
    ensures Compare(a, c) <= 0
    ensures Compare(a, c) == 0 ==> Compare(a, b) == 0 && Compare(b, c) == 0
  {
    if a != [] && b != [] && c != [] && a[0] == b[0] == c[0] {
      CompareTrans(a[1..], b[1..], c[1..]);
    }
  }

  function UpperChar(c: char): char {
    if 'a' <= c <= 'z' then c - 'a' + 'A' else c
  }

  /** strings.ToUpper. */
  function Upper(s: string): (u: string)
    ensures |u| == |s| && forall i :: 0 <= i < |s| ==> u[i] == UpperChar(s[i])
  {
    seq(|s|, i requires 0 <= i < |s| => UpperChar(s[i]))
  }

  lemma UpperTwice(s: string)
    ensures Upper(Upper(s)) == Upper(s)
  {
  }

  /** strings.HasPrefix. */
  predicate HasPrefix(s: string, prefix: string) {
    prefix <= s
  }

  predicate IsSpace(c: char) {
    c == ' ' || '\t' <= c <= '\r'
  }

  /** strings.TrimSpace. */
  function Trim(s: string): string {
    if s != [] && IsSpace(s[0]) then Trim(s[1..])
    else if s != [] && IsSpace(s[|s| - 1]) then Trim(s[..|s| - 1])
    else s
  }

  // ---------- what these functions mean ----------

  /** b comes after a in the dictionary: it goes on where a ends, or has the greater character at the first
      difference. */
  ghost predicate Follows(a: string, b: string) {
    exists n :: FollowsAt(a, b, n)
  }

  predicate FollowsAt(a: string, b: string, n: nat) {
    && n <= |a| && n < |b| && (forall i :: 0 <= i < n ==> a[i] == b[i])
    && (n < |a| ==> a[n] < b[n])
  }

  /** Compare is the order of the dictionary. */
  lemma {:induction false} CompareIff(a: string, b: string)
    ensures Compare(a, b) < 0 <==> Follows(a, b)
  {
    if a != [] && b != [] && a[0] == b[0] {
      CompareIff(a[1..], b[1..]);
      if n: nat :| FollowsAt(a, b, n) {
        assert FollowsAt(a[1..], b[1..], n - 1);
      }
      if n: nat :| FollowsAt(a[1..], b[1..], n) {
        assert FollowsAt(a, b, n + 1);
      }
    } else {
      assert FollowsAt(a, b, 0) <==> b != [] && (a == [] || a[0] < b[0]);
      assert forall n: nat :: n > 0 ==> !FollowsAt(a, b, n);
    }
  }

  predicate AlikeChar(c: char, d: char) {
    c == d || ('a' <= c <= 'z' && c as int == d as int + 32) || ('a' <= d <= 'z' && d as int == c as int + 32)
  }

  /** The same text but for the case of ASCII letters. */
  predicate Alike(a: string, b: string) {
    |a| == |b| && forall i :: 0 <= i < |a| ==> AlikeChar(a[i], b[i])
  }

  predicate NoSmall(s: string) {
    forall i :: 0 <= i < |s| ==> !('a' <= s[i] <= 'z')
  }

  /** u is s in capitals. */
  predicate InCapitals(u: string, s: string) {
    Alike(u, s) && NoSmall(u)
  }

  lemma UpperIff(u: string, s: string)
    ensures u == Upper(s) <==> InCapitals(u, s)
  {
    forall c: char, d: char
      ensures d == UpperChar(c) <==> AlikeChar(d, c) && !('a' <= d <= 'z')
    {
      assert 'a' as int - 'A' as int == 32;
    }
    if InCapitals(u, s) {
      forall i | 0 <= i < |s|
        ensures u[i] == UpperChar(s[i])
      {
        assert AlikeChar(u[i], s[i]);
      }
    }
  }

  lemma UpperAlike(s: string, t: string)
    ensures Upper(s) == Upper(t) <==> Alike(s, t)
  {
    forall c: char, d: char
      ensures UpperChar(c) == UpperChar(d) <==> AlikeChar(c, d)
    {
      assert 'a' as int - 'A' as int == 32;
    }
    if Upper(s) == Upper(t) {
      forall i | 0 <= i < |s|
        ensures AlikeChar(s[i], t[i])
      {
        assert Upper(s)[i] == Upper(t)[i];
      }
    }
  }

  /** A space or a control character from tab to carriage return. */
  predicate BlankChar(c: char) {
    c == ' ' || 9 <= c as int <= 13
  }

  predicate Blank(s: string) {
    forall i :: 0 <= i < |s| ==> BlankChar(s[i])
  }

  /** s neither starts nor ends with a blank. */
  predicate Bare(s: string) {
    s != "" ==> !BlankChar(s[0]) && !BlankChar(s[|s| - 1])
  }

  lemma {:induction false} TrimBlank(s: string)
    requires Blank(s)
    ensures Trim(s) == ""
  {
    if s != [] {
      TrimBlank(s[1..]);
    }
  }

  lemma TrimFirst(c: char, s: string)
    requires BlankChar(c)
    ensures Trim([c] + s) == Trim(s)
  {
    assert ([c] + s)[1..] == s;
  }

  lemma TrimLast(s: string, c: char)
    requires s != "" && !BlankChar(s[0]) && BlankChar(c)
    ensures Trim(s + [c]) == Trim(s)
  {
    assert (s + [c])[..|s|] == s;
  }

  /** Trim takes away the blanks at both ends and nothing else. */
  lemma {:induction false} TrimTakes(before: string, s: string, after: string)
    requires Blank(before) && Blank(after) && Bare(s)
    ensures Trim(before + s + after) == s
    decreases |before| + |after|
  {
    hide BlankChar, Trim;
    if before != [] {
      TrimTakes(before[1..], s, after);
      TrimFirst(before[0], before[1..] + s + after);
      assert before + s + after == [before[0]] + (before[1..] + s + after);
    } else if s == "" {
      TrimBlank(after);
      assert before + s + after == after;
    } else if after != [] {
      var n := |after| - 1;
      TrimTakes(before, s, after[..n]);
      TrimLast(s + after[..n], after[n]);
      assert before + s + after == (s + after[..n]) + [after[n]] && before + s + after[..n] == s + after[..n];
    } else {
      TrimBare(s);
      assert before + s + after == s;
    }
  }

  lemma TrimBare(s: string)
    requires Bare(s)
    ensures Trim(s) == s
  {
  }
}
