/**
 isVersionInRanges and sortRangeEvents: is a version in an OSV range?

 `semver` stands for semver.NewVersion: the place of a version in the semver order, or None when it does not parse.
 `cmp` is any version comparison.
 */
module Ranges {
  import opened Results
  import opened Texts
  import opened Sorting
  import opened Versions

  datatype Event = Event(introduced: string, fixed: string, lastAffected: string, limit: string)

  datatype Range = Range(typ: string, events: seq<Event>)

  datatype Effect = Sets | Clears | Keeps

  type Comparison = (string, string) -> int

  type Semver = string -> Option<real>

  // ---------- comparing versions ----------

  function SemverCompare(a: real, b: real): int {
    if a < b then -1 else if a > b then 1 else 0
  }

  /** The comparison of versions that do not both parse. */
  function Fallback(typ: string): Comparison {
    if typ == "ECOSYSTEM" then Natural else Compare
  }

  predicate UsesSemver(typ: string) {
    typ == "SEMVER" || typ == "ECOSYSTEM"
  }

  function CompareVersions(semver: Semver, typ: string, v1: string, v2: string): int {
    if UsesSemver(typ) && semver(v1).Some? && semver(v2).Some? then SemverCompare(semver(v1).value, semver(v2).value)
    else Fallback(typ)(v1, v2)
  }

  function CompareBy(semver: Semver, typ: string): Comparison {
    (v1, v2) => CompareVersions(semver, typ, v1, v2)
  }

  /** compareVersions and compareEcosystemVersions. */
  method CompareVersionsOf(semver: Semver, typ: string, v1: string, v2: string) returns (c: int)
    ensures c == CompareBy(semver, typ)(v1, v2)
  {
    hide Natural, Compare;
    if typ == "SEMVER" {
      var ver1, ver2 := semver(v1), semver(v2);
      if ver1.None? || ver2.None? {
        return Compare(v1, v2);
      }
      return SemverCompare(ver1.value, ver2.value);
    }
    if typ == "ECOSYSTEM" {
      var a := semver(v1);
      if a.Some? {
        var b := semver(v2);
        if b.Some? {
          return SemverCompare(a.value, b.value);
        }
      }
      c := NaturalCompare(v1, v2);
      return;
    }
    return Compare(v1, v2);
  }

  /** What the comparison goes by: the semver order where both versions parse and the range is of a semver type, else
      the order of naturalCompare for ECOSYSTEM and that of the dictionary for any other type. */
  lemma ComparesBy(semver: Semver, typ: string, a: string, b: string)
    ensures var cmp := CompareBy(semver, typ);
            if typ in {"SEMVER", "ECOSYSTEM"} && semver(a).Some? && semver(b).Some? then
              && (cmp(a, b) < 0 <==> semver(a).value < semver(b).value)
              && (cmp(a, b) > 0 <==> semver(a).value > semver(b).value)
            else if typ == "ECOSYSTEM" then cmp(a, b) == Natural(a, b)
            else (cmp(a, b) < 0 <==> Follows(a, b)) && (cmp(a, b) > 0 <==> Follows(b, a))
  {
    hide Compare, Natural, Follows;
    CompareIff(a, b);
    CompareIff(b, a);
    CompareFlips(a, b);
  }

  /** cmp is a total preorder on vs. */
  ghost predicate Preorder(cmp: Comparison, vs: set<string>) {
    && (forall a, b {:trigger cmp(a, b)} :: a in vs && b in vs ==> (cmp(a, b) < 0 <==> cmp(b, a) > 0))
    && (forall a, b, c {:trigger cmp(a, b), cmp(b, c)} ::
         a in vs && b in vs && c in vs && cmp(a, b) <= 0 && cmp(b, c) <= 0 ==> cmp(a, c) <= 0)
  }

  ghost predicate WordsWithin(words: set<string>, vs: set<string>) {
    forall v :: v in vs ==> Within(words, Segments(Plain(v)))
  }

  lemma TextPreorder(vs: set<string>)
    ensures Preorder(Compare, vs)
  {
    hide Compare;
    var cmp: Comparison := Compare;
    forall a, b {:trigger cmp(a, b)} | a in vs && b in vs
      ensures cmp(a, b) < 0 <==> cmp(b, a) > 0
    {
      CompareFlips(a, b);
    }
    forall a, b, c {:trigger cmp(a, b), cmp(b, c)} |
      a in vs && b in vs && c in vs && cmp(a, b) <= 0 && cmp(b, c) <= 0
      ensures cmp(a, c) <= 0
    {
      CompareTrans(a, b, c);
    }
  }

  lemma NaturalPreorder(vs: set<string>, words: set<string>)
    requires Compatible(words) && WordsWithin(words, vs)
    ensures Preorder(Natural, vs)
  {
    hide Natural, Compatible, Within, Segments, Plain;
    var cmp: Comparison := Natural;
    forall a, b {:trigger cmp(a, b)} | a in vs && b in vs
      ensures cmp(a, b) < 0 <==> cmp(b, a) > 0
    {
      NaturalFlips(a, b);
    }
    forall a, b, c {:trigger cmp(a, b), cmp(b, c)} |
      a in vs && b in vs && c in vs && cmp(a, b) <= 0 && cmp(b, c) <= 0
      ensures cmp(a, c) <= 0
    {
      NaturalTrans(words, a, b, c);
    }
  }

  // ---------- where semver order and the other order meet ----------

  /** a is not above b by semver, but the version u, which does not parse, leads back from b to a in the other order. */
  ghost predicate Crossing(semver: Semver, text: Comparison, a: string, b: string, u: string) {
    && semver(a).Some? && semver(b).Some? && semver(u).None?
    && semver(a).value <= semver(b).value && text(b, u) <= 0 && text(u, a) <= 0
    && (semver(a).value < semver(b).value || text(b, u) < 0 || text(u, a) < 0)
  }

  ghost predicate Crossed(semver: Semver, text: Comparison, vs: set<string>) {
    exists a, b, u {:trigger Crossing(semver, text, a, b, u)} ::
      a in vs && b in vs && u in vs && Crossing(semver, text, a, b, u)
  }

  /** Swapping versions flips the sign. */
  ghost predicate Flips(text: Comparison) {
    forall a, b {:trigger text(a, b)} :: text(a, b) < 0 <==> text(b, a) > 0
  }

  lemma FallbackFlips(typ: string)
    ensures Flips(Fallback(typ))
  {
    hide Compare, Natural;
    var text := Fallback(typ);
    forall a, b {:trigger text(a, b)}
      ensures text(a, b) < 0 <==> text(b, a) > 0
    {
      CompareFlips(a, b);
      NaturalFlips(a, b);
    }
  }

  /** At most one of three versions parses. */
  predicate MostlyUnparsed(semver: Semver, a: string, b: string, c: string) {
    && !(semver(a).Some? && semver(b).Some?)
    && !(semver(b).Some? && semver(c).Some?)
    && !(semver(a).Some? && semver(c).Some?)
  }

  /** The other order is transitive where semver has no say: on three versions of which at most one parses. */
  ghost predicate TransitiveUnparsed(semver: Semver, text: Comparison, vs: set<string>) {
    forall a, b, c {:trigger text(a, b), text(b, c)} ::
      a in vs && b in vs && c in vs && MostlyUnparsed(semver, a, b, c) && text(a, b) <= 0 && text(b, c) <= 0 ==>
        text(a, c) <= 0
  }

  lemma PreorderTransitive(semver: Semver, text: Comparison, vs: set<string>)
    requires Preorder(text, vs)
    ensures TransitiveUnparsed(semver, text, vs)
  {
  }

  /** The mixed order is a total preorder exactly when the other one is transitive where semver has no say, and nothing
      crosses where both have. */
  lemma MixedPreorderIff(semver: Semver, typ: string, vs: set<string>)
    requires UsesSemver(typ)
    ensures Preorder(CompareBy(semver, typ), vs)
            <==> TransitiveUnparsed(semver, Fallback(typ), vs) && !Crossed(semver, Fallback(typ), vs)
  {
    hide Fallback, UsesSemver, Flips, TransitiveUnparsed;
    var cmp, text := CompareBy(semver, typ), Fallback(typ);
    FallbackFlips(typ);
    if Crossed(semver, text, vs) {
      var a, b, u :| a in vs && b in vs && u in vs && Crossing(semver, text, a, b, u);
      CrossingGoesRound(semver, typ, vs, a, b, u);
    } else if TransitiveUnparsed(semver, text, vs) {
      forall a, b {:trigger cmp(a, b)} | a in vs && b in vs
        ensures cmp(a, b) < 0 <==> cmp(b, a) > 0
      {
        MixedFlips(semver, typ, a, b);
      }
      forall a, b, c {:trigger cmp(a, b), cmp(b, c)} |
        a in vs && b in vs && c in vs && cmp(a, b) <= 0 && cmp(b, c) <= 0
        ensures cmp(a, c) <= 0
      {
        MixedTrans(semver, typ, vs, a, b, c);
      }
    } else if Preorder(cmp, vs) {
      MixedOnUnparsed(semver, typ, vs);
    }
  }

  lemma MixedOnUnparsed(semver: Semver, typ: string, vs: set<string>)
    requires UsesSemver(typ) && Preorder(CompareBy(semver, typ), vs)
    ensures TransitiveUnparsed(semver, Fallback(typ), vs)
  {
    hide Fallback;
    var cmp, text := CompareBy(semver, typ), Fallback(typ);
    forall a, b, c {:trigger text(a, b), text(b, c)} |
      a in vs && b in vs && c in vs && MostlyUnparsed(semver, a, b, c) && text(a, b) <= 0 && text(b, c) <= 0
      ensures text(a, c) <= 0
    {
      assert cmp(a, b) == text(a, b) && cmp(b, c) == text(b, c) && cmp(a, c) == text(a, c);
    }
  }

  lemma MixedFlips(semver: Semver, typ: string, a: string, b: string)
    requires UsesSemver(typ) && Flips(Fallback(typ))
    ensures CompareBy(semver, typ)(a, b) < 0 <==> CompareBy(semver, typ)(b, a) > 0
  {
    hide Fallback;
    var text := Fallback(typ);
    assert text(a, b) < 0 <==> text(b, a) > 0;
  }

  lemma CrossingGoesRound(semver: Semver, typ: string, vs: set<string>, a: string, b: string, u: string)
    requires UsesSemver(typ) && a in vs && b in vs && u in vs && Crossing(semver, Fallback(typ), a, b, u)
    ensures !Preorder(CompareBy(semver, typ), vs)
  {
    hide Fallback;
    var cmp := CompareBy(semver, typ);
    assert cmp(a, b) <= 0 && cmp(b, u) <= 0 && cmp(u, a) <= 0;
    assert cmp(a, b) < 0 || cmp(b, u) < 0 || cmp(u, a) < 0;
  }

  lemma MixedTrans(semver: Semver, typ: string, vs: set<string>, a: string, b: string, c: string)
    requires UsesSemver(typ) && Flips(Fallback(typ))
    requires TransitiveUnparsed(semver, Fallback(typ), vs) && !Crossed(semver, Fallback(typ), vs)
    requires a in vs && b in vs && c in vs
    requires CompareBy(semver, typ)(a, b) <= 0 && CompareBy(semver, typ)(b, c) <= 0
    ensures CompareBy(semver, typ)(a, c) <= 0
  {
    hide Fallback;
    var text := Fallback(typ);
    assert text(a, c) > 0 <==> text(c, a) < 0;
    assert !Crossing(semver, text, a, b, c) && !Crossing(semver, text, b, c, a) && !Crossing(semver, text, c, a, b);
  }

  /** SEMVER order is a total preorder exactly when no version that does not parse leads back from a version to one
      that is not above it. */
  lemma SemverPreorderIff(semver: Semver, vs: set<string>)
    ensures Preorder(CompareBy(semver, "SEMVER"), vs) <==> !Crossed(semver, Compare, vs)
  {
    hide Compare, Natural, Crossed, Preorder, TransitiveUnparsed;
    TextPreorder(vs);
    PreorderTransitive(semver, Compare, vs);
    MixedPreorderIff(semver, "SEMVER", vs);
  }

  /** In text order a crossing is strict on both sides. */
  lemma TextCrossing(semver: Semver, a: string, b: string, u: string)
    ensures Crossing(semver, Compare, a, b, u) <==>
            && semver(a).Some? && semver(b).Some? && semver(u).None? && semver(a).value <= semver(b).value
            && Compare(b, u) < 0 && Compare(u, a) < 0
  {
  }

  /** ECOSYSTEM order, on all sets of versions. */
  lemma EcosystemPreorderIff(semver: Semver, vs: set<string>)
    ensures Preorder(CompareBy(semver, "ECOSYSTEM"), vs)
            <==> TransitiveUnparsed(semver, Natural, vs) && !Crossed(semver, Natural, vs)
  {
    hide Compare, Natural, Crossed, Preorder, TransitiveUnparsed;
    MixedPreorderIff(semver, "ECOSYSTEM", vs);
  }

  /** Compatible words settle its first half. */
  lemma EcosystemOverWords(semver: Semver, vs: set<string>, words: set<string>)
    requires Compatible(words) && WordsWithin(words, vs)
    ensures Preorder(CompareBy(semver, "ECOSYSTEM"), vs) <==> !Crossed(semver, Natural, vs)
  {
    hide Compare, Natural, Crossed, Preorder, Compatible, WordsWithin, TransitiveUnparsed;
    NaturalPreorder(vs, words);
    PreorderTransitive(semver, Natural, vs);
    EcosystemPreorderIff(semver, vs);
  }

  /** Versions that all parse never cross, and neither do versions of which none parses. */
  lemma UniformNeverCross(semver: Semver, text: Comparison, vs: set<string>)
    requires (forall v :: v in vs ==> semver(v).Some?) || (forall v :: v in vs ==> semver(v).None?)
    ensures !Crossed(semver, text, vs)
  {
  }

  /** So the order is a total preorder when every version parses, whatever the words in them. */
  lemma SemverPreorder(semver: Semver, typ: string, vs: set<string>)
    requires UsesSemver(typ) && forall v :: v in vs ==> semver(v).Some?
    ensures Preorder(CompareBy(semver, typ), vs)
  {
    hide Fallback, Crossed, Preorder, UsesSemver;
    UniformNeverCross(semver, Fallback(typ), vs);
    MixedPreorderIff(semver, typ, vs);
  }

  /** An event without a version crosses nothing in text order. */
  lemma BlankNeverCrosses(semver: Semver, vs: set<string>)
    requires semver("").None?
    ensures Crossed(semver, Compare, vs + {""}) <==> Crossed(semver, Compare, vs)
  {
    forall a, b, u | Crossing(semver, Compare, a, b, u)
      ensures a != "" && b != "" && u != ""
    {
    }
  }

  /** Nor in segment order, when the versions that parse start with a number. */
  lemma BlankNeverCrossesNatural(semver: Semver, vs: set<string>)
    requires semver("").None?
    requires forall v :: v in vs && semver(v).Some? ==> Segments(Plain(v)) != [] && !IsWord(Segments(Plain(v))[0])
    ensures Crossed(semver, Natural, vs + {""}) <==> Crossed(semver, Natural, vs)
  {
    hide Segments, Plain, Natural, IsWord;
    forall a, b, u | a in vs + {""} && b in vs + {""} && Crossing(semver, Natural, a, b, u)
      ensures a in vs && b in vs && u != ""
    {
      if u == "" {
        NumberAboveBlank(b);
        NaturalFlips("", b);
      }
    }
  }

  lemma NumberAboveBlank(v: string)
    requires Segments(Plain(v)) != [] && !IsWord(Segments(Plain(v))[0])
    ensures Natural("", v) < 0
  {
    hide Segments;
    SegmentsAreRuns(Plain(v));
    DotDropped();
  }

  /** The order of the version-range line of Sapper's own comparison table, where 1.0rc1 does not parse. */
  lemma DocumentedOrder(semver: Semver)
    requires semver("1.0").Some? && semver("10.0").Some? && semver("1.0rc1").None?
    requires semver("1.0").value < semver("10.0").value
    ensures var cmp := CompareBy(semver, "ECOSYSTEM");
            cmp("1.0rc1", "1.0") < 0 && cmp("1.0", "10.0") < 0 && Preorder(cmp, {"1.0", "10.0", "1.0rc1"})
  {
    hide Natural, Segments, Plain, Crossed;
    var vs, words := {"1.0", "10.0", "1.0rc1"}, {"1", "0", "10", "rc"};
    ExampleSegments();
    TenSegments();
    PlainSame("1.0");
    PlainSame("10.0");
    PlainSame("1.0rc1");
    PostReleaseGoesRound();
    CandidateBelowTen();
    assert Compatible(words);
    assert WordsWithin(words, vs);
    EcosystemOverWords(semver, vs, words);
    CandidateLowest(semver);
  }

  lemma TenSegments()
    ensures Segments("10.0") == ["10", "0"]
  {
    hide Segments;
    DotDropped();
    SegmentsOfRun("10");
    SegmentsOfRun("0");
    SegmentsSplit("10", ".");
    SegmentsSplit("10.", "0");
    assert "10." == "10" + "." && "10.0" == "10." + "0";
  }

  lemma CandidateBelowTen()
    ensures Natural("1.0rc1", "10.0") < 0
  {
    hide Segments, Plain, Compare;
    ExampleSegments();
    TenSegments();
    PlainSame("10.0");
    PlainSame("1.0rc1");
    var rc, ten := ["1", "0", "rc", "1"], ["10", "0"];
    SegmentsAreRuns("10.0");
    SegmentsAreRuns("1.0rc1");
    FromStep(rc, ten, 0);
    assert "1"[..0] == "" && "10"[..1] == "1" && "1"[0] == '1' && "10"[1] == '0' && "10"[0] == '1';
    assert Value("") == 0 && Value("1") == 1 && Value("10") == 10;
  }

  lemma CandidateLowest(semver: Semver)
    requires semver("1.0").Some? && semver("10.0").Some? && semver("1.0rc1").None?
    requires Natural("1.0rc1", "1.0") < 0 && Natural("1.0rc1", "10.0") < 0
    ensures !Crossed(semver, Natural, {"1.0", "10.0", "1.0rc1"})
  {
    hide Natural;
    NaturalFlips("1.0rc1", "1.0");
    NaturalFlips("1.0rc1", "10.0");
  }

  /** A crossing: three versions in a circle. */
  lemma SemverMixGoesRound(semver: Semver)
    requires semver("1.9.0").Some? && semver("1.10.0").Some? && semver("1.9.0").value < semver("1.10.0").value
             && semver("1.5.0.0").None?
    ensures var cmp := CompareBy(semver, "SEMVER");
            cmp("1.9.0", "1.10.0") < 0 && cmp("1.10.0", "1.5.0.0") < 0 && cmp("1.5.0.0", "1.9.0") < 0
    ensures Crossing(semver, Compare, "1.9.0", "1.10.0", "1.5.0.0")
  {
    assert "1.10.0"[..2] == "1.5.0.0"[..2] == "1.9.0"[..2] == "1.";
    SamePrefix("1.", "10.0", "5.0.0");
    SamePrefix("1.", "5.0.0", "9.0");
    assert "1.10.0" == "1." + "10.0" && "1.5.0.0" == "1." + "5.0.0" && "1.9.0" == "1." + "9.0";
  }

  /** In ECOSYSTEM order too: 1.0 and 1.0.0 are one version by semver, but 1.0.0rc1, which does not parse, lies after
      the one and before the other. */
  lemma EcosystemMixGoesRound(semver: Semver)
    requires semver("1.0").Some? && semver("1.0.0") == semver("1.0") && semver("1.0.0rc1").None?
    ensures var cmp := CompareBy(semver, "ECOSYSTEM");
            cmp("1.0.0", "1.0") == 0 && cmp("1.0", "1.0.0rc1") < 0 && cmp("1.0.0rc1", "1.0.0") < 0
    ensures Crossing(semver, Natural, "1.0.0", "1.0", "1.0.0rc1")
    ensures !Preorder(CompareBy(semver, "ECOSYSTEM"), {"1.0", "1.0.0", "1.0.0rc1"})
  {
    hide Natural, Preorder;
    CandidateBetween();
    CrossingGoesRound(semver, "ECOSYSTEM", {"1.0", "1.0.0", "1.0.0rc1"}, "1.0.0", "1.0", "1.0.0rc1");
  }

  lemma ThreePartSegments()
    ensures Segments("1.0.0") == ["1", "0", "0"] && Segments("1.0.0rc1") == ["1", "0", "0", "rc", "1"]
  {
    hide Segments;
    ExampleSegments();
    DotDropped();
    SegmentsOfRun("0");
    SegmentsOfRun("rc");
    SegmentsOfRun("1");
    SegmentsSplit("1.0", ".");
    SegmentsSplit("1.0.", "0");
    assert "1.0." == "1.0" + "." && "1.0.0" == "1.0." + "0";
    SegmentsSplit("1.0.0", "rc");
    SegmentsSplit("1.0.0rc", "1");
    assert "1.0.0rc" == "1.0.0" + "rc" && "1.0.0rc1" == "1.0.0rc" + "1";
  }

  lemma CandidateBetween()
    ensures Natural("1.0", "1.0.0rc1") < 0 && Natural("1.0.0rc1", "1.0.0") < 0
  {
    hide Segments, Plain, Compare, Value;
    ExampleSegments();
    ThreePartSegments();
    PlainSame("1.0");
    PlainSame("1.0.0");
    PlainSame("1.0.0rc1");
    var two, three, rc := ["1", "0"], ["1", "0", "0"], ["1", "0", "0", "rc", "1"];
    SegmentsAreRuns("1.0");
    SegmentsAreRuns("1.0.0");
    SegmentsAreRuns("1.0.0rc1");
    FromStep(two, rc, 0);
    FromStep(two, rc, 1);
    FromStep(two, rc, 2);
    FromStep(rc, three, 0);
    FromStep(rc, three, 1);
    FromStep(rc, three, 2);
    FromStep(rc, three, 3);
    assert "rc"[0] == 'r' && "1"[0] == '1' && "0"[0] == '0';
  }

  /** The circle of a pre-release and a post-release carries over to ECOSYSTEM order, whether or not 1.0 parses. */
  lemma EcosystemWordsGoRound(semver: Semver)
    requires semver("1.0rc1").None? && semver("1.0.post1").None?
    ensures var cmp := CompareBy(semver, "ECOSYSTEM");
            cmp("1.0rc1", "1.0") < 0 && cmp("1.0", "1.0.post1") < 0 && cmp("1.0rc1", "1.0.post1") > 0
    ensures !Preorder(CompareBy(semver, "ECOSYSTEM"), {"1.0rc1", "1.0", "1.0.post1"})
  {
    hide Natural;
    PostReleaseGoesRound();
    var cmp := CompareBy(semver, "ECOSYSTEM");
    assert cmp("1.0rc1", "1.0") < 0 && cmp("1.0", "1.0.post1") < 0;
  }

  lemma {:induction false} SamePrefix(p: string, a: string, b: string)
    ensures Compare(p + a, p + b) == Compare(a, b)
  {
    if p == [] {
      assert p + a == a && p + b == b;
    } else {
      SamePrefix(p[1..], a, b);
      assert (p + a)[1..] == p[1..] + a && (p + b)[1..] == p[1..] + b;
    }
  }

  // ---------- the scan ----------

  function VersionOf(e: Event): string {
    if e.introduced != "" then e.introduced else if e.fixed != "" then e.fixed else e.lastAffected
  }

  /** The order of sortRangeEvents: introduced "0" first, the rest by version. */
  function Before(cmp: Comparison): (Event, Event) -> bool {
    (a: Event, b: Event) =>
      if a.introduced == "0" || b.introduced == "0" then a.introduced == "0" && b.introduced != "0"
      else cmp(VersionOf(a), VersionOf(b)) < 0
  }

  /** What one event does to the verdict about version v. */
  function EffectOf(cmp: Comparison, v: string, e: Event): Effect {
    if e.introduced == "0" || (e.introduced != "" && cmp(v, e.introduced) >= 0) then Sets
    else if e.fixed != "" && cmp(v, e.fixed) >= 0 then Clears
    else if e.lastAffected != "" && cmp(v, e.lastAffected) > 0 then Clears
    else Keeps
  }

  /** The last event with an effect. */
  function LastEffective(cmp: Comparison, v: string, events: seq<Event>): Option<Event> {
    if events == [] then None
    else
      var e := events[|events| - 1];
      if EffectOf(cmp, v, e) != Keeps then Some(e) else LastEffective(cmp, v, events[..|events| - 1])
  }

  /** v is in the range: the last event with an effect, in version order, is an introduction. */
  predicate Included(cmp: Comparison, v: string, events: seq<Event>) {
    var e := LastEffective(cmp, v, StableSort(Before(cmp), events));
    e.Some? && EffectOf(cmp, v, e.value) == Sets
  }

  lemma LastEffectiveSnoc(cmp: Comparison, v: string, events: seq<Event>, e: Event)
    ensures LastEffective(cmp, v, events + [e])
            == if EffectOf(cmp, v, e) != Keeps then Some(e) else LastEffective(cmp, v, events)
  {
    assert (events + [e])[..|events|] == events;
  }

  lemma NothingEffective(cmp: Comparison, v: string)
    ensures LastEffective(cmp, v, []) == None
  {
  }

  /** One case of the switch over an event. */
  method FindEffect(semver: Semver, typ: string, version: string, evt: Event) returns (effect: Effect)
    ensures effect == EffectOf(CompareBy(semver, typ), version, evt)
  {
    hide CompareBy;
    var sinceIntroduced := CompareVersionsOf(semver, typ, version, evt.introduced);
    if evt.introduced == "0" || (evt.introduced != "" && sinceIntroduced >= 0) {
      return Sets;
    }
    var sinceFixed := CompareVersionsOf(semver, typ, version, evt.fixed);
    if evt.fixed != "" && sinceFixed >= 0 {
      return Clears;
    }
    var sinceLast := CompareVersionsOf(semver, typ, version, evt.lastAffected);
    if evt.lastAffected != "" && sinceLast > 0 {
      return Clears;
    }
    return Keeps;
  }

  /** The scan of one range. */
  method IsVersionInRange(semver: Semver, version: string, r: Range) returns (vulnerable: bool)
    ensures vulnerable <==> Included(CompareBy(semver, r.typ), version, r.events)
  {
    hide CompareBy, StableSort, Before, LastEffective, EffectOf;
    ghost var cmp := CompareBy(semver, r.typ);
    var sortedEvents := StableSort(Before(CompareBy(semver, r.typ)), r.events);
    vulnerable := false;
    NothingEffective(cmp, version);
    for j := 0 to |sortedEvents|
      invariant var e := LastEffective(cmp, version, sortedEvents[..j]);
                vulnerable <==> e.Some? && EffectOf(cmp, version, e.value) == Sets
    {
      assert sortedEvents[..j + 1] == sortedEvents[..j] + [sortedEvents[j]];
      LastEffectiveSnoc(cmp, version, sortedEvents[..j], sortedEvents[j]);
      var effect := FindEffect(semver, r.typ, version, sortedEvents[j]);
      match effect
      case Sets => vulnerable := true;
      case Clears => vulnerable := false;
      case Keeps =>
    }
    assert sortedEvents[..|sortedEvents|] == sortedEvents;
  }

  /** isVersionInRanges. */
  method IsVersionInRanges(semver: Semver, version: string, ranges: seq<Range>) returns (b: bool)
    ensures b <==>
            exists i :: 0 <= i < |ranges| && Included(CompareBy(semver, ranges[i].typ), version, ranges[i].events)
  {
    hide CompareBy, Included;
    for i := 0 to |ranges|
      invariant forall k :: 0 <= k < i ==> !Included(CompareBy(semver, ranges[k].typ), version, ranges[k].events)
    {
      var vulnerable := IsVersionInRange(semver, version, ranges[i]);
      if vulnerable {
        return true;
      }
    }
    return false;
  }

  // ---------- the event that decides ----------

  function Pick(cmp: Comparison, v: string, y: Option<Event>, x: Event): Option<Event> {
    if EffectOf(cmp, v, x) == Keeps || (y.Some? && Before(cmp)(x, y.value)) then y else Some(x)
  }

  /** The highest event with an effect, and the last of equals, found without sorting. */
  function Top(cmp: Comparison, v: string, events: seq<Event>): Option<Event> {
    if events == [] then None else Pick(cmp, v, Top(cmp, v, events[..|events| - 1]), events[|events| - 1])
  }

  lemma {:induction false} LastEffectiveIn(cmp: Comparison, v: string, events: seq<Event>)
    ensures var e := LastEffective(cmp, v, events); e.Some? ==> e.value in events && EffectOf(cmp, v, e.value) != Keeps
  {
    hide Before, EffectOf;
    if events != [] {
      LastEffectiveIn(cmp, v, events[..|events| - 1]);
    }
  }

  lemma {:induction false} InsertPicks(cmp: Comparison, v: string, x: Event, s: seq<Event>)
    requires Orders(Before(cmp), s + [x]) && Sorted(Before(cmp), s)
    ensures LastEffective(cmp, v, Insert(Before(cmp), x, s)) == Pick(cmp, v, LastEffective(cmp, v, s), x)
  {
    hide EffectOf, Before, LastEffective, Orders, Sorted;
    var less := Before(cmp);
    LastEffectiveIn(cmp, v, s);
    NothingEffective(cmp, v);
    if s == [] {
      assert s + [x] == [x];
      LastEffectiveSnoc(cmp, v, s, x);
    } else {
      var n := |s| - 1;
      assert s == s[..n] + [s[n]];
      LastEffectiveSnoc(cmp, v, s[..n], s[n]);
      if less(x, s[n]) {
        PrefixOrdered(less, s, x);
        InsertPicks(cmp, v, x, s[..n]);
        LastEffectiveSnoc(cmp, v, Insert(less, x, s[..n]), s[n]);
      } else {
        LastEffectiveSnoc(cmp, v, s, x);
        var y := LastEffective(cmp, v, s);
        if y.Some? {
          NotBelow(less, s, x, y.value);
        }
      }
    }
  }

  lemma PrefixOrdered(less: (Event, Event) -> bool, s: seq<Event>, x: Event)
    requires s != [] && Orders(less, s + [x]) && Sorted(less, s)
    ensures Orders(less, s[..|s| - 1] + [x]) && Sorted(less, s[..|s| - 1])
  {
    OrdersWithin(less, s + [x], s[..|s| - 1] + [x]);
  }

  lemma NotBelow(less: (Event, Event) -> bool, s: seq<Event>, x: Event, y: Event)
    requires s != [] && Orders(less, s + [x]) && Sorted(less, s) && !less(x, s[|s| - 1]) && y in s
    ensures !less(x, y)
  {
    var i :| 0 <= i < |s| && s[i] == y;
    var last := s[|s| - 1];
    assert x in s + [x] && y in s + [x] && last in s + [x];
    assert i < |s| - 1 ==> !less(last, y);
  }

  /** Sorting and scanning comes to picking the top event. */
  lemma {:induction false} SortedTop(cmp: Comparison, v: string, events: seq<Event>)
    requires Orders(Before(cmp), events)
    ensures LastEffective(cmp, v, StableSort(Before(cmp), events)) == Top(cmp, v, events)
  {
    hide EffectOf, Before, Pick, Orders, Sorted, LastEffective, Insert;
    NothingEffective(cmp, v);
    if events != [] {
      var less := Before(cmp);
      var t, x := events[..|events| - 1], events[|events| - 1];
      SortReady(less, t, x, events);
      SortedTop(cmp, v, t);
      InsertPicks(cmp, v, x, StableSort(less, t));
    }
  }

  lemma SortReady(less: (Event, Event) -> bool, t: seq<Event>, x: Event, events: seq<Event>)
    requires events == t + [x] && Orders(less, events)
    ensures Orders(less, t) && Orders(less, StableSort(less, t) + [x]) && Sorted(less, StableSort(less, t))
  {
    OrdersWithin(less, events, t);
    forall y | y in StableSort(less, t) + [x]
      ensures y in events
    {
      SortKeepsElements(less, t, y);
    }
    OrdersWithin(less, events, StableSort(less, t) + [x]);
    SortSorted(less, t);
  }

  /** e is one of the highest events with an effect. */
  ghost predicate Highest(cmp: Comparison, v: string, events: seq<Event>, e: Event) {
    && e in events && EffectOf(cmp, v, e) != Keeps
    && forall f {:trigger f in events} :: f in events && EffectOf(cmp, v, f) != Keeps ==> !Before(cmp)(e, f)
  }

  lemma {:induction false} TopIsHighest(cmp: Comparison, v: string, events: seq<Event>)
    requires Orders(Before(cmp), events)
    ensures match Top(cmp, v, events)
            case None => forall f :: f in events ==> EffectOf(cmp, v, f) == Keeps
            case Some(e) => Highest(cmp, v, events, e)
  {
    hide EffectOf, Before;
    if events != [] {
      var t, x := events[..|events| - 1], events[|events| - 1];
      OrdersWithin(Before(cmp), events, t);
      TopIsHighest(cmp, v, t);
      assert forall f :: f in events <==> f in t || f == x;
      var y := Top(cmp, v, t);
      if EffectOf(cmp, v, x) != Keeps && !(y.Some? && Before(cmp)(x, y.value)) {
        forall f {:trigger f in events} | f in events && EffectOf(cmp, v, f) != Keeps
          ensures !Before(cmp)(x, f)
        {
          if f in t {
            assert y.Some? && !Before(cmp)(y.value, f);
          }
        }
      }
    }
  }

  /** A version is in a range exactly when the event that ends up deciding, a highest one, is an introduction. */
  lemma TopDecides(cmp: Comparison, v: string, events: seq<Event>)
    requires Orders(Before(cmp), events)
    ensures Included(cmp, v, events) <==>
            Top(cmp, v, events).Some? && EffectOf(cmp, v, Top(cmp, v, events).value) == Sets
  {
    hide EffectOf, Before, StableSort, Top, Orders;
    SortedTop(cmp, v, events);
  }

  // ---------- the declared meaning ----------

  /** The versions that are compared: introduced "0" never is. */
  ghost function VersionsOf(events: seq<Event>): set<string> {
    set e | e in events && e.introduced != "0" :: VersionOf(e)
  }

  lemma EventsOrdered(cmp: Comparison, events: seq<Event>)
    requires Preorder(cmp, VersionsOf(events))
    ensures Orders(Before(cmp), events)
  {
    hide VersionOf;
  }

  /** Each event is an introduction, a fix, a last affected version or a limit. */
  ghost predicate SingleField(e: Event) {
    || (e.fixed == "" && e.lastAffected == "")
    || (e.introduced == "" && e.lastAffected == "")
    || (e.introduced == "" && e.fixed == "")
  }

  predicate IntroducedBy(cmp: Comparison, v: string, e: Event) {
    e.introduced == "0" || (e.introduced != "" && cmp(e.introduced, v) <= 0)
  }

  /** v is past the fix. */
  predicate FixedBy(cmp: Comparison, v: string, e: Event) {
    e.fixed != "" && cmp(e.fixed, v) <= 0
  }

  predicate EndedBy(cmp: Comparison, v: string, e: Event) {
    e.lastAffected != "" && cmp(e.lastAffected, v) < 0
  }

  /** The introduction i lies below a version: introduced "0" lies below every one. */
  predicate Opens(cmp: Comparison, i: Event, version: string) {
    i.introduced == "0" || cmp(i.introduced, version) < 0
  }

  /** No introduction and end meet at one version. */
  ghost predicate EndsApart(cmp: Comparison, events: seq<Event>) {
    forall i, e {:trigger i in events, e in events} ::
      i in events && e in events && i.introduced != "" && i.introduced != "0" ==>
        && (e.fixed != "" ==> cmp(i.introduced, e.fixed) != 0)
        && (e.lastAffected != "" ==> cmp(i.introduced, e.lastAffected) != 0)
  }

  /** Some introduction at or below v has no fix in (it, v] and no last affected version strictly between it and v. */
  ghost predicate Declared(cmp: Comparison, v: string, events: seq<Event>) {
    exists i {:trigger IntroducedBy(cmp, v, i)} ::
      i in events && IntroducedBy(cmp, v, i) && OpenSince(cmp, v, events, i)
  }

  ghost predicate OpenSince(cmp: Comparison, v: string, events: seq<Event>, i: Event) {
    forall e {:trigger e in events} :: e in events ==>
      && (Opens(cmp, i, e.fixed) ==> !FixedBy(cmp, v, e))
      && (Opens(cmp, i, e.lastAffected) ==> !EndedBy(cmp, v, e))
  }

  lemma EffectDeclared(cmp: Comparison, v: string, events: seq<Event>, e: Event)
    requires Preorder(cmp, VersionsOf(events) + {v}) && e in events && SingleField(e)
    ensures EffectOf(cmp, v, e) == Sets <==> IntroducedBy(cmp, v, e)
    ensures EffectOf(cmp, v, e) == Clears <==> FixedBy(cmp, v, e) || EndedBy(cmp, v, e)
  {
    if e.introduced != "0" {
      assert VersionOf(e) in VersionsOf(events) + {v};
      assert v in VersionsOf(events) + {v};
      assert cmp(v, VersionOf(e)) < 0 <==> cmp(VersionOf(e), v) > 0;
      assert cmp(VersionOf(e), v) < 0 <==> cmp(v, VersionOf(e)) > 0;
    }
  }

  /** Against an end, the sort order is that of the version comparison, with introduced "0" first. */
  lemma BeforeOpens(cmp: Comparison, i: Event, e: Event)
    requires SingleField(e) && i.introduced != ""
    ensures e.fixed != "" ==> (Before(cmp)(i, e) <==> Opens(cmp, i, e.fixed))
    ensures e.lastAffected != "" ==> (Before(cmp)(i, e) <==> Opens(cmp, i, e.lastAffected))
  {
    assert |"0"| == 1;
    assert VersionOf(i) == i.introduced;
    if e.fixed != "" || e.lastAffected != "" {
      assert e.introduced != "0" && VersionOf(e) == if e.fixed != "" then e.fixed else e.lastAffected;
      assert i.introduced != "0" ==> Before(cmp)(i, e) == (cmp(VersionOf(i), VersionOf(e)) < 0);
    }
  }

  /** Of an introduction and an end that do not meet, one comes first. */
  lemma ApartBefore(cmp: Comparison, events: seq<Event>, i: Event, e: Event)
    requires Preorder(cmp, VersionsOf(events)) && EndsApart(cmp, events)
    requires i in events && e in events && SingleField(i) && SingleField(e)
    requires i.introduced != "" && e.introduced == "" && (e.fixed != "" || e.lastAffected != "")
    ensures Before(cmp)(i, e) || Before(cmp)(e, i)
  {
    if i.introduced != "0" {
      assert VersionOf(i) in VersionsOf(events) && VersionOf(e) in VersionsOf(events);
      assert cmp(VersionOf(i), VersionOf(e)) != 0;
      assert cmp(VersionOf(e), VersionOf(i)) < 0 <==> cmp(VersionOf(i), VersionOf(e)) > 0;
    }
  }

  lemma EffectFields(cmp: Comparison, v: string, e: Event)
    requires SingleField(e)
    ensures EffectOf(cmp, v, e) == Sets ==> e.introduced != ""
    ensures EffectOf(cmp, v, e) == Clears ==> e.introduced == "" && (e.fixed != "" || e.lastAffected != "")
  {
  }

  /** The scan decides a range as its events declare it. */
  lemma IncludedAsDeclared(cmp: Comparison, v: string, events: seq<Event>)
    requires Preorder(cmp, VersionsOf(events) + {v})
    requires forall e :: e in events ==> SingleField(e)
    requires EndsApart(cmp, events)
    ensures Included(cmp, v, events) <==> Declared(cmp, v, events)
  {
    hide EffectOf, Before, StableSort, Top, Orders, Preorder, Included, SingleField, EndsApart, Opens;
    PreorderWithin(cmp, v, events);
    EventsOrdered(cmp, events);
    TopDecides(cmp, v, events);
    TopIsHighest(cmp, v, events);
    forall e | e in events
      ensures EffectOf(cmp, v, e) == Sets <==> IntroducedBy(cmp, v, e)
      ensures EffectOf(cmp, v, e) == Clears <==> FixedBy(cmp, v, e) || EndedBy(cmp, v, e)
    {
      EffectDeclared(cmp, v, events, e);
    }
    var top := Top(cmp, v, events);
    if i :| i in events && IntroducedBy(cmp, v, i) && OpenSince(cmp, v, events, i) {
      assert top.Some?;
      EffectFields(cmp, v, i);
      EffectFields(cmp, v, top.value);
      if EffectOf(cmp, v, top.value) == Clears {
        ApartBefore(cmp, events, i, top.value);
        BeforeOpens(cmp, i, top.value);
      }
    }
    if top.Some? && EffectOf(cmp, v, top.value) == Sets {
      EffectFields(cmp, v, top.value);
      forall e {:trigger e in events} | e in events
        ensures Opens(cmp, top.value, e.fixed) ==> !FixedBy(cmp, v, e)
        ensures Opens(cmp, top.value, e.lastAffected) ==> !EndedBy(cmp, v, e)
      {
        BeforeOpens(cmp, top.value, e);
      }
      assert OpenSince(cmp, v, events, top.value);
    }
  }

  /** One event alone, whatever its fields: only its introduction counts, and it counts first. */
  lemma OneEvent(cmp: Comparison, v: string, e: Event)
    ensures Included(cmp, v, [e]) <==> e.introduced == "0" || (e.introduced != "" && cmp(v, e.introduced) >= 0)
  {
    hide Before;
    var less := Before(cmp);
    assert [e][..0] == [] && StableSort(less, []) == [];
    assert StableSort(less, [e]) == Insert(less, e, []) == [e];
    NothingEffective(cmp, v);
    LastEffectiveSnoc(cmp, v, [], e);
    assert [] + [e] == [e];
  }

  /** An introduction, whatever else its event says, and a fix: the one at the higher version decides, and the fix at
      equal ones, when it is given last. */
  lemma PairByFields(cmp: Comparison, v: string, a: Event, b: Event)
    requires a.introduced != "" && a.introduced != "0" && cmp(v, a.introduced) >= 0
    requires b.introduced == "" && b.fixed != "" && cmp(v, b.fixed) >= 0
    ensures Included(cmp, v, [a, b]) <==> cmp(b.fixed, a.introduced) < 0
  {
    hide Before, LastEffective, EffectOf, StableSort;
    PairEffects(cmp, v, a, b);
    SortedTwo(Before(cmp), a, b);
    LastEffectiveSnoc(cmp, v, [a], b);
    LastEffectiveSnoc(cmp, v, [b], a);
    assert [a] + [b] == [a, b] && [b] + [a] == [b, a];
  }

  lemma PairEffects(cmp: Comparison, v: string, a: Event, b: Event)
    requires a.introduced != "" && a.introduced != "0" && cmp(v, a.introduced) >= 0
    requires b.introduced == "" && b.fixed != "" && cmp(v, b.fixed) >= 0
    ensures EffectOf(cmp, v, a) == Sets && EffectOf(cmp, v, b) == Clears
    ensures Before(cmp)(b, a) <==> cmp(b.fixed, a.introduced) < 0
  {
    assert |"0"| == 1;
    assert VersionOf(a) == a.introduced && VersionOf(b) == b.fixed;
    assert b.introduced != "0";
  }

  lemma SortedTwo(less: (Event, Event) -> bool, a: Event, b: Event)
    ensures StableSort(less, [a, b]) == if less(b, a) then [b, a] else [a, b]
  {
    assert [a, b][..1] == [a] && [a][..0] == [];
    assert StableSort(less, [a]) == [a];
    assert Insert(less, b, []) == [b] && [b] + [a] == [b, a];
    assert less(b, a) ==> Insert(less, b, [a]) == Insert(less, b, [a][..0]) + [a];
  }

  /** SEMVER ranges whose versions do not cross mean what they declare. */
  lemma SemverRangeAsDeclared(semver: Semver, v: string, events: seq<Event>)
    requires !Crossed(semver, Compare, VersionsOf(events) + {v})
    requires (forall e :: e in events ==> SingleField(e)) && EndsApart(CompareBy(semver, "SEMVER"), events)
    ensures Included(CompareBy(semver, "SEMVER"), v, events) <==> Declared(CompareBy(semver, "SEMVER"), v, events)
  {
    hide SingleField, EndsApart, Declared, Included, Preorder, CompareBy, Crossed, VersionsOf;
    SemverPreorderIff(semver, VersionsOf(events) + {v});
    IncludedAsDeclared(CompareBy(semver, "SEMVER"), v, events);
  }

  /** So do ECOSYSTEM ranges over compatible words. */
  lemma EcosystemRangeAsDeclared(semver: Semver, v: string, events: seq<Event>, words: set<string>)
    requires Compatible(words) && WordsWithin(words, VersionsOf(events) + {v})
    requires !Crossed(semver, Natural, VersionsOf(events) + {v})
    requires (forall e :: e in events ==> SingleField(e)) && EndsApart(CompareBy(semver, "ECOSYSTEM"), events)
    ensures Included(CompareBy(semver, "ECOSYSTEM"), v, events) <==> Declared(CompareBy(semver, "ECOSYSTEM"), v, events)
  {
    hide SingleField, EndsApart, Declared, Included, Preorder, CompareBy, Crossed, VersionsOf, Compatible, WordsWithin;
    EcosystemOverWords(semver, VersionsOf(events) + {v}, words);
    IncludedAsDeclared(CompareBy(semver, "ECOSYSTEM"), v, events);
  }

  /** Where versions go round, the scan can decide against the declared meaning: 2.0.0 is affected by the introduction
      in 1.5.0.0, after which no fix comes, but the sort puts the fix in 1.10.0 last. */
  lemma CircleMisleadsScan(semver: Semver)
    requires semver("1.9.0").Some? && semver("1.10.0").Some? && semver("2.0.0").Some? && semver("1.5.0.0").None?
    requires semver("1.9.0").value < semver("1.10.0").value < semver("2.0.0").value
    ensures var cmp := CompareBy(semver, "SEMVER"); var events := CircleEvents();
            && (forall e :: e in events ==> SingleField(e)) && EndsApart(cmp, events)
            && Declared(cmp, "2.0.0", events) && !Included(cmp, "2.0.0", events)
  {
    hide CompareBy, Compare, Natural, Included;
    var cmp := CompareBy(semver, "SEMVER");
    var events := CircleEvents();
    CircleOrder(semver);
    assert forall e :: e in events <==> e == events[0] || e == events[1] || e == events[2];
    CircleApart(cmp);
    CircleDeclared(cmp);
    CircleScanned(cmp);
  }

  function CircleEvents(): seq<Event> {
    [Event("1.5.0.0", "", "", ""), Event("1.9.0", "", "", ""), Event("", "1.10.0", "", "")]
  }

  ghost predicate Circle(cmp: Comparison) {
    && cmp("1.9.0", "1.10.0") < 0 && cmp("1.10.0", "1.9.0") > 0
    && cmp("1.10.0", "1.5.0.0") < 0 && cmp("1.5.0.0", "1.10.0") > 0
    && cmp("1.5.0.0", "1.9.0") < 0 && cmp("1.9.0", "1.5.0.0") > 0
    && cmp("1.5.0.0", "2.0.0") < 0 && cmp("2.0.0", "1.5.0.0") > 0
    && cmp("1.9.0", "2.0.0") < 0 && cmp("2.0.0", "1.9.0") > 0
    && cmp("1.10.0", "2.0.0") < 0 && cmp("2.0.0", "1.10.0") > 0
  }

  lemma CircleOrder(semver: Semver)
    requires semver("1.9.0").Some? && semver("1.10.0").Some? && semver("2.0.0").Some? && semver("1.5.0.0").None?
    requires semver("1.9.0").value < semver("1.10.0").value < semver("2.0.0").value
    ensures Circle(CompareBy(semver, "SEMVER"))
  {
    hide Compare, Natural;
    SemverMixGoesRound(semver);
    CompareFlips("1.10.0", "1.5.0.0");
    CompareFlips("1.5.0.0", "1.9.0");
    OneBeforeTwo();
    CompareFlips("1.5.0.0", "2.0.0");
  }

  lemma OneBeforeTwo()
    ensures Compare("1.5.0.0", "2.0.0") < 0
  {
  }

  lemma CircleApart(cmp: Comparison)
    requires Circle(cmp)
    ensures EndsApart(cmp, CircleEvents())
  {
  }

  lemma CircleDeclared(cmp: Comparison)
    requires Circle(cmp)
    ensures Declared(cmp, "2.0.0", CircleEvents())
  {
    var events := CircleEvents();
    var i := events[0];
    CircleBefore(cmp);
    assert i in events && IntroducedBy(cmp, "2.0.0", i);
    var j, k := events[1], events[2];
    assert forall e :: e in events ==> e == i || e == j || e == k;
    assert !FixedBy(cmp, "2.0.0", j) && !EndedBy(cmp, "2.0.0", j) && !FixedBy(cmp, "2.0.0", i);
  }

  lemma CircleBefore(cmp: Comparison)
    requires Circle(cmp)
    ensures var events := CircleEvents(); var less := Before(cmp);
            less(events[0], events[1]) && !less(events[1], events[0]) && less(events[1], events[2])
            && !less(events[2], events[1]) && !less(events[0], events[2])
  {
    var events := CircleEvents();
    assert |events[0].introduced| > 1 && |events[1].introduced| > 1 && |events[2].fixed| > 1;
    assert VersionOf(events[0]) == "1.5.0.0" && VersionOf(events[1]) == "1.9.0" && VersionOf(events[2]) == "1.10.0";
  }

  lemma CircleScanned(cmp: Comparison)
    requires Circle(cmp)
    ensures !Included(cmp, "2.0.0", CircleEvents())
  {
    hide StableSort, LastEffective;
    var events := CircleEvents();
    var a, b, c := events[0], events[1], events[2];
    CircleBefore(cmp);
    SortedPair(Before(cmp), a, b);
    SortedThird(Before(cmp), a, b, c);
    LastEffectiveSnoc(cmp, "2.0.0", [a, b], c);
    assert [a, b] + [c] == events;
  }

  lemma SortedThird(less: (Event, Event) -> bool, a: Event, b: Event, c: Event)
    requires StableSort(less, [a, b]) == [a, b] && !less(c, b)
    ensures StableSort(less, [a, b, c]) == [a, b, c]
  {
    assert [a, b, c][..2] == [a, b];
  }

  lemma PreorderWithin(cmp: Comparison, v: string, events: seq<Event>)
    requires Preorder(cmp, VersionsOf(events) + {v})
    ensures Preorder(cmp, VersionsOf(events))
  {
  }

  lemma EffectHasVersion(cmp: Comparison, v: string, e: Event)
    ensures EffectOf(cmp, v, e) != Keeps ==> VersionOf(e) != ""
  {
  }

  // ---------- the order of the events ----------

  /** An introduction and an end meet at the highest version with an effect. */
  ghost predicate Mixed(cmp: Comparison, v: string, events: seq<Event>) {
    exists e, f ::
      Highest(cmp, v, events, e) && Highest(cmp, v, events, f) && EffectOf(cmp, v, e) == Sets
        && EffectOf(cmp, v, f) == Clears
  }

  ghost predicate OrderFree(cmp: Comparison, v: string, events: seq<Event>) {
    forall p {:trigger multiset(p)} ::
      multiset(p) == multiset(events) ==> (Included(cmp, v, p) <==> Included(cmp, v, events))
  }

  lemma SameEvents(cmp: Comparison, v: string, events: seq<Event>, p: seq<Event>)
    requires multiset(p) == multiset(events)
    ensures forall e :: e in p <==> e in events
    ensures Orders(Before(cmp), events) ==> Orders(Before(cmp), p)
    ensures forall e {:trigger Highest(cmp, v, p, e)} :: Highest(cmp, v, p, e) <==> Highest(cmp, v, events, e)
  {
    hide Before, EffectOf;
    forall e
      ensures e in p <==> e in events
    {
      assert e in p <==> e in multiset(p);
      assert e in events <==> e in multiset(events);
    }
  }

  lemma NotMixedSame(cmp: Comparison, v: string, events: seq<Event>, p: seq<Event>)
    requires Orders(Before(cmp), events) && multiset(p) == multiset(events) && !Mixed(cmp, v, events)
    ensures Included(cmp, v, p) <==> Included(cmp, v, events)
  {
    hide Before, EffectOf, Included, Top, Orders;
    SameEvents(cmp, v, events, p);
    TopDecides(cmp, v, events);
    TopDecides(cmp, v, p);
    TopIsHighest(cmp, v, events);
    TopIsHighest(cmp, v, p);
  }

  /** The events with one of them moved to the end. */
  function MovedLast(events: seq<Event>, i: nat): seq<Event>
    requires i < |events|
  {
    events[..i] + events[i + 1..] + [events[i]]
  }

  lemma MovedDecides(cmp: Comparison, v: string, events: seq<Event>, e: Event) returns (p: seq<Event>)
    requires Orders(Before(cmp), events) && Highest(cmp, v, events, e)
    ensures multiset(p) == multiset(events) && (Included(cmp, v, p) <==> EffectOf(cmp, v, e) == Sets)
  {
    hide Before, EffectOf, Included, Orders;
    var i :| 0 <= i < |events| && events[i] == e;
    p := MovedLast(events, i);
    assert events == events[..i] + [events[i]] + events[i + 1..];
    SameEvents(cmp, v, events, p);
    TopDecides(cmp, v, p);
    LastHighestIsTop(cmp, v, p);
  }

  lemma LastHighestIsTop(cmp: Comparison, v: string, p: seq<Event>)
    requires p != [] && Orders(Before(cmp), p) && Highest(cmp, v, p, p[|p| - 1])
    ensures Top(cmp, v, p) == Some(p[|p| - 1])
  {
    hide Before, EffectOf;
    var t := p[..|p| - 1];
    OrdersWithin(Before(cmp), p, t);
    TopIsHighest(cmp, v, t);
  }

  /** The answer is the same for every order of the events exactly when no introduction and end meet at the top. */
  lemma OrderFreeIff(cmp: Comparison, v: string, events: seq<Event>)
    requires Orders(Before(cmp), events)
    ensures OrderFree(cmp, v, events) <==> !Mixed(cmp, v, events)
  {
    hide Before, EffectOf, Included, Orders, Highest;
    if Mixed(cmp, v, events) {
      var e, f :|
        Highest(cmp, v, events, e) && Highest(cmp, v, events, f) && EffectOf(cmp, v, e) == Sets
          && EffectOf(cmp, v, f) == Clears;
      var p := MovedDecides(cmp, v, events, e);
      var q := MovedDecides(cmp, v, events, f);
    } else {
      forall p {:trigger multiset(p)} | multiset(p) == multiset(events)
        ensures Included(cmp, v, p) <==> Included(cmp, v, events)
      {
        NotMixedSame(cmp, v, events, p);
      }
    }
  }

  /** Two events never meet at one version. */
  ghost predicate Distinct(cmp: Comparison, events: seq<Event>) {
    forall e, f {:trigger e in events, f in events} ::
      e in events && f in events && e != f && VersionOf(e) != "" && VersionOf(f) != "" ==>
        Before(cmp)(e, f) || Before(cmp)(f, e)
  }

  /** Events can come in any order when no introduction and end meet. */
  lemma ApartIsOrderFree(cmp: Comparison, v: string, events: seq<Event>)
    requires Preorder(cmp, VersionsOf(events)) && EndsApart(cmp, events) && forall e :: e in events ==> SingleField(e)
    ensures OrderFree(cmp, v, events)
  {
    hide Before, EffectOf, Included, Orders, VersionOf, OrderFree, Preorder, SingleField, EndsApart;
    EventsOrdered(cmp, events);
    OrderFreeIff(cmp, v, events);
    if Mixed(cmp, v, events) {
      var e, f :|
        Highest(cmp, v, events, e) && Highest(cmp, v, events, f) && EffectOf(cmp, v, e) == Sets
          && EffectOf(cmp, v, f) == Clears;
      EffectFields(cmp, v, e);
      EffectFields(cmp, v, f);
      ApartBefore(cmp, events, e, f);
      assert false;
    }
  }

  /** Events at distinct versions, whatever fields they have, can come in any order. */
  lemma DistinctIsOrderFree(cmp: Comparison, v: string, events: seq<Event>)
    requires Orders(Before(cmp), events) && Distinct(cmp, events)
    ensures OrderFree(cmp, v, events)
  {
    hide Before, EffectOf, Included, Orders, VersionOf, OrderFree;
    OrderFreeIff(cmp, v, events);
    if Mixed(cmp, v, events) {
      var e, f :|
        Highest(cmp, v, events, e) && Highest(cmp, v, events, f) && EffectOf(cmp, v, e) == Sets
          && EffectOf(cmp, v, f) == Clears;
      EffectHasVersion(cmp, v, e);
      EffectHasVersion(cmp, v, f);
      assert false;
    }
  }

  // ---------- limits ----------

  function WithoutLimit(e: Event): Event {
    e.(limit := "")
  }

  function WithoutLimits(events: seq<Event>): (r: seq<Event>)
    ensures |r| == |events| && forall i :: 0 <= i < |events| ==> r[i] == WithoutLimit(events[i])
  {
    seq(|events|, i requires 0 <= i < |events| => WithoutLimit(events[i]))
  }

  lemma SameBefore(cmp: Comparison, a: Event, b: Event)
    ensures Before(cmp)(WithoutLimit(a), WithoutLimit(b)) == Before(cmp)(a, b)
  {
    assert VersionOf(WithoutLimit(a)) == VersionOf(a) && VersionOf(WithoutLimit(b)) == VersionOf(b);
  }

  lemma {:induction false} InsertWithoutLimits(cmp: Comparison, x: Event, s: seq<Event>)
    ensures Insert(Before(cmp), WithoutLimit(x), WithoutLimits(s)) == WithoutLimits(Insert(Before(cmp), x, s))
  {
    hide VersionOf;
    if s != [] {
      SameBefore(cmp, x, s[|s| - 1]);
      assert WithoutLimits(s)[|s| - 1] == WithoutLimit(s[|s| - 1]);
    }
    if s != [] && Before(cmp)(x, s[|s| - 1]) {
      var n := |s| - 1;
      InsertWithoutLimits(cmp, x, s[..n]);
      assert WithoutLimits(s)[..n] == WithoutLimits(s[..n]);
      assert WithoutLimits(Insert(Before(cmp), x, s))
        == WithoutLimits(Insert(Before(cmp), x, s[..n])) + [WithoutLimit(s[n])];
    } else {
      assert WithoutLimits(s + [x]) == WithoutLimits(s) + [WithoutLimit(x)];
    }
  }

  lemma {:induction false} SortWithoutLimits(cmp: Comparison, s: seq<Event>)
    ensures StableSort(Before(cmp), WithoutLimits(s)) == WithoutLimits(StableSort(Before(cmp), s))
  {
    if s != [] {
      var n := |s| - 1;
      SortWithoutLimits(cmp, s[..n]);
      assert WithoutLimits(s)[..n] == WithoutLimits(s[..n]);
      InsertWithoutLimits(cmp, s[n], StableSort(Before(cmp), s[..n]));
    }
  }

  lemma {:induction false} LastWithoutLimits(cmp: Comparison, v: string, s: seq<Event>)
    ensures var e := LastEffective(cmp, v, s);
            LastEffective(cmp, v, WithoutLimits(s)) == if e.Some? then Some(WithoutLimit(e.value)) else None
  {
    if s != [] {
      var n := |s| - 1;
      LastWithoutLimits(cmp, v, s[..n]);
      assert WithoutLimits(s)[..n] == WithoutLimits(s[..n]);
    }
  }

  /** Limits never change the answer. */
  lemma LimitsIgnored(cmp: Comparison, v: string, events: seq<Event>)
    ensures Included(cmp, v, WithoutLimits(events)) <==> Included(cmp, v, events)
  {
    SortWithoutLimits(cmp, events);
    LastWithoutLimits(cmp, v, StableSort(Before(cmp), events));
  }

  /** The limit rule of the OSV schema's evaluation section: a range with limits ends before the last of them, and
      "*" stands for infinity. */
  ghost predicate BeforeLimits(cmp: Comparison, v: string, events: seq<Event>) {
    (exists e :: e in events && e.limit != "") ==> exists e :: e in events && WithinLimit(cmp, v, e)
  }

  predicate WithinLimit(cmp: Comparison, v: string, e: Event) {
    e.limit != "" && (e.limit == "*" || cmp(v, e.limit) < 0)
  }

  /** The scan follows the schema, limits included, exactly when v lies before a limit or is not affected anyway. */
  lemma FollowsSchemaIff(cmp: Comparison, v: string, events: seq<Event>)
    requires Preorder(cmp, VersionsOf(events) + {v})
    requires (forall e :: e in events ==> SingleField(e)) && EndsApart(cmp, events)
    ensures (Included(cmp, v, events) <==> BeforeLimits(cmp, v, events) && Declared(cmp, v, events))
            <==> BeforeLimits(cmp, v, events) || !Declared(cmp, v, events)
  {
    hide Preorder, SingleField, EndsApart, Included, Declared, BeforeLimits;
    IncludedAsDeclared(cmp, v, events);
  }

  /** A range without limits, or with the limit "*", always follows the schema. */
  lemma UnlimitedFollowsSchema(cmp: Comparison, v: string, events: seq<Event>)
    requires Preorder(cmp, VersionsOf(events) + {v})
    requires (forall e :: e in events ==> SingleField(e)) && EndsApart(cmp, events)
    requires (forall e :: e in events ==> e.limit == "") || exists e :: e in events && e.limit == "*"
    ensures Included(cmp, v, events) <==> BeforeLimits(cmp, v, events) && Declared(cmp, v, events)
  {
    hide Preorder, SingleField, EndsApart, Included, Declared;
    FollowsSchemaIff(cmp, v, events);
    if e :| e in events && e.limit == "*" {
      assert WithinLimit(cmp, v, e);
    }
  }

  /** By the schema, version 3 is outside "from 0, limit 2"; the scan puts it in. */
  lemma LimitDeparts(semver: Semver)
    ensures var cmp := CompareBy(semver, "GIT"); var events := [Event("0", "", "", ""), Event("", "", "", "2")];
            !BeforeLimits(cmp, "3", events) && Included(cmp, "3", events)
  {
    hide CompareVersions, Natural, Compare, BeforeLimits, LastEffective;
    var cmp := CompareBy(semver, "GIT");
    var a, b := Event("0", "", "", ""), Event("", "", "", "2");
    SortedPair(Before(cmp), a, b);
    assert [a, b][..1] == [a];
    LastEffectiveSnoc(cmp, "3", [a], b);
    LastEffectiveSnoc(cmp, "3", [], a);
    assert [] + [a] == [a] && [a] + [b] == [a, b];
    TextAfter(semver);
    LimitedTo(cmp, a, b);
  }

  lemma LimitedTo(cmp: Comparison, a: Event, b: Event)
    requires a == Event("0", "", "", "") && b == Event("", "", "", "2") && cmp("3", "2") > 0
    ensures !BeforeLimits(cmp, "3", [a, b])
  {
    assert b in [a, b] && b.limit != "";
  }

  lemma TextAfter(semver: Semver)
    ensures CompareBy(semver, "GIT")("3", "2") > 0
  {
  }

  lemma SortedPair(less: (Event, Event) -> bool, a: Event, b: Event)
    requires !less(b, a)
    ensures StableSort(less, [a, b]) == [a, b]
  {
    assert [a, b][..1] == [a] && [a][..0] == [];
    assert StableSort(less, [a]) == [a];
  }
}
