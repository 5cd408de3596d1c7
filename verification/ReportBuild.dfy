/** Build: the findings of all vulnerability nodes, merged, filtered in place and sorted by urgency. */
module ReportBuild {
  import opened Store
  import opened Texts
  import opened Sorting
  import opened UnionFind
  import opened Findings
  import opened Merge
  import opened Report

  datatype Options = Options(vulnerability: string, kevOnly: bool, minEPSS: real)

  function Want(opts: Options): string {
    Upper(Trim(opts.vulnerability))
  }

  predicate Passes(opts: Options, f: Finding) {
    && (Want(opts) == "" || Want(opts) in NamesOf(f))
    && (opts.kevOnly ==> f.kev.Some?)
    && (opts.minEPSS > 0.0 ==> f.epss.Some? && f.epss.value.epss >= opts.minEPSS)
  }

  function Kept(opts: Options, findings: seq<Finding>): seq<Finding> {
    if findings == [] then []
    else
      var last := findings[|findings| - 1];
      Kept(opts, findings[..|findings| - 1]) + (if Passes(opts, last) then [last] else [])
  }

  function EPSSOf(f: Finding): real {
    if f.epss.None? then -1.0 else f.epss.value.epss
  }

  /** KEV first, then the higher EPSS score, then more products, then the smaller ID. */
  predicate MoreUrgent(a: Finding, b: Finding) {
    if a.kev.Some? != b.kev.Some? then a.kev.Some?
    else if EPSSOf(a) != EPSSOf(b) then EPSSOf(a) > EPSSOf(b)
    else if |a.products| != |b.products| then |a.products| > |b.products|
    else Compare(a.id, b.id) < 0
  }

  lemma UrgencyOrders(s: seq<Finding>)
    ensures Orders(MoreUrgent, s)
  {
    forall a, b
      ensures MoreUrgent(a, b) ==> !MoreUrgent(b, a)
    {
      CompareFlips(a.id, b.id);
    }
    forall a, b, c | !MoreUrgent(a, b) && !MoreUrgent(b, c)
      ensures !MoreUrgent(a, c)
    {
      CompareFlips(a.id, b.id);
      CompareFlips(b.id, c.id);
      CompareFlips(a.id, c.id);
      if Compare(c.id, b.id) <= 0 && Compare(b.id, a.id) <= 0 {
        CompareTrans(c.id, b.id, a.id);
      }
    }
  }

  /** The filter loop into findings[:0]: the same array is read ahead of what is written. */
  method KeepInPlace(findings: array<Finding>, opts: Options) returns (n: nat)
    modifies findings
    ensures n <= findings.Length && findings[..n] == Kept(opts, old(findings[..]))
  {
    hide Passes;
    n := 0;
    ghost var was := findings[..];
    var want := Want(opts);
    for i := 0 to findings.Length
      invariant n <= i && findings[..n] == Kept(opts, was[..i])
      invariant forall k :: i <= k < findings.Length ==> findings[k] == was[k]
    {
      var finding := findings[i];
      assert was[..i + 1][..i] == was[..i];
      PassesByTests(opts, finding);
      if want != "" && want !in NamesOf(finding) {
        continue;
      }
      if opts.kevOnly && finding.kev.None? {
        continue;
      }
      if opts.minEPSS > 0.0 && (finding.epss.None? || finding.epss.value.epss < opts.minEPSS) {
        continue;
      }
      findings[n] := finding;
      n := n + 1;
      assert findings[..n] == findings[..n - 1] + [finding];
    }
    assert was[..findings.Length] == was;
  }

  lemma PassesByTests(opts: Options, f: Finding)
    ensures !Passes(opts, f) <==>
            || (Want(opts) != "" && Want(opts) !in NamesOf(f))
            || (opts.kevOnly && f.kev.None?)
            || (opts.minEPSS > 0.0 && (f.epss.None? || f.epss.value.epss < opts.minEPSS))
  {
  }

  // ---------- Build ----------

  /** One finding for each vulnerability node among the IDs not in rest. */
  ghost predicate BuiltAll(nodes: map<nat, NodeRecord>, records: map<nat, Details>, data: Data, rest: set<nat>,
                           ids: seq<nat>, built: seq<Finding>) {
    && |ids| == |built|
    && (forall v :: v in ids <==> v in nodes && v !in rest && nodes[v].typ == VULNERABILITY_TYPE)
    && (forall i, j :: 0 <= i < j < |ids| ==> ids[i] != ids[j])
    && (forall i {:trigger built[i]} :: 0 <= i < |ids| ==> Found(nodes, records, data, ids[i], built[i]))
  }

  lemma BuiltStep(nodes: map<nat, NodeRecord>, records: map<nat, Details>, data: Data, rest: set<nat>, ids: seq<nat>,
                  built: seq<Finding>, v: nat, f: Finding)
    requires BuiltAll(nodes, records, data, rest, ids, built) && v in rest && v in nodes
             && nodes[v].typ == VULNERABILITY_TYPE
    requires Found(nodes, records, data, v, f)
    ensures BuiltAll(nodes, records, data, rest - {v}, ids + [v], built + [f])
  {
    hide Found;
    assert v !in ids;
    assert forall x :: x in ids + [v] <==> x in ids || x == v;
  }

  lemma SkippedStep(nodes: map<nat, NodeRecord>, records: map<nat, Details>, data: Data, rest: set<nat>, ids: seq<nat>,
                    built: seq<Finding>, v: nat)
    requires BuiltAll(nodes, records, data, rest, ids, built) && (v in nodes ==> nodes[v].typ != VULNERABILITY_TYPE)
    ensures BuiltAll(nodes, records, data, rest - {v}, ids, built)
  {
    hide Found;
  }

  ghost predicate IsReport(nodes: map<nat, NodeRecord>, records: map<nat, Details>, data: Data, opts: Options,
                           findings: seq<Finding>,
                           ids: seq<nat>, built: seq<Finding>, classOf: seq<nat>, merged: seq<Finding>) {
    && BuiltAll(nodes, records, data, {}, ids, built)
    && MergesTo(built, classOf, merged)
    && multiset(findings) == multiset(Kept(opts, merged))
    && Sorted(MoreUrgent, findings)
  }

  /** Build. The nodes of a Go map come in any order. */
  method Build(nodes: map<nat, NodeRecord>, records: map<nat, Details>, data: Data, opts: Options)
      returns (findings: seq<Finding>)
    ensures exists ids, built, classOf, merged ::
              IsReport(nodes, records, data, opts, findings, ids, built, classOf, merged)
  {
    hide Found, MergesTo, Kept, Sorted, BuiltAll, MoreUrgent, StableSort;
    var each: seq<Finding> := [];
    ghost var ids: seq<nat> := [];
    NothingBuilt(nodes, records, data);
    var rest := nodes.Keys;
    while rest != {}
      decreases rest
      invariant rest <= nodes.Keys && BuiltAll(nodes, records, data, rest, ids, each)
    {
      var v :| v in rest;
      if nodes[v].typ != VULNERABILITY_TYPE {
        SkippedStep(nodes, records, data, rest, ids, each, v);
      } else {
        var finding := BuildFinding(nodes, records, data, v);
        BuiltStep(nodes, records, data, rest, ids, each, v, finding);
        each := each + [finding];
        ids := ids + [v];
      }
      rest := rest - {v};
    }
    var merged := MergeAliases(each);
    ghost var classOf :| MergesTo(each, classOf, merged);
    var slice := new Finding[|merged|](i requires 0 <= i < |merged| => merged[i]);
    assert slice[..] == merged;
    var n := KeepInPlace(slice, opts);
    findings := StableSort(MoreUrgent, slice[..n]);
    UrgencyOrders(slice[..n]);
    SortSorted(MoreUrgent, slice[..n]);
    SortPermutes(MoreUrgent, slice[..n]);
    assert IsReport(nodes, records, data, opts, findings, ids, each, classOf, merged);
  }

  lemma NothingBuilt(nodes: map<nat, NodeRecord>, records: map<nat, Details>, data: Data)
    ensures BuiltAll(nodes, records, data, nodes.Keys, [], [])
  {
  }

  // ---------- what is in the report ----------

  lemma {:induction false} KeptCounts(opts: Options, s: seq<Finding>, f: Finding)
    ensures multiset(Kept(opts, s))[f] == if Passes(opts, f) then multiset(s)[f] else 0
  {
    hide Passes;
    if s != [] {
      KeptCounts(opts, s[..|s| - 1], f);
      assert s == s[..|s| - 1] + [s[|s| - 1]];
    }
  }

  /** Exactly the merged findings that pass are in the report, each as often as it was merged. */
  lemma ReportCounts(nodes: map<nat, NodeRecord>, records: map<nat, Details>, data: Data, opts: Options,
                     findings: seq<Finding>, ids: seq<nat>, built: seq<Finding>, classOf: seq<nat>,
                     merged: seq<Finding>, f: Finding)
    requires IsReport(nodes, records, data, opts, findings, ids, built, classOf, merged)
    ensures multiset(findings)[f] == if Passes(opts, f) then multiset(merged)[f] else 0
  {
    hide BuiltAll, MergesTo, Passes, Sorted, Kept;
    KeptCounts(opts, merged, f);
  }

  /** The filters: a name asked for, blanks around it and case apart, must be the ID or an alias; a KEV entry and a
      least EPSS score must be there when asked for. */
  lemma PassesIff(opts: Options, f: Finding, before: string, want: string, after: string)
    requires opts.vulnerability == before + want + after && Blank(before) && Blank(after) && Bare(want)
    ensures Passes(opts, f) <==>
            && (want == "" || Alike(want, f.id) || exists a :: a in f.aliases && Alike(want, a))
            && (opts.kevOnly ==> f.kev.Some?)
            && (opts.minEPSS > 0.0 ==> f.epss.Some? && f.epss.value.epss >= opts.minEPSS)
  {
    hide Trim, Alike;
    TrimTakes(before, want, after);
    WantedName(want, f);
  }

  lemma WantedName(want: string, f: Finding)
    ensures Upper(want) in NamesOf(f) <==> Alike(want, f.id) || exists a :: a in f.aliases && Alike(want, a)
  {
    hide Alike, Upper;
    var names := NamesOf(f);
    UpperAlike(want, f.id);
    forall a
      ensures Alike(want, a) <==> Upper(want) == Upper(a)
    {
      UpperAlike(want, a);
    }
    assert Upper(want) == names[0] ==> Upper(want) in names;
    if a :| a in f.aliases && Alike(want, a) {
      var i :| 0 <= i < |f.aliases| && f.aliases[i] == a;
      assert names[i + 1] == Upper(want);
    }
    if Upper(want) in names {
      var i :| 0 <= i < |names| && names[i] == Upper(want);
      assert i > 0 ==> f.aliases[i - 1] in f.aliases;
    }
  }

  /** Of two findings the later one is not more urgent: it has no KEV entry the other lacks; with that equal no higher
      EPSS score; with that equal not more products; with that equal no smaller ID. A missing score is below
      any. */
  lemma ReportByUrgency(nodes: map<nat, NodeRecord>, records: map<nat, Details>, data: Data, opts: Options,
                        findings: seq<Finding>, ids: seq<nat>, built: seq<Finding>, classOf: seq<nat>,
                        merged: seq<Finding>, i: nat, j: nat)
    requires IsReport(nodes, records, data, opts, findings, ids, built, classOf, merged) && i < j < |findings|
    requires forall f :: f in findings && f.epss.Some? ==> f.epss.value.epss >= 0.0
    ensures var a, b := findings[i], findings[j];
            && (b.kev.Some? ==> a.kev.Some?)
            && (a.kev.Some? == b.kev.Some? ==>
                 && (b.epss.Some? ==> a.epss.Some? && a.epss.value.epss >= b.epss.value.epss)
                 && (a.epss.Some? == b.epss.Some? && (a.epss.Some? ==> a.epss.value.epss == b.epss.value.epss) ==>
                      && |a.products| >= |b.products|
                      && (|a.products| == |b.products| ==> a.id == b.id || Follows(a.id, b.id))))
  {
    hide BuiltAll, MergesTo, Kept, Follows, Compare;
    var a, b := findings[i], findings[j];
    assert a in findings && b in findings;
    assert !MoreUrgent(b, a);
    CompareIff(a.id, b.id);
    CompareFlips(a.id, b.id);
  }

  /** A finding is built for every node of type "vuln" and for nothing else, once. */
  lemma ReportCovers(nodes: map<nat, NodeRecord>, records: map<nat, Details>, data: Data, opts: Options,
                     findings: seq<Finding>, ids: seq<nat>, built: seq<Finding>, classOf: seq<nat>,
                     merged: seq<Finding>, v: nat)
    requires IsReport(nodes, records, data, opts, findings, ids, built, classOf, merged)
    ensures v in nodes && nodes[v].typ == "vuln" <==> multiset(ids)[v] == 1
    ensures |built| == |ids| && forall i :: 0 <= i < |ids| ==> ids[i] in nodes && built[i].id == nodes[ids[i]].name
  {
    hide MergesTo, Kept, Sorted, Passes, Accounts, AllListed, KEVFor, EPSSFor, VEXFor, DirectNames;
    OnceListed(ids, v);
  }

  lemma {:induction false} OnceListed(ids: seq<nat>, v: nat)
    requires forall i, j :: 0 <= i < j < |ids| ==> ids[i] != ids[j]
    ensures multiset(ids)[v] == if v in ids then 1 else 0
  {
    if ids != [] {
      var n := |ids| - 1;
      OnceListed(ids[..n], v);
      assert ids == ids[..n] + [ids[n]];
      assert ids[n] !in ids[..n];
    }
  }

  // ---------- asking for one vulnerability ----------

  lemma {:induction false} KeptNone(opts: Options, s: seq<Finding>)
    requires forall k :: 0 <= k < |s| ==> !Passes(opts, s[k])
    ensures Kept(opts, s) == []
  {
    hide Passes;
    if s != [] {
      KeptNone(opts, s[..|s| - 1]);
    }
  }

  lemma {:induction false} KeptOne(opts: Options, s: seq<Finding>, m: nat)
    requires m < |s| && forall k :: 0 <= k < |s| && k != m ==> !Passes(opts, s[k])
    ensures Kept(opts, s) == if Passes(opts, s[m]) then [s[m]] else []
  {
    hide Passes;
    var n := |s| - 1;
    if m == n {
      KeptNone(opts, s[..n]);
    } else {
      KeptOne(opts, s[..n], m);
    }
  }

  lemma SameSingle(findings: seq<Finding>, kept: seq<Finding>)
    requires multiset(findings) == multiset(kept) && |kept| <= 1
    ensures findings == kept
  {
    assert |findings| == |multiset(findings)| == |multiset(kept)| == |kept|;
    if |kept| == 1 {
      assert findings == [findings[0]] && kept == [kept[0]];
      assert findings[0] in multiset(kept);
    }
  }

  /** The findings are merged finding c, which carries the requested name, unless another filter drops it. */
  ghost predicate AnsweredBy(opts: Options, findings: seq<Finding>, merged: seq<Finding>, c: nat) {
    && c < |merged| && Want(opts) in NamesOf(merged[c])
    && findings == if Passes(opts, merged[c]) then [merged[c]] else []
  }

  /** Merged finding c stands for record j among others. */
  ghost predicate StandsFor(built: seq<Finding>, classOf: seq<nat>, merged: seq<Finding>, j: nat, c: nat) {
    && j < |built| == |classOf| && c < |merged|
    && built[j] in Select(built, classOf, c) && Represents(merged[c], Select(built, classOf, c))
  }

  /** Asked for one vulnerability, the report has no finding when no record carries the name, and at most one otherwise:
      the one that stands for every record connected to any record with that name. */
  lemma AskForOne(nodes: map<nat, NodeRecord>, records: map<nat, Details>, data: Data, opts: Options,
                  findings: seq<Finding>, ids: seq<nat>, built: seq<Finding>, classOf: seq<nat>, merged: seq<Finding>)
    requires IsReport(nodes, records, data, opts, findings, ids, built, classOf, merged) && Want(opts) != ""
    ensures |findings| <= 1 && |classOf| == |built|
    ensures (forall i :: 0 <= i < |built| ==> Want(opts) !in NamesOf(built[i])) ==> findings == []
    ensures forall i {:trigger classOf[i]} :: 0 <= i < |built| && Want(opts) in NamesOf(built[i]) ==>
              AnsweredBy(opts, findings, merged, classOf[i])
    ensures forall i, j {:trigger StandsFor(built, classOf, merged, j, classOf[i])} ::
              0 <= i < |built| && 0 <= j < |built| && Connected(NamesOfAll(built), i, j) ==>
                StandsFor(built, classOf, merged, j, classOf[i])
  {
    hide BuiltAll, MergesTo, Passes, Sorted, Connected, AnsweredBy, StandsFor, Want, NamesOf, Kept, Select;
    MergedSizes(built, classOf, merged);
    if i :| 0 <= i < |built| && Want(opts) in NamesOf(built[i]) {
      Answered(opts, findings, built, classOf, merged, i);
      AnsweredOnce(opts, findings, merged, classOf[i]);
    } else {
      NotAnswered(opts, findings, built, classOf, merged);
    }
    forall i {:trigger classOf[i]} | 0 <= i < |built| && Want(opts) in NamesOf(built[i])
      ensures AnsweredBy(opts, findings, merged, classOf[i])
    {
      Answered(opts, findings, built, classOf, merged, i);
    }
    forall i, j {:trigger StandsFor(built, classOf, merged, j, classOf[i])} |
      0 <= i < |built| && 0 <= j < |built| && Connected(NamesOfAll(built), i, j)
      ensures StandsFor(built, classOf, merged, j, classOf[i])
    {
      ConnectedSelected(built, classOf, merged, i, j);
    }
  }

  lemma AnsweredOnce(opts: Options, findings: seq<Finding>, merged: seq<Finding>, c: nat)
    requires AnsweredBy(opts, findings, merged, c)
    ensures |findings| <= 1
  {
  }

  lemma Answered(opts: Options, findings: seq<Finding>, built: seq<Finding>, classOf: seq<nat>, merged: seq<Finding>,
                 i: nat)
    requires MergesTo(built, classOf, merged) && multiset(findings) == multiset(Kept(opts, merged))
    requires i < |built| == |classOf| && Want(opts) != "" && Want(opts) in NamesOf(built[i])
    ensures AnsweredBy(opts, findings, merged, classOf[i])
  {
    hide MergesTo, Passes, Want, NamesOf, Kept;
    OneKept(opts, built, classOf, merged, i);
    SameSingle(findings, Kept(opts, merged));
  }

  lemma NotAnswered(opts: Options, findings: seq<Finding>, built: seq<Finding>, classOf: seq<nat>, merged: seq<Finding>)
    requires MergesTo(built, classOf, merged) && multiset(findings) == multiset(Kept(opts, merged)) && Want(opts) != ""
    requires forall i :: 0 <= i < |built| ==> Want(opts) !in NamesOf(built[i])
    ensures findings == []
  {
    hide MergesTo, Passes, Want, NamesOf, Kept;
    MergeKeepsNames(built, classOf, merged);
    forall k | 0 <= k < |merged|
      ensures !Passes(opts, merged[k])
    {
      NotCarried(opts, built, merged, k);
    }
    KeptNone(opts, merged);
    SameSingle(findings, Kept(opts, merged));
  }

  lemma OneKept(opts: Options, built: seq<Finding>, classOf: seq<nat>, merged: seq<Finding>, i: nat)
    requires MergesTo(built, classOf, merged) && i < |built| && Want(opts) != "" && Want(opts) in NamesOf(built[i])
    ensures |classOf| == |built| && classOf[i] < |merged| && Want(opts) in NamesOf(merged[classOf[i]])
    ensures Kept(opts, merged) == if Passes(opts, merged[classOf[i]]) then [merged[classOf[i]]] else []
  {
    MergedSizes(built, classOf, merged);
    hide MergesTo;
    MergedHasNames(built, classOf, merged, i);
    var m := classOf[i];
    assert Want(opts) in NameSet(built[i]) && Want(opts) in NameSet(merged[m]);
    forall k | 0 <= k < |merged| && k != m
      ensures !Passes(opts, merged[k])
    {
      MergedNamesDisjoint(built, classOf, merged, m, k);
      assert Want(opts) !in NameSet(merged[k]);
    }
    KeptOne(opts, merged, m);
  }

  lemma MergedSizes(built: seq<Finding>, classOf: seq<nat>, merged: seq<Finding>)
    requires MergesTo(built, classOf, merged)
    ensures |classOf| == |built|
  {
  }

  lemma NotCarried(opts: Options, built: seq<Finding>, merged: seq<Finding>, k: nat)
    requires AllNames(merged) == AllNames(built) && k < |merged| && Want(opts) != ""
    requires forall i :: 0 <= i < |built| ==> Want(opts) !in NamesOf(built[i])
    ensures !Passes(opts, merged[k])
  {
    assert Want(opts) !in AllNames(built);
    assert merged[k] in merged;
  }

  lemma ConnectedSelected(built: seq<Finding>, classOf: seq<nat>, merged: seq<Finding>, i: nat, j: nat)
    requires MergesTo(built, classOf, merged) && i < |built| && j < |built| && Connected(NamesOfAll(built), i, j)
    ensures |classOf| == |built| && StandsFor(built, classOf, merged, j, classOf[i])
  {
    hide Connected, Represents;
    assert classOf[i] == classOf[j];
    SelectHolds(built, classOf, classOf[i], built[j]);
  }

  // ---------- one name, one product ----------

  lemma {:induction false} KeptIn(opts: Options, s: seq<Finding>, f: Finding)
    requires f in Kept(opts, s)
    ensures f in s && Passes(opts, f)
  {
    hide Passes;
    if f in Kept(opts, s[..|s| - 1]) {
      KeptIn(opts, s[..|s| - 1], f);
    }
  }

  /** In a valid store every finding of the report has each product name once, on one of its two lists. */
  lemma ReportSeparate(s: State, records: map<nat, Details>, data: Data, opts: Options, findings: seq<Finding>,
                       ids: seq<nat>, built: seq<Finding>, classOf: seq<nat>, merged: seq<Finding>)
    requires Valid(s) && IsReport(s.nodes, records, data, opts, findings, ids, built, classOf, merged)
    ensures forall f :: f in findings ==> Separate(f) && Passes(opts, f)
  {
    hide BuiltAll, MergesTo, Separate, UniqueNames, Passes, Sorted, Found, Represents, Indexed, Mirrored;
    IndexedUnique(s);
    forall f | f in findings
      ensures Separate(f) && Passes(opts, f)
    {
      assert f in multiset(findings);
      assert f in Kept(opts, merged);
      KeptIn(opts, merged, f);
      var m :| 0 <= m < |merged| && merged[m] == f;
      BuiltSeparate(s.nodes, records, data, ids, built);
      MergedRepresents(built, classOf, merged, m);
      MergedSeparate(f, Select(built, classOf, m));
    }
  }

  lemma BuiltSeparate(nodes: map<nat, NodeRecord>, records: map<nat, Details>, data: Data, ids: seq<nat>,
                      built: seq<Finding>)
    requires BuiltAll(nodes, records, data, {}, ids, built) && UniqueNames(nodes)
    ensures forall f :: f in built ==> Separate(f)
  {
    hide Found, Separate, UniqueNames;
    forall f | f in built
      ensures Separate(f)
    {
      var i :| 0 <= i < |built| && built[i] == f;
      FindingSeparate(nodes, records, data, ids[i], f);
    }
  }

  lemma MergedRepresents(built: seq<Finding>, classOf: seq<nat>, merged: seq<Finding>, m: nat)
    requires MergesTo(built, classOf, merged) && m < |merged|
    ensures |classOf| == |built| && Represents(merged[m], Select(built, classOf, m))
    ensures forall f :: f in Select(built, classOf, m) ==> f in built
  {
    hide Represents, Connected;
    forall f | f in Select(built, classOf, m)
      ensures f in built
    {
      SelectHolds(built, classOf, m, f);
    }
  }
}
