/** The report's records, and mergeGroup: one finding out of the records of one vulnerability. */
module Findings {
  import opened Results
  import opened Texts
  import opened Sorting

  datatype KEVEntry = KEVEntry(cveID: string, dueDate: string)

  datatype EPSSScore = EPSSScore(epss: real, percentile: real)

  datatype VEXStatement = VEXStatement(status: string, justification: string)

  datatype Product = Product(name: string, path: seq<string>, vex: Option<VEXStatement>)

  datatype Finding = Finding(
    id: string, aliases: seq<string>, summary: string, severity: string, kev: Option<KEVEntry>, epss: Option<EPSSScore>,
    packages: seq<string>, products: seq<Product>, suppressed: seq<Product>)

  function IdRank(id: string): nat {
    if HasPrefix(id, "GHSA-") then 0 else if HasPrefix(id, "CVE-") then 2 else 1
  }

  function SeverityRank(s: string): nat {
    var u := Upper(s);
    if u == "CRITICAL" then 5 else if u == "HIGH" then 4 else if u == "MODERATE" || u == "MEDIUM" then 3
    else if u == "LOW" then 2 else if u == "" then 0 else 1
  }

  /** namesOf: the ID and the aliases, upper-cased. */
  function NamesOf(f: Finding): (names: seq<string>)
    ensures |names| == |f.aliases| + 1 && names[0] == Upper(f.id)
    ensures forall i :: 0 <= i < |f.aliases| ==> names[i + 1] == Upper(f.aliases[i])
  {
    [Upper(f.id)] + seq(|f.aliases|, i requires 0 <= i < |f.aliases| => Upper(f.aliases[i]))
  }

  /** The finding carries a name: that of its ID or of an alias, in capitals. */
  ghost predicate Carries(f: Finding, name: string) {
    InCapitals(name, f.id) || exists a :: a in f.aliases && InCapitals(name, a)
  }

  lemma NamesIff(f: Finding, name: string)
    ensures name in NamesOf(f) <==> Carries(f, name)
  {
    hide InCapitals, Upper;
    var names := NamesOf(f);
    UpperIff(name, f.id);
    forall a
      ensures InCapitals(name, a) <==> name == Upper(a)
    {
      UpperIff(name, a);
    }
    assert name == names[0] ==> name in names;
    if a :| a in f.aliases && InCapitals(name, a) {
      var i :| 0 <= i < |f.aliases| && f.aliases[i] == a;
      assert names[i + 1] == name;
    }
    if name in names {
      var i :| 0 <= i < |names| && names[i] == name;
      assert i > 0 ==> f.aliases[i - 1] in f.aliases;
    }
  }

  function NameSet(f: Finding): set<string> {
    set n | n in NamesOf(f)
  }

  function ProductNames(ps: seq<Product>): set<string> {
    set p | p in ps :: p.name
  }

  // ---------- unions over a group ----------

  ghost function AllNames(group: seq<Finding>): set<string> {
    set f, n | f in group && n in NamesOf(f) :: n
  }

  ghost function AllPackages(group: seq<Finding>): set<string> {
    set f, p | f in group && p in f.packages :: p
  }

  /** The products of a group, record by record. */
  ghost function AllProducts(group: seq<Finding>): seq<Product> {
    if group == [] then [] else AllProducts(group[..|group| - 1]) + group[|group| - 1].products
  }

  ghost function AllSuppressed(group: seq<Finding>): seq<Product> {
    if group == [] then [] else AllSuppressed(group[..|group| - 1]) + group[|group| - 1].suppressed
  }

  lemma AllSnoc(group: seq<Finding>, f: Finding)
    ensures AllNames(group + [f]) == AllNames(group) + NameSet(f)
    ensures AllPackages(group + [f]) == AllPackages(group) + (set p | p in f.packages)
    ensures AllProducts(group + [f]) == AllProducts(group) + f.products
    ensures AllSuppressed(group + [f]) == AllSuppressed(group) + f.suppressed
  {
    assert forall g :: g in group + [f] <==> g in group || g == f;
    assert (group + [f])[..|group|] == group;
  }

  // ---------- sorted lists of keys ----------

  ghost predicate Ascending(s: seq<string>) {
    forall i, j :: 0 <= i < j < |s| ==> Compare(s[i], s[j]) < 0
  }

  predicate TextLess(a: string, b: string) {
    Compare(a, b) < 0
  }

  lemma TextOrders(s: seq<string>)
    ensures Orders(TextLess, s)
  {
    forall a, b
      ensures TextLess(a, b) ==> !TextLess(b, a)
    {
      CompareFlips(a, b);
    }
    forall a, b, c | !TextLess(a, b) && !TextLess(b, c)
      ensures !TextLess(a, c)
    {
      CompareFlips(a, b);
      CompareFlips(b, c);
      CompareFlips(a, c);
      CompareTrans(c, b, a);
    }
  }

  /** sort.Strings of distinct strings. */
  method SortStrings(s: seq<string>) returns (r: seq<string>)
    requires forall i, j :: 0 <= i < j < |s| ==> s[i] != s[j]
    ensures Ascending(r) && |r| == |s| && forall x :: x in r <==> x in s
  {
    r := StableSort(TextLess, s);
    TextOrders(s);
    SortSorted(TextLess, s);
    SortPermutes(TextLess, s);
    forall x
      ensures x in r <==> x in s
    {
      SortKeepsElements(TextLess, s, x);
    }
    assert |r| == |multiset(r)| && |s| == |multiset(s)|;
    DistinctAscends(s, r);
  }

  lemma DistinctAscends(s: seq<string>, r: seq<string>)
    requires multiset(r) == multiset(s) && Sorted(TextLess, r)
    requires forall i, j :: 0 <= i < j < |s| ==> s[i] != s[j]
    ensures Ascending(r)
  {
    forall i, j | 0 <= i < j < |r|
      ensures Compare(r[i], r[j]) < 0
    {
      CompareFlips(r[i], r[j]);
      if r[i] == r[j] {
        TwiceCounts(r, i, j);
        OnceCounts(s, r[i]);
      }
    }
  }

  lemma {:induction false} OnceCounts(s: seq<string>, x: string)
    requires forall i, j :: 0 <= i < j < |s| ==> s[i] != s[j]
    ensures multiset(s)[x] <= 1
  {
    if s != [] {
      var t := s[..|s| - 1];
      OnceCounts(t, x);
      assert s == t + [s[|s| - 1]];
      if s[|s| - 1] == x {
        assert x !in t;
      }
    }
  }

  /** sortedKeys. */
  method SortedKeys(m: set<string>) returns (r: seq<string>)
    ensures Ascending(r) && forall x :: x in r <==> x in m
  {
    var out: seq<string> := [];
    var rest := m;
    while rest != {}
      decreases rest
      invariant rest <= m && (forall x :: x in m <==> x in out || x in rest)
      invariant forall i :: 0 <= i < |out| ==> out[i] !in rest
      invariant forall i, j :: 0 <= i < j < |out| ==> out[i] != out[j]
    {
      var k :| k in rest;
      out, rest := out + [k], rest - {k};
    }
    r := SortStrings(out);
  }

  /** sortedProducts: the products of a map by name, in the order of their names. */
  method SortedProducts(m: map<string, Product>) returns (r: seq<Product>)
    requires forall n :: n in m ==> m[n].name == n
    ensures forall i, j :: 0 <= i < j < |r| ==> Compare(r[i].name, r[j].name) < 0
    ensures forall p :: p in r <==> p.name in m && m[p.name] == p
  {
    var keys := SortedKeys(m.Keys);
    r := seq(|keys|, i requires 0 <= i < |keys| => assert keys[i] in keys; m[keys[i]]);
    forall p
      ensures p in r <==> p.name in m && m[p.name] == p
    {
      if p.name in m && m[p.name] == p {
        var i :| 0 <= i < |keys| && keys[i] == p.name;
        assert r[i] == p;
      }
      if p in r {
        var i :| 0 <= i < |r| && r[i] == p;
        assert keys[i] in keys;
      }
    }
    assert forall i :: 0 <= i < |r| ==> keys[i] in keys && r[i].name == keys[i];
  }

  // ---------- mergeGroup ----------

  predicate RankLess(a: Finding, b: Finding) {
    IdRank(a.id) < IdRank(b.id)
  }

  /** The first record of the group with a KEV entry. */
  ghost predicate FirstWithKEV(group: seq<Finding>, kev: Option<KEVEntry>, i: int) {
    0 <= i < |group| && group[i].kev == kev && forall j {:trigger group[j]} :: 0 <= j < i ==> group[j].kev.None?
  }

  ghost predicate FirstSummary(group: seq<Finding>, summary: string, i: int) {
    0 <= i < |group| && group[i].summary == summary && forall j {:trigger group[j]} ::
      0 <= j < i ==> group[j].summary == ""
  }

  /** The first record of the group with the highest severity rank. */
  ghost predicate FirstSeverity(group: seq<Finding>, severity: string, i: int) {
    && 0 <= i < |group| && group[i].severity == severity
    && (forall j {:trigger group[j]} :: 0 <= j < |group| ==> SeverityRank(group[j].severity) <= SeverityRank(severity))
    && (forall j {:trigger group[j]} :: 0 <= j < i ==> SeverityRank(group[j].severity) < SeverityRank(severity))
  }

  /** The first record of the group with the highest EPSS score. */
  ghost predicate FirstEPSS(group: seq<Finding>, score: EPSSScore, i: int) {
    && 0 <= i < |group| && group[i].epss == Some(score)
    && (forall j {:trigger group[j]} ::
         0 <= j < |group| && group[j].epss.Some? ==> group[j].epss.value.epss <= score.epss)
    && (forall j {:trigger group[j]} :: 0 <= j < i && group[j].epss.Some? ==> group[j].epss.value.epss < score.epss)
  }

  /** The KEV entry, summary, severity and EPSS score of a group, in its order. */
  ghost predicate BestOf(out: Finding, group: seq<Finding>) {
    && (if out.kev.None? then forall i {:trigger group[i]} :: 0 <= i < |group| ==> group[i].kev.None?
         else exists i :: FirstWithKEV(group, out.kev, i))
    && (if out.summary == "" then forall i {:trigger group[i]} :: 0 <= i < |group| ==> group[i].summary == ""
         else exists i :: FirstSummary(group, out.summary, i))
    && (exists i :: FirstSeverity(group, out.severity, i))
    && (if out.epss.None? then forall i {:trigger group[i]} :: 0 <= i < |group| ==> group[i].epss.None?
         else exists i :: FirstEPSS(group, out.epss.value, i))
  }

  /** p is the first of the products with its name. */
  ghost predicate FirstNamed(ps: seq<Product>, p: Product) {
    exists i :: FirstNamedAt(ps, p, i)
  }

  ghost predicate FirstNamedAt(ps: seq<Product>, p: Product, i: int) {
    0 <= i < |ps| && ps[i] == p && forall j {:trigger ps[j]} :: 0 <= j < i ==> ps[j].name != p.name
  }

  /** Products and suppressed products of a group: each name once, with its first product, suppression winning. */
  ghost predicate ProductsOf(out: Finding, group: seq<Finding>) {
    && ProductNames(out.suppressed) == ProductNames(AllSuppressed(group))
    && ProductNames(out.products) == ProductNames(AllProducts(group)) - ProductNames(AllSuppressed(group))
    && (forall p :: p in out.suppressed ==> FirstNamed(AllSuppressed(group), p))
    && (forall p :: p in out.products ==> FirstNamed(AllProducts(group), p))
    && (forall i, j :: 0 <= i < j < |out.products| ==> Compare(out.products[i].name, out.products[j].name) < 0)
    && (forall i, j :: 0 <= i < j < |out.suppressed| ==> Compare(out.suppressed[i].name, out.suppressed[j].name) < 0)
  }

  /** out carries what the records say, taken in the order of their ID ranks; a record alone in its group is kept as it
      is. */
  ghost predicate Represents(out: Finding, records: seq<Finding>) {
    && records != []
    && NameSet(out) == AllNames(records)
    && (if |records| == 1 then out == records[0]
        else
          var group := StableSort(RankLess, records);
          && group != [] && out.id == group[0].id
          && (forall f :: f in records ==> IdRank(out.id) <= IdRank(f.id))
          && BestOf(out, group) && ProductsOf(out, group)
          && Ascending(out.packages) && (set p | p in out.packages) == AllPackages(records)
          && Ascending(out.aliases) && (forall a :: a in out.aliases ==> NoSmall(a) && !Alike(a, out.id)))
  }

  /** The map fills of the loop: the first product of each name stays. */
  method KeepFirst(m: map<string, Product>, ps: seq<Product>, ghost seen: seq<Product>)
      returns (r: map<string, Product>)
    requires FirstByName(m, seen)
    ensures FirstByName(r, seen + ps)
  {
    hide FirstByName;
    r := m;
    assert seen + [] == seen;
    for i := 0 to |ps|
      invariant FirstByName(r, seen + ps[..i])
    {
      var p := ps[i];
      assert seen + ps[..i + 1] == seen + ps[..i] + [p];
      FirstByNameStep(r, seen + ps[..i], p);
      if p.name !in r {
        r := r[p.name := p];
      }
    }
    assert ps[..|ps|] == ps;
  }

  /** m holds the first product of every name in seen. */
  ghost predicate FirstByName(m: map<string, Product>, seen: seq<Product>) {
    && m.Keys == ProductNames(seen)
    && forall n {:trigger m[n]} :: n in m ==> m[n].name == n && FirstNamed(seen, m[n])
  }

  lemma FirstByNameStep(m: map<string, Product>, seen: seq<Product>, p: Product)
    requires FirstByName(m, seen)
    ensures FirstByName(if p.name in m then m else m[p.name := p], seen + [p])
  {
    var all := seen + [p];
    assert ProductNames(all) == ProductNames(seen) + {p.name} by {
      assert forall q :: q in all <==> q in seen || q == p;
    }
    forall n {:trigger m[n]} | n in m
      ensures FirstNamed(all, m[n])
    {
      var i :| FirstNamedAt(seen, m[n], i);
      assert FirstNamedAt(all, m[n], i);
    }
    if p.name !in m {
      forall j {:trigger seen[j]} | 0 <= j < |seen|
        ensures seen[j].name != p.name
      {
        assert seen[j] in seen;
      }
      assert FirstNamedAt(all, p, |seen|);
    }
  }

  /** The loop over a record's names: new ones become aliases. */
  method AddNames(names: set<string>, aliases: seq<string>, list: seq<string>, ghost own: string)
      returns (names1: set<string>, aliases1: seq<string>)
    requires own in names && AliasList(names, aliases, own)
    ensures names1 == names + (set n | n in list) && AliasList(names1, aliases1, own)
  {
    names1, aliases1 := names, aliases;
    for i := 0 to |list|
      invariant names1 == names + (set n | n in list[..i]) && AliasList(names1, aliases1, own)
    {
      if list[i] !in names1 {
        names1 := names1 + {list[i]};
        aliases1 := aliases1 + [list[i]];
      }
      assert list[..i + 1] == list[..i] + [list[i]];
    }
    assert list[..|list|] == list;
  }

  /** The aliases are the names but for the finding's own, each once. */
  ghost predicate AliasList(names: set<string>, aliases: seq<string>, own: string) {
    && (forall n :: n in aliases <==> n in names && n != own)
    && (forall i, j :: 0 <= i < j < |aliases| ==> aliases[i] != aliases[j])
  }

  /** One record's summary, severity, KEV and EPSS taken into the finding. */
  function TakeBest(out: Finding, f: Finding): Finding {
    out.(summary := if out.summary == "" then f.summary else out.summary,
         severity := if SeverityRank(f.severity) > SeverityRank(out.severity) then f.severity else out.severity,
         kev := if out.kev.None? then f.kev else out.kev,
         epss := if f.epss.Some? && (out.epss.None? || f.epss.value.epss > out.epss.value.epss) then f.epss
           else out.epss)
  }

  lemma TakeKEV(out: Finding, seen: seq<Finding>, f: Finding)
    requires BestOf(out, seen) && out.kev.Some?
    ensures exists i :: FirstWithKEV(seen + [f], out.kev, i)
  {
    var i :| FirstWithKEV(seen, out.kev, i);
    assert FirstWithKEV(seen + [f], out.kev, i);
  }

  lemma TakeSummary(out: Finding, seen: seq<Finding>, f: Finding)
    requires BestOf(out, seen) && out.summary != ""
    ensures exists i :: FirstSummary(seen + [f], out.summary, i)
  {
    var i :| FirstSummary(seen, out.summary, i);
    assert FirstSummary(seen + [f], out.summary, i);
  }

  lemma TakeSeverity(out: Finding, seen: seq<Finding>, f: Finding)
    requires BestOf(out, seen)
    ensures exists i :: FirstSeverity(seen + [f], TakeBest(out, f).severity, i)
  {
    hide SeverityRank;
    var i :| FirstSeverity(seen, out.severity, i);
    assert FirstSeverity(seen + [f], TakeBest(out, f).severity,
      if SeverityRank(f.severity) > SeverityRank(out.severity) then |seen| else i);
  }

  lemma TakeEPSS(out: Finding, seen: seq<Finding>, f: Finding)
    requires BestOf(out, seen)
    ensures var t := TakeBest(out, f);
            if t.epss.None? then forall i {:trigger (seen + [f])[i]} :: 0 <= i <= |seen| ==> (seen + [f])[i].epss.None?
            else exists i :: FirstEPSS(seen + [f], t.epss.value, i)
  {
    hide SeverityRank, FirstWithKEV, FirstSeverity, FirstSummary;
    var t := TakeBest(out, f);
    if out.epss.Some? {
      var i :| FirstEPSS(seen, out.epss.value, i);
      assert FirstEPSS(seen + [f], t.epss.value, if t.epss == out.epss then i else |seen|);
    } else if f.epss.Some? {
      assert FirstEPSS(seen + [f], t.epss.value, |seen|);
    }
  }

  lemma TakeBestKeeps(out: Finding, seen: seq<Finding>, f: Finding)
    requires BestOf(out, seen)
    ensures BestOf(TakeBest(out, f), seen + [f])
  {
    hide SeverityRank, FirstEPSS, FirstSeverity;
    TakeSeverity(out, seen, f);
    TakeEPSS(out, seen, f);
    if out.kev.Some? {
      TakeKEV(out, seen, f);
    } else if f.kev.Some? {
      assert FirstWithKEV(seen + [f], f.kev, |seen|);
    }
    if out.summary != "" {
      TakeSummary(out, seen, f);
    } else if f.summary != "" {
      assert FirstSummary(seen + [f], f.summary, |seen|);
    }
  }

  /** The head of the group is taken twice: it starts the finding. */
  lemma StartsBest(f: Finding)
    ensures BestOf(f, [f]) && TakeBest(f, f) == f
  {
    assert f.kev.Some? ==> FirstWithKEV([f], f.kev, 0);
    assert FirstSummary([f], f.summary, 0);
    assert FirstSeverity([f], f.severity, 0);
    if f.epss.Some? {
      assert FirstEPSS([f], f.epss.value, 0);
    }
  }

  lemma NamesAreUpper(group: seq<Finding>, n: string)
    requires n in AllNames(group)
    ensures Upper(n) == n
  {
    var f :| f in group && n in NamesOf(f);
    var i :| 0 <= i < |NamesOf(f)| && NamesOf(f)[i] == n;
    if i == 0 {
      UpperTwice(f.id);
    } else {
      UpperTwice(f.aliases[i - 1]);
    }
  }

  /** Renamed to its sorted aliases, a finding's names are those gathered. */
  lemma GatheredNames(out: Finding, names: set<string>, group: seq<Finding>)
    requires names == AllNames(group) && Upper(out.id) in names
    requires forall n :: n in out.aliases <==> n in names && n != Upper(out.id)
    ensures NameSet(out) == names
  {
    forall n | n in names
      ensures Upper(n) == n
    {
      NamesAreUpper(group, n);
    }
    forall n
      ensures n in NamesOf(out) <==> n in names
    {
      if n in NamesOf(out) {
        var i :| 0 <= i < |NamesOf(out)| && NamesOf(out)[i] == n;
        if i > 0 {
          assert out.aliases[i - 1] in out.aliases;
        }
      }
      if n in names && n != Upper(out.id) {
        var i :| 0 <= i < |out.aliases| && out.aliases[i] == n;
        assert NamesOf(out)[i + 1] == Upper(n);
      }
      assert NamesOf(out)[0] in NamesOf(out);
    }
  }

  /** The loop of mergeGroup, over a group sorted by rank. */
  method Gather(group: seq<Finding>)
      returns (out: Finding, aliases: seq<string>, packages: set<string>, products: map<string, Product>,
               suppressed: map<string, Product>)
    requires group != []
    ensures out.id == group[0].id && BestOf(out, group)
    ensures AliasList({Upper(out.id)} + AllNames(group), aliases, Upper(out.id))
    ensures packages == AllPackages(group) && FirstByName(products, AllProducts(group))
            && FirstByName(suppressed, AllSuppressed(group))
  {
    hide BestOf, FirstByName, AliasList, AllNames, AllPackages, AllProducts, AllSuppressed, TakeBest, SeverityRank,
      Upper;
    out := group[0];
    var own := Upper(out.id);
    var names := {own};
    aliases, packages, products, suppressed := [], {}, map[], map[];
    NothingGathered(own);
    StartsBest(group[0]);
    assert group[..1] == [group[0]];
    for k := 0 to |group|
      invariant out.id == group[0].id && BestOf(out, if k == 0 then [group[0]] else group[..k])
                && (k == 0 ==> out == group[0])
      invariant names == {own} + AllNames(group[..k]) && AliasList(names, aliases, own)
      invariant packages == AllPackages(group[..k])
      invariant FirstByName(products, AllProducts(group[..k])) && FirstByName(suppressed, AllSuppressed(group[..k]))
    {
      var f := group[k];
      assert group[..k + 1] == group[..k] + [f];
      AllSnoc(group[..k], f);
      names, aliases := AddNames(names, aliases, NamesOf(f), own);
      if k > 0 {
        TakeBestKeeps(out, group[..k], f);
      }
      TakeBestKeepsID(out, f);
      out := TakeBest(out, f);
      packages := packages + set p | p in f.packages;
      products := KeepFirst(products, f.products, AllProducts(group[..k]));
      suppressed := KeepFirst(suppressed, f.suppressed, AllSuppressed(group[..k]));
    }
    assert group[..|group|] == group;
  }

  lemma NothingGathered(own: string)
    ensures AliasList({own}, [], own) && AllNames([]) == {} && AllPackages([]) == {}
    ensures FirstByName(map[], AllProducts([])) && FirstByName(map[], AllSuppressed([]))
  {
  }

  lemma TakeBestKeepsID(out: Finding, f: Finding)
    ensures TakeBest(out, f).id == out.id
  {
  }

  /** mergeGroup. */
  method MergeGroup(records: seq<Finding>) returns (out: Finding)
    requires records != []
    ensures Represents(out, records)
  {
    hide BestOf, FirstByName, AliasList, AllNames, AllPackages, AllProducts, AllSuppressed, NameSet, Ascending,
      ProductsOf, StableSort, Compare, Upper, IdRank;
    if |records| == 1 {
      SingleRepresents(records);
      return records[0];
    }
    var group := StableSort(RankLess, records);
    SortedByRank(records);
    var aliases, packages, products, suppressed;
    out, aliases, packages, products, suppressed := Gather(group);
    AliasesDistinct({Upper(out.id)} + AllNames(group), aliases, Upper(out.id));
    var sortedAliases := SortStrings(aliases);
    var sortedPackages := SortedKeys(packages);
    ProductKeys(products, suppressed, AllProducts(group), AllSuppressed(group));
    var shown := SortedProducts(products - suppressed.Keys);
    var hidden := SortedProducts(suppressed);
    ghost var gathered := out;
    out := out.(aliases := sortedAliases, packages := sortedPackages, products := shown, suppressed := hidden);
    SortedNames(group, gathered, out, aliases);
    SameBest(group, gathered, out);
    ShownProducts(group, out, products, suppressed);
    SameRecords(records, group);
    assert (set p | p in out.packages) == packages;
  }

  lemma SingleRepresents(records: seq<Finding>)
    requires |records| == 1
    ensures Represents(records[0], records)
  {
    assert forall f :: f in records <==> f == records[0];
    assert records[0] in records;
  }

  lemma SortedByRank(records: seq<Finding>)
    requires records != []
    ensures var group := StableSort(RankLess, records);
            && |group| == |records| && (forall f :: f in group <==> f in records)
            && forall f :: f in records ==> IdRank(group[0].id) <= IdRank(f.id)
  {
    var group := StableSort(RankLess, records);
    forall f
      ensures f in group <==> f in records
    {
      SortKeepsElements(RankLess, records, f);
    }
    SortKeepsElements(RankLess, records, records[0]);
    SortSorted(RankLess, records);
    forall f | f in records
      ensures IdRank(group[0].id) <= IdRank(f.id)
    {
      assert f in group;
      var i :| 0 <= i < |group| && group[i] == f;
      if i > 0 {
        assert !RankLess(group[i], group[0]);
      }
    }
  }

  lemma AliasesDistinct(names: set<string>, aliases: seq<string>, own: string)
    requires AliasList(names, aliases, own)
    ensures forall i, j :: 0 <= i < j < |aliases| ==> aliases[i] != aliases[j]
    ensures forall n :: n in aliases <==> n in names && n != own
  {
  }

  lemma ProductKeys(products: map<string, Product>, suppressed: map<string, Product>, all: seq<Product>,
                    hidden: seq<Product>)
    requires FirstByName(products, all) && FirstByName(suppressed, hidden)
    ensures forall n :: n in products ==> products[n].name == n
    ensures forall n :: n in suppressed ==> suppressed[n].name == n
  {
  }

  lemma SortedNames(group: seq<Finding>, gathered: Finding, out: Finding, aliases: seq<string>)
    requires group != [] && gathered.id == out.id == group[0].id
    requires AliasList({Upper(gathered.id)} + AllNames(group), aliases, Upper(gathered.id))
    requires forall n :: n in out.aliases <==> n in aliases
    ensures NameSet(out) == AllNames(group)
    ensures forall a :: a in out.aliases ==> NoSmall(a) && !Alike(a, out.id)
  {
    assert NamesOf(group[0])[0] in NamesOf(group[0]) && group[0] in group;
    assert {Upper(out.id)} + AllNames(group) == AllNames(group);
    AliasesDistinct(AllNames(group), aliases, Upper(out.id));
    GatheredNames(out, AllNames(group), group);
    OtherNames(out, group);
  }

  /** Aliases taken from a group's names are in capitals, and none is the finding's own ID. */
  lemma OtherNames(out: Finding, group: seq<Finding>)
    requires forall n :: n in out.aliases ==> n in AllNames(group) && n != Upper(out.id)
    ensures forall a :: a in out.aliases ==> NoSmall(a) && !Alike(a, out.id)
  {
    hide Upper, AllNames, Alike;
    forall a | a in out.aliases
      ensures NoSmall(a) && !Alike(a, out.id)
    {
      NamesAreUpper(group, a);
      UpperIff(a, a);
      UpperAlike(a, out.id);
    }
  }

  lemma SameRecords(records: seq<Finding>, group: seq<Finding>)
    requires forall f :: f in group <==> f in records
    ensures AllNames(records) == AllNames(group) && AllPackages(records) == AllPackages(group)
  {
  }

  lemma SameBest(group: seq<Finding>, gathered: Finding, out: Finding)
    requires BestOf(gathered, group)
    requires out.kev == gathered.kev && out.epss == gathered.epss && out.severity == gathered.severity
             && out.summary == gathered.summary
    ensures BestOf(out, group)
  {
  }

  lemma ShownProducts(group: seq<Finding>, out: Finding, products: map<string, Product>,
                      suppressed: map<string, Product>)
    requires FirstByName(products, AllProducts(group)) && FirstByName(suppressed, AllSuppressed(group))
    requires forall i, j :: 0 <= i < j < |out.products| ==> Compare(out.products[i].name, out.products[j].name) < 0
    requires forall i, j ::
               0 <= i < j < |out.suppressed| ==> Compare(out.suppressed[i].name, out.suppressed[j].name) < 0
    requires var kept := products - suppressed.Keys;
             forall p :: p in out.products <==> p.name in kept && kept[p.name] == p
    requires forall p :: p in out.suppressed <==> p.name in suppressed && suppressed[p.name] == p
    ensures ProductsOf(out, group)
  {
    hide FirstNamed, AllProducts, AllSuppressed;
    forall n
      ensures n in ProductNames(out.products) <==> n in products && n !in suppressed
      ensures n in ProductNames(out.suppressed) <==> n in suppressed
    {
      if n in products && n !in suppressed {
        assert products[n] in out.products;
      }
      if n in suppressed {
        assert suppressed[n] in out.suppressed;
      }
    }
  }

  // ---------- what a merged finding shows ----------

  /** Both are GHSA IDs, both CVE names, or neither is either. */
  predicate SameKind(a: string, b: string) {
    ("GHSA-" <= a <==> "GHSA-" <= b) && ("CVE-" <= a <==> "CVE-" <= b)
  }

  lemma RankKind(a: string, b: string)
    ensures IdRank(a) == IdRank(b) <==> SameKind(a, b)
    ensures "GHSA-" <= a && IdRank(b) <= IdRank(a) ==> "GHSA-" <= b
    ensures "CVE-" <= b && IdRank(b) <= IdRank(a) ==> "CVE-" <= a
  {
    assert "GHSA-" <= a ==> a[0] == 'G';
    assert "CVE-" <= a ==> a[0] == 'C';
    assert "GHSA-" <= b ==> b[0] == 'G';
    assert "CVE-" <= b ==> b[0] == 'C';
  }

  /** A merged finding has the ID of the first record of its kind: a GHSA ID if there is one, and a CVE name only when
      all records have CVE names. */
  lemma MergedID(out: Finding, records: seq<Finding>) returns (k: nat)
    requires Represents(out, records)
    ensures k < |records| && out.id == records[k].id
    ensures forall j :: 0 <= j < k ==> !SameKind(records[j].id, out.id)
    ensures forall f ::
              f in records ==> ("GHSA-" <= f.id ==> "GHSA-" <= out.id) && ("CVE-" <= out.id ==> "CVE-" <= f.id)
  {
    hide BestOf, ProductsOf, Ascending, AllNames, AllPackages, NameSet, StableSort, IdRank, SameKind;
    forall f | f in records
      ensures IdRank(out.id) <= IdRank(f.id)
    {
      assert |records| == 1 ==> f == records[0];
    }
    forall f | f in records
      ensures ("GHSA-" <= f.id ==> "GHSA-" <= out.id) && ("CVE-" <= out.id ==> "CVE-" <= f.id)
    {
      RankKind(f.id, out.id);
    }
    if |records| == 1 {
      k := 0;
    } else {
      k := FirstOfRank(records, out.id);
    }
  }

  lemma FirstOfRank(records: seq<Finding>, id: string) returns (k: nat)
    requires records != [] && StableSort(RankLess, records) != [] && id == StableSort(RankLess, records)[0].id
    ensures k < |records| && id == records[k].id
    ensures forall j :: 0 <= j < k ==> !SameKind(records[j].id, id)
  {
    hide StableSort, IdRank, SameKind;
    var group := StableSort(RankLess, records);
    var p := (f: Finding) => IdRank(f.id) == IdRank(id);
    SortStable(RankLess, p, records);
    FilterFirst(p, group);
    k := FilterHead(p, records);
    forall j | 0 <= j < k
      ensures !SameKind(records[j].id, id)
    {
      RankKind(records[j].id, id);
    }
  }

  /** A merged finding carries the names of its records and no others. */
  lemma MergedCarries(out: Finding, records: seq<Finding>, name: string)
    requires Represents(out, records)
    ensures Carries(out, name) <==> exists f :: f in records && Carries(f, name)
  {
    hide BestOf, ProductsOf, Ascending, StableSort, IdRank, Carries, NamesOf;
    assert name in NameSet(out) <==> name in AllNames(records);
    NamesIff(out, name);
    forall f
      ensures name in NamesOf(f) <==> Carries(f, name)
    {
      NamesIff(f, name);
    }
  }

  lemma CapitalsAlike(s: string, u: string)
    requires NoSmall(u)
    ensures Upper(s) == u <==> Alike(s, u)
  {
    UpperAlike(s, u);
    UpperIff(u, u);
  }

  /** s is a label at least as grave as t, and is there when t is. */
  ghost predicate AtLeast(s: string, t: string) {
    && (Alike(t, "CRITICAL") ==> Alike(s, "CRITICAL"))
    && (Alike(t, "HIGH") ==> Alike(s, "CRITICAL") || Alike(s, "HIGH"))
    && (Alike(t, "MODERATE") || Alike(t, "MEDIUM") ==>
         Alike(s, "CRITICAL") || Alike(s, "HIGH") || Alike(s, "MODERATE") || Alike(s, "MEDIUM"))
    && (Alike(t, "LOW") ==>
         Alike(s, "CRITICAL") || Alike(s, "HIGH") || Alike(s, "MODERATE") || Alike(s, "MEDIUM") || Alike(s, "LOW"))
    && (t != "" ==> s != "")
  }

  lemma RankAtLeast(s: string, t: string)
    requires SeverityRank(t) <= SeverityRank(s)
    ensures AtLeast(s, t)
  {
    hide Alike, Upper;
    forall x | x == s || x == t
      ensures Upper(x) == "CRITICAL" <==> Alike(x, "CRITICAL")
      ensures Upper(x) == "HIGH" <==> Alike(x, "HIGH")
      ensures Upper(x) == "MODERATE" <==> Alike(x, "MODERATE")
      ensures Upper(x) == "MEDIUM" <==> Alike(x, "MEDIUM")
      ensures Upper(x) == "LOW" <==> Alike(x, "LOW")
      ensures Upper(x) == "" <==> x == ""
    {
      CapitalsAlike(x, "CRITICAL");
      CapitalsAlike(x, "HIGH");
      CapitalsAlike(x, "MODERATE");
      CapitalsAlike(x, "MEDIUM");
      CapitalsAlike(x, "LOW");
      assert |Upper(x)| == |x|;
    }
    LabelsDiffer();
  }

  lemma LabelsDiffer()
    ensures |"CRITICAL"| == 8 && |"HIGH"| == 4 && |"MODERATE"| == 8 && |"MEDIUM"| == 6 && |"LOW"| == 3
            && "CRITICAL"[0] != "MODERATE"[0]
  {
  }

  /** Its severity is that of a record, and no record's is graver. */
  lemma MergedSeverity(out: Finding, records: seq<Finding>)
    requires Represents(out, records)
    ensures exists f :: f in records && f.severity == out.severity
    ensures forall f :: f in records ==> AtLeast(out.severity, f.severity)
  {
    hide ProductsOf, Ascending, AllNames, AllPackages, NameSet, StableSort, IdRank, SeverityRank, AtLeast;
    if |records| == 1 {
      assert out in records && forall f :: f in records ==> f == out;
    } else {
      SortedByRank(records);
      var group := StableSort(RankLess, records);
      var i :| FirstSeverity(group, out.severity, i);
      assert group[i] in records;
      forall f | f in records
        ensures SeverityRank(f.severity) <= SeverityRank(out.severity)
      {
        var j :| 0 <= j < |group| && group[j] == f;
      }
    }
    forall f | f in records
      ensures AtLeast(out.severity, f.severity)
    {
      RankAtLeast(out.severity, f.severity);
    }
  }

  /** It is known to be exploited when some record is, has the highest score of any record, and a summary when any
      record has one; each of these is that of a record. */
  lemma MergedScores(out: Finding, records: seq<Finding>)
    requires Represents(out, records)
    ensures out.kev.Some? <==> exists f :: f in records && f.kev.Some?
    ensures exists f :: f in records && f.kev == out.kev
    ensures forall f :: f in records && f.epss.Some? ==> out.epss.Some? && f.epss.value.epss <= out.epss.value.epss
    ensures exists f :: f in records && f.epss == out.epss
    ensures out.summary != "" <==> exists f :: f in records && f.summary != ""
    ensures exists f :: f in records && f.summary == out.summary
  {
    hide ProductsOf, Ascending, AllNames, AllPackages, NameSet, StableSort, IdRank, FirstSeverity;
    if |records| == 1 {
      assert out in records && forall f :: f in records ==> f == out;
    } else {
      SortedByRank(records);
      BestScores(out, StableSort(RankLess, records));
    }
  }

  lemma BestScores(out: Finding, group: seq<Finding>)
    requires BestOf(out, group) && group != []
    ensures out.kev.Some? <==> exists f :: f in group && f.kev.Some?
    ensures exists f :: f in group && f.kev == out.kev
    ensures forall f :: f in group && f.epss.Some? ==> out.epss.Some? && f.epss.value.epss <= out.epss.value.epss
    ensures exists f :: f in group && f.epss == out.epss
    ensures out.summary != "" <==> exists f :: f in group && f.summary != ""
    ensures exists f :: f in group && f.summary == out.summary
  {
    hide FirstSeverity;
    forall f | f in group
      ensures exists i :: 0 <= i < |group| && group[i] == f
    {
    }
    assert group[0] in group;
    if out.kev.Some? {
      var i :| FirstWithKEV(group, out.kev, i);
      assert group[i] in group;
    }
    if out.epss.Some? {
      var i :| FirstEPSS(group, out.epss.value, i);
      assert group[i] in group;
    }
    if out.summary != "" {
      var i :| FirstSummary(group, out.summary, i);
      assert group[i] in group;
    }
  }

  lemma {:induction false} AllProductsHave(group: seq<Finding>, p: Product)
    ensures p in AllProducts(group) <==> exists f :: f in group && p in f.products
    ensures p in AllSuppressed(group) <==> exists f :: f in group && p in f.suppressed
  {
    if group != [] {
      var n := |group| - 1;
      AllProductsHave(group[..n], p);
      assert forall f :: f in group <==> f in group[..n] || f == group[n];
    }
  }

  ghost predicate Suppresses(records: seq<Finding>, name: string) {
    exists f, p :: f in records && p in f.suppressed && p.name == name
  }

  ghost predicate Shows(records: seq<Finding>, name: string) {
    exists f, p :: f in records && p in f.products && p.name == name
  }

  /** A product is suppressed when some record suppresses it, and shown when some record shows it and none suppresses
      it. */
  lemma MergedProducts(out: Finding, records: seq<Finding>, name: string)
    requires Represents(out, records) && (|records| == 1 ==> Separate(records[0]))
    ensures (exists p :: p in out.suppressed && p.name == name) <==> Suppresses(records, name)
    ensures (exists p :: p in out.products && p.name == name) <==> Shows(records, name) && !Suppresses(records, name)
    ensures forall p :: p in out.products ==> exists f :: f in records && p in f.products
    ensures forall p :: p in out.suppressed ==> exists f :: f in records && p in f.suppressed
  {
    hide BestOf, Ascending, AllNames, AllPackages, NameSet, StableSort, IdRank, AllProducts, AllSuppressed, FirstNamed;
    if |records| == 1 {
      assert out in records && forall f :: f in records ==> f == out;
      SeparateNames(out, name);
    } else {
      SortedByRank(records);
      var group := StableSort(RankLess, records);
      forall p
        ensures p in AllProducts(group) <==> exists f :: f in records && p in f.products
        ensures p in AllSuppressed(group) <==> exists f :: f in records && p in f.suppressed
      {
        AllProductsHave(group, p);
      }
      forall p
        ensures FirstNamed(AllProducts(group), p) ==> p in AllProducts(group)
        ensures FirstNamed(AllSuppressed(group), p) ==> p in AllSuppressed(group)
      {
        FirstNamedIn(AllProducts(group), p);
        FirstNamedIn(AllSuppressed(group), p);
      }
      NamesListed(AllProducts(group), name);
      NamesListed(AllSuppressed(group), name);
      NamesListed(out.products, name);
      NamesListed(out.suppressed, name);
    }
  }

  lemma FirstNamedIn(ps: seq<Product>, p: Product)
    ensures FirstNamed(ps, p) ==> p in ps
  {
  }

  lemma NamesListed(ps: seq<Product>, name: string)
    ensures name in ProductNames(ps) <==> exists p :: p in ps && p.name == name
  {
  }

  lemma SeparateNames(f: Finding, name: string)
    requires Separate(f)
    ensures !((exists p :: p in f.products && p.name == name) && exists p :: p in f.suppressed && p.name == name)
  {
    NamesListed(f.products, name);
    NamesListed(f.suppressed, name);
  }

  // ---------- one name, one product ----------

  /** No product name appears twice, be it shown or suppressed. */
  ghost predicate Separate(f: Finding) {
    && (forall i, j :: 0 <= i < j < |f.products| ==> f.products[i].name != f.products[j].name)
    && (forall i, j :: 0 <= i < j < |f.suppressed| ==> f.suppressed[i].name != f.suppressed[j].name)
    && ProductNames(f.products) !! ProductNames(f.suppressed)
  }

  /** A merged finding keeps product names apart, as long as a record alone in its group does. */
  lemma MergedSeparate(out: Finding, records: seq<Finding>)
    requires Represents(out, records) && forall f :: f in records ==> Separate(f)
    ensures Separate(out)
  {
    hide BestOf, Ascending, StableSort;
    assert records[0] in records;
  }
}
