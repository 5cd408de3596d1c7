/**
 Vulnerability ingestion: the library index, and the links from affected library nodes to a vulnerability node.

 `parse` stands for PURLToPackage: the package information of a node name, or None when it does not parse.
 */
module Vulns {
  import opened Results
  import opened Texts
  import opened Ranges
  import opened Store
  import opened StorageOps
  import opened Edges

  datatype PackageInfo = PackageInfo(name: string, version: string, ecosystem: string)

  datatype Affected = Affected(pkgName: string, ecosystem: string, versions: seq<string>, ranges: seq<Range>)

  datatype Vulnerability = Vulnerability(id: string, affected: seq<Affected>)

  datatype IndexedPackage = IndexedPackage(id: nat, info: PackageInfo)

  type Parser = string -> Option<PackageInfo>

  type LibraryIndex = map<string, seq<IndexedPackage>>

  // ---------- affected packages ----------

  ghost predicate InRange(semver: Semver, version: string, r: Range) {
    Included(CompareBy(semver, r.typ), version, r.events)
  }

  ghost predicate Hits(semver: Semver, a: Affected, info: PackageInfo) {
    && a.pkgName == info.name && a.ecosystem == info.ecosystem
    && (info.version in a.versions || exists r :: r in a.ranges && InRange(semver, info.version, r))
  }

  ghost predicate Affects(semver: Semver, vuln: Vulnerability, info: PackageInfo) {
    exists a :: a in vuln.affected && Hits(semver, a, info)
  }

  lemma AnyRange(semver: Semver, version: string, ranges: seq<Range>)
    ensures (exists i :: 0 <= i < |ranges| && Included(CompareBy(semver, ranges[i].typ), version, ranges[i].events))
            <==> exists r :: r in ranges && InRange(semver, version, r)
  {
    hide Included, CompareBy;
    if r :| r in ranges && InRange(semver, version, r) {
      var i :| 0 <= i < |ranges| && ranges[i] == r;
      assert Included(CompareBy(semver, ranges[i].typ), version, ranges[i].events);
    }
    if i :| 0 <= i < |ranges| && Included(CompareBy(semver, ranges[i].typ), version, ranges[i].events) {
      assert ranges[i] in ranges && InRange(semver, version, ranges[i]);
    }
  }

  /** isPackageAffected. */
  method IsPackageAffected(semver: Semver, vuln: Vulnerability, info: PackageInfo) returns (b: bool)
    ensures b <==> Affects(semver, vuln, info)
  {
    hide Included, CompareBy;
    for i := 0 to |vuln.affected|
      invariant forall k :: 0 <= k < i ==> !Hits(semver, vuln.affected[k], info)
    {
      var affected := vuln.affected[i];
      if affected.pkgName != info.name || affected.ecosystem != info.ecosystem {
        continue;
      }
      if info.version in affected.versions {
        assert Hits(semver, affected, info);
        return true;
      }
      var inRanges := IsVersionInRanges(semver, info.version, affected.ranges);
      AnyRange(semver, info.version, affected.ranges);
      if inRanges {
        assert Hits(semver, affected, info);
        return true;
      }
    }
    return false;
  }

  // ---------- the library index ----------

  predicate IsLibrary(nodes: map<nat, NodeRecord>, parse: Parser, id: nat) {
    && id in nodes && nodes[id].typ == LIBRARY_TYPE && HasPrefix(nodes[id].name, "pkg:")
    && parse(nodes[id].name).Some?
  }

  function InfoOf(nodes: map<nat, NodeRecord>, parse: Parser, id: nat): PackageInfo
    requires IsLibrary(nodes, parse, id)
  {
    parse(nodes[id].name).value
  }

  function Bucket(byName: LibraryIndex, name: string): seq<IndexedPackage> {
    if name in byName then byName[name] else []
  }

  /** Every entry is a library node under its package name, with its package information. */
  ghost predicate Sound(nodes: map<nat, NodeRecord>, parse: Parser, byName: LibraryIndex) {
    && (forall name, e {:trigger e in Bucket(byName, name)} :: e in Bucket(byName, name) ==>
          IsLibrary(nodes, parse, e.id) && e.info == InfoOf(nodes, parse, e.id) && e.info.name == name)
  }

  ghost predicate Listed(nodes: map<nat, NodeRecord>, parse: Parser, byName: LibraryIndex, id: nat)
    requires IsLibrary(nodes, parse, id)
  {
    IndexedPackage(id, InfoOf(nodes, parse, id)) in Bucket(byName, InfoOf(nodes, parse, id).name)
  }

  /** Sound, and every library node is there. */
  ghost predicate Covers(nodes: map<nat, NodeRecord>, parse: Parser, byName: LibraryIndex) {
    Sound(nodes, parse, byName) && forall id {:trigger IsLibrary(nodes, parse, id)} ::
      IsLibrary(nodes, parse, id) ==> Listed(nodes, parse, byName, id)
  }

  ghost predicate CoversBut(nodes: map<nat, NodeRecord>, parse: Parser, byName: LibraryIndex, rest: set<nat>) {
    Sound(nodes, parse, byName) && forall id {:trigger IsLibrary(nodes, parse, id)} ::
      IsLibrary(nodes, parse, id) && id !in rest ==> Listed(nodes, parse, byName, id)
  }

  lemma IndexStep(nodes: map<nat, NodeRecord>, parse: Parser, byName: LibraryIndex, rest: set<nat>, id: nat)
    requires CoversBut(nodes, parse, byName, rest)
    ensures if IsLibrary(nodes, parse, id) then
              var info := InfoOf(nodes, parse, id);
              CoversBut(nodes, parse, byName[info.name := Bucket(byName, info.name) + [IndexedPackage(id, info)]],
                rest - {id})
            else CoversBut(nodes, parse, byName, rest - {id})
  {
    hide IsLibrary;
    if IsLibrary(nodes, parse, id) {
      var info := InfoOf(nodes, parse, id);
      var e0 := IndexedPackage(id, info);
      var byName1 := byName[info.name := Bucket(byName, info.name) + [e0]];
      forall name
        ensures forall e :: e in Bucket(byName1, name) <==> e in Bucket(byName, name) || (name == info.name && e == e0)
      {
        if name == info.name {
          assert Bucket(byName1, name) == Bucket(byName, name) + [e0];
        }
      }
      assert Sound(nodes, parse, byName1);
    }
  }

  /** BuildLibraryIndex. The nodes of a Go map come in any order. */
  method BuildLibraryIndex(nodes: map<nat, NodeRecord>, parse: Parser) returns (byName: LibraryIndex)
    ensures Covers(nodes, parse, byName)
  {
    hide Sound, Listed;
    byName := map[];
    EmptyIndex(nodes, parse);
    var rest := nodes.Keys;
    while rest != {}
      decreases rest
      invariant rest <= nodes.Keys && CoversBut(nodes, parse, byName, rest)
    {
      var id :| id in rest;
      var node := nodes[id];
      IndexStep(nodes, parse, byName, rest, id);
      rest := rest - {id};
      if node.typ != LIBRARY_TYPE || !HasPrefix(node.name, "pkg:") {
        continue;
      }
      var info := parse(node.name);
      if info.None? {
        continue;
      }
      byName := byName[info.value.name := Bucket(byName, info.value.name) + [IndexedPackage(id, info.value)]];
    }
  }

  lemma EmptyIndex(nodes: map<nat, NodeRecord>, parse: Parser)
    ensures CoversBut(nodes, parse, map[], nodes.Keys)
  {
  }

  // ---------- which nodes an index selects ----------

  /** The nodes that the index leads to and the vulnerability affects. */
  ghost function Selected(semver: Semver, vuln: Vulnerability, byName: LibraryIndex): set<nat> {
    set name, e | name in byName && e in byName[name] && Affects(semver, vuln, e.info) :: e.id
  }

  /** The library nodes that the vulnerability affects, found by looking at every node. */
  ghost function FullScan(semver: Semver, nodes: map<nat, NodeRecord>, parse: Parser, vuln: Vulnerability): set<nat> {
    set id | id in nodes && IsLibrary(nodes, parse, id) && Affects(semver, vuln, InfoOf(nodes, parse, id))
  }

  /** An index of all library nodes selects what a full scan would; a sound one never more. */
  lemma SelectedIsFullScan(semver: Semver, nodes: map<nat, NodeRecord>, parse: Parser, vuln: Vulnerability,
                           byName: LibraryIndex)
    requires Sound(nodes, parse, byName)
    ensures Selected(semver, vuln, byName) <= FullScan(semver, nodes, parse, vuln)
    ensures Covers(nodes, parse, byName) ==> Selected(semver, vuln, byName) == FullScan(semver, nodes, parse, vuln)
  {
    hide Affects, IsLibrary, InfoOf;
    forall id | id in Selected(semver, vuln, byName)
      ensures id in FullScan(semver, nodes, parse, vuln)
    {
      var name, e :| name in byName && e in byName[name] && Affects(semver, vuln, e.info) && e.id == id;
      assert e in Bucket(byName, name);
      LibraryStored(nodes, parse, id);
    }
    if Covers(nodes, parse, byName) {
      forall id | id in FullScan(semver, nodes, parse, vuln)
        ensures id in Selected(semver, vuln, byName)
      {
        var info := InfoOf(nodes, parse, id);
        assert Listed(nodes, parse, byName, id);
        assert IndexedPackage(id, info) in byName[info.name];
      }
    }
  }

  lemma LibraryStored(nodes: map<nat, NodeRecord>, parse: Parser, id: nat)
    requires IsLibrary(nodes, parse, id)
    ensures id in nodes
  {
  }

  // ---------- linking ----------

  /** The node that the record of this name has, or gets. */
  function NodeFor(s: State, name: string): nat {
    if name in s.nameToID then s.nameToID[name] else s.idCounter + 1
  }

  ghost function EdgesTo(froms: set<nat>, to: nat): set<Edge> {
    set x | x in froms :: (x, to)
  }

  /** The store once the nodes in froms depend on the vulnerability; the vulnerability's node comes with the first. */
  ghost function LinkedTo(s: State, name: string, froms: set<nat>): State {
    if froms == {} then s else WithEdges(AddNodeStep(s, VULNERABILITY_TYPE, name), EdgesTo(froms, NodeFor(s, name)))
  }

  lemma AddedNode(s: State, typ: string, name: string)
    requires Valid(s)
    ensures var t := AddNodeStep(s, typ, name);
            Valid(t) && name in t.nameToID && t.nameToID[name] == NodeFor(s, name) && NodeFor(s, name) in t.nodes
              && s.nodes.Keys <= t.nodes.Keys
    ensures NodeFor(s, name) in s.nodes ==> AddNodeStep(s, typ, name) == s
  {
    AddNodeKeepsValid(s, typ, name);
  }

  lemma AddedAgain(s: State, edges: set<Edge>, typ: string, name: string)
    requires name in s.nameToID
    ensures AddNodeStep(WithEdges(s, edges), typ, name) == WithEdges(s, edges)
  {
    hide LinkedRecord;
  }

  lemma OneMoreFrom(froms: set<nat>, x: nat, to: nat)
    ensures EdgesTo(froms + {x}, to) == EdgesTo(froms, to) + {(x, to)}
  {
  }

  /** Adding the vulnerability's node to a store that may have it already. */
  lemma LinkedReady(s: State, name: string, froms: set<nat>)
    requires Valid(s)
    ensures var t := AddNodeStep(s, VULNERABILITY_TYPE, name);
            AddNodeStep(LinkedTo(s, name, froms), VULNERABILITY_TYPE, name)
              == WithEdges(t, EdgesTo(froms, NodeFor(s, name)))
  {
    hide WithEdges, AddNodeStep, Valid;
    var t := AddNodeStep(s, VULNERABILITY_TYPE, name);
    AddedNode(s, VULNERABILITY_TYPE, name);
    if froms == {} {
      assert EdgesTo({}, NodeFor(s, name)) == {};
      WithoutEdges(t);
    } else {
      AddedAgain(t, EdgesTo(froms, NodeFor(s, name)), VULNERABILITY_TYPE, name);
    }
  }

  lemma NamedOnce(s: State, id: nat, name: string)
    requires Valid(s) && id in s.nodes && s.nodes[id].name == name
    ensures name in s.nameToID && s.nameToID[name] == id
  {
  }

  lemma LinkedNames(s: State, edges: set<Edge>)
    ensures WithEdges(s, edges).nameToID == s.nameToID && WithEdges(s, edges).nodes.Keys == s.nodes.Keys
  {
    hide LinkedRecord;
  }

  /** One round of the candidate loop: the vulnerability's node is added or read again, and the candidate linked to
      it. */
  method LinkCandidate(storage: Storage, name: string, candidate: nat, ghost s: State, ghost froms: set<nat>)
      returns (r: Result<()>)
    requires Valid(storage.View()) && Valid(s) && storage.View() == LinkedTo(s, name, froms)
    requires candidate in s.nodes
    modifies storage
    ensures Valid(storage.View())
    ensures r == if candidate == NodeFor(s, name) then Err(SelfDependency) else Ok(())
    ensures storage.View() == LinkedTo(s, name, if r.Ok? then froms + {candidate} else froms)
  {
    hide Valid, WithEdges, AddNodeStep, SetDependencyStep, Indexed, EdgesTo;
    ghost var to := NodeFor(s, name);
    ghost var t := AddNodeStep(s, VULNERABILITY_TYPE, name);
    AddedNode(s, VULNERABILITY_TYPE, name);
    LinkedReady(s, name, froms);
    LinkedNames(t, EdgesTo(froms, to));
    var vulnNode := AddNode(storage, VULNERABILITY_TYPE, name);
    NamedOnce(storage.View(), vulnNode.value.id, name);
    assert vulnNode.value.id == to;
    var node := storage.GetNode(candidate);
    if node.Err? {
      return Err(NodeNotFound);
    }
    ValidIndexed(t);
    ghost var before := storage.View();
    FreshCopyID(before, candidate);
    if candidate != to {
      SetDependencyLinks(t, EdgesTo(froms, to), candidate, to);
      OneMoreFrom(froms, candidate, to);
      SetDependencyKeepsValid(before, candidate, to);
    } else {
      LinkedSame(s, name, froms);
    }
    r := SetDependency(node.value, storage, vulnNode.value);
    if r.Ok? {
      SavedPair(before, candidate, to);
    }
  }

  lemma FreshCopyID(s: State, id: nat)
    requires Valid(s) && id in s.nodes
    ensures s.nodes[id].id == id
  {
  }

  lemma LinkedSame(s: State, name: string, froms: set<nat>)
    requires Valid(s) && NodeFor(s, name) in s.nodes
    ensures LinkedTo(s, name, froms) == WithEdges(s, EdgesTo(froms, NodeFor(s, name)))
  {
    AddedNode(s, VULNERABILITY_TYPE, name);
    WithoutEdges(s);
    assert EdgesTo({}, NodeFor(s, name)) == {};
  }

  lemma SavedPair(s: State, from: nat, to: nat)
    requires from in s.nodes && to in s.nodes && from != to
    ensures SetDependencyStep(s, from, to) ==
            SaveNodeStep(SaveNodeStep(s, s.nodes[from].(children := s.nodes[from].children + {to})),
              s.nodes[to].(parents := s.nodes[to].parents + {from}))
  {
  }

  /** The candidates of the first i affected entries, and the first j of the next, are dealt with. */
  ghost predicate Seen(semver: Semver, vuln: Vulnerability, byName: LibraryIndex, i: nat, j: nat, seen: set<nat>) {
    && i <= |vuln.affected|
    && seen <= Selected(semver, vuln, byName)
    && (forall k, e {:trigger e in Bucket(byName, vuln.affected[k].pkgName)} ::
         0 <= k < i && e in Bucket(byName, vuln.affected[k].pkgName) && Affects(semver, vuln, e.info) ==> e.id in seen)
    && (i < |vuln.affected| ==> forall k :: 0 <= k < j && k < |Bucket(byName, vuln.affected[i].pkgName)| ==>
          var e := Bucket(byName, vuln.affected[i].pkgName)[k]; Affects(semver, vuln, e.info) ==> e.id in seen)
  }

  lemma SeenStep(semver: Semver, vuln: Vulnerability, byName: LibraryIndex, i: nat, j: nat, seen: set<nat>)
    requires Seen(semver, vuln, byName, i, j, seen) && i < |vuln.affected|
             && j < |Bucket(byName, vuln.affected[i].pkgName)|
    ensures var e := Bucket(byName, vuln.affected[i].pkgName)[j];
            && (Affects(semver, vuln, e.info) ==>
                 Seen(semver, vuln, byName, i, j + 1, seen + {e.id}) && e.id in Selected(semver, vuln, byName))
            && (!Affects(semver, vuln, e.info) || e.id in seen ==> Seen(semver, vuln, byName, i, j + 1, seen))
  {
    hide Affects;
    var name := vuln.affected[i].pkgName;
    var e := Bucket(byName, name)[j];
    assert name in byName && e in byName[name];
  }

  lemma SeenNext(semver: Semver, vuln: Vulnerability, byName: LibraryIndex, i: nat, seen: set<nat>)
    requires i < |vuln.affected| && Seen(semver, vuln, byName, i, |Bucket(byName, vuln.affected[i].pkgName)|, seen)
    ensures Seen(semver, vuln, byName, i + 1, 0, seen)
  {
    hide Affects, Selected;
  }

  lemma SeenAll(semver: Semver, nodes: map<nat, NodeRecord>, parse: Parser, vuln: Vulnerability, byName: LibraryIndex,
                seen: set<nat>)
    requires Sound(nodes, parse, byName) && Seen(semver, vuln, byName, |vuln.affected|, 0, seen)
    ensures seen == Selected(semver, vuln, byName)
  {
    hide Hits, IsLibrary, InfoOf;
    forall id | id in Selected(semver, vuln, byName)
      ensures id in seen
    {
      var name, e :| name in byName && e in byName[name] && Affects(semver, vuln, e.info) && e.id == id;
      assert e in Bucket(byName, name);
      var a :| a in vuln.affected && Hits(semver, a, e.info);
      HitsNamed(semver, a, e.info);
      var k :| 0 <= k < |vuln.affected| && vuln.affected[k] == a;
      assert e in Bucket(byName, vuln.affected[k].pkgName);
    }
  }

  lemma HitsNamed(semver: Semver, a: Affected, info: PackageInfo)
    requires Hits(semver, a, info)
    ensures a.pkgName == info.name
  {
  }

  lemma EntryStored(nodes: map<nat, NodeRecord>, parse: Parser, byName: LibraryIndex, name: string, j: nat)
    requires Sound(nodes, parse, byName) && j < |Bucket(byName, name)|
    ensures Bucket(byName, name)[j].id in nodes
  {
    assert Bucket(byName, name)[j] in Bucket(byName, name);
  }

  /** linked lists the nodes of froms, each once. */
  ghost predicate ListsOnce(linked: seq<nat>, froms: set<nat>) {
    && (forall id :: id in linked <==> id in froms)
    && (forall i, j :: 0 <= i < j < |linked| ==> linked[i] != linked[j])
  }

  lemma ListOneMore(linked: seq<nat>, froms: set<nat>, id: nat)
    requires ListsOnce(linked, froms) && id !in froms
    ensures ListsOnce(linked + [id], froms + {id})
  {
  }

  /** VulnerabilitiesWithIndex: each selected node is linked once to the vulnerability's node.
      `linked` lists the calls of SetDependency that were made and succeeded. */
  method VulnerabilitiesWithIndex(storage: Storage, semver: Semver, vuln: Vulnerability, byName: LibraryIndex,
                                  ghost parse: Parser)
      returns (r: Result<()>, ghost linked: seq<nat>)
    requires Valid(storage.View()) && Sound(storage.nodes, parse, byName)
    modifies storage
    ensures Valid(storage.View())
    ensures exists froms :: ListsOnce(linked, froms) && storage.View() == LinkedTo(old(storage.View()), vuln.id, froms)
                         && froms <= Selected(semver, vuln, byName)
                         && (r.Ok? ==> froms == Selected(semver, vuln, byName))
    ensures r == if NodeFor(old(storage.View()), vuln.id) in Selected(semver, vuln, byName) then Err(SelfDependency)
            else Ok(())
  {
    hide Valid, Sound, Seen, Affects, Selected, LinkedTo, ListsOnce;
    ghost var s := storage.View();
    var seen: set<nat> := {};
    linked := [];
    Nothing(semver, vuln, byName, s);
    for i := 0 to |vuln.affected|
      invariant Valid(storage.View()) && storage.View() == LinkedTo(s, vuln.id, seen)
      invariant Seen(semver, vuln, byName, i, 0, seen) && ListsOnce(linked, seen) && NodeFor(s, vuln.id) !in seen
    {
      var candidates := Bucket(byName, vuln.affected[i].pkgName);
      for j := 0 to |candidates|
        invariant Valid(storage.View()) && storage.View() == LinkedTo(s, vuln.id, seen)
        invariant Seen(semver, vuln, byName, i, j, seen) && ListsOnce(linked, seen) && NodeFor(s, vuln.id) !in seen
      {
        var candidate := candidates[j];
        SeenStep(semver, vuln, byName, i, j, seen);
        if candidate.id in seen {
          continue;
        }
        var affected := IsPackageAffected(semver, vuln, candidate.info);
        if !affected {
          continue;
        }
        EntryStored(s.nodes, parse, byName, vuln.affected[i].pkgName, j);
        r := LinkCandidate(storage, vuln.id, candidate.id, s, seen);
        if r.Err? {
          SeenSelected(semver, vuln, byName, i, j, seen);
          return;
        }
        ListOneMore(linked, seen, candidate.id);
        seen := seen + {candidate.id};
        linked := linked + [candidate.id];
      }
      SeenNext(semver, vuln, byName, i, seen);
    }
    SeenAll(semver, s.nodes, parse, vuln, byName, seen);
    return Ok(()), linked;
  }

  lemma SeenSelected(semver: Semver, vuln: Vulnerability, byName: LibraryIndex, i: nat, j: nat, seen: set<nat>)
    requires Seen(semver, vuln, byName, i, j, seen)
    ensures seen <= Selected(semver, vuln, byName)
  {
    hide Affects, Selected;
  }

  lemma Nothing(semver: Semver, vuln: Vulnerability, byName: LibraryIndex, s: State)
    ensures Seen(semver, vuln, byName, 0, 0, {}) && ListsOnce([], {}) && LinkedTo(s, vuln.id, {}) == s
  {
    hide Affects;
  }

  /** Vulnerabilities: with an index of the present nodes, the links are those of a full scan. */
  method Vulnerabilities(storage: Storage, semver: Semver, vuln: Vulnerability, parse: Parser) returns (r: Result<()>)
    requires Valid(storage.View())
    modifies storage
    ensures Valid(storage.View())
    ensures var s := old(storage.View()); var found := FullScan(semver, s.nodes, parse, vuln);
            if NodeFor(s, vuln.id) in found then r == Err(SelfDependency)
              else r == Ok(()) && storage.View() == LinkedTo(s, vuln.id, found)
  {
    hide Valid, Sound, Selected, LinkedTo, FullScan;
    var byName := BuildLibraryIndex(storage.nodes, parse);
    SelectedIsFullScan(semver, storage.nodes, parse, vuln, byName);
    ghost var linked;
    r, linked := VulnerabilitiesWithIndex(storage, semver, vuln, byName, parse);
  }

  /** After ingestion the edges of an earlier node, in both directions, are the old ones and those from the selected
      nodes to the vulnerability. */
  lemma DependsOnVulnerability(s: State, name: string, found: set<nat>, x: nat)
    requires Valid(s) && found <= s.nodes.Keys && x in s.nodes && NodeFor(s, name) !in found
    ensures var t, to := LinkedTo(s, name, found), NodeFor(s, name);
            && x in t.nodes
            && (forall y :: y in t.nodes[x].children <==> y in s.nodes[x].children || (y == to && x in found))
            && (forall y :: y in t.nodes[x].parents <==> y in s.nodes[x].parents || (x == to && y in found))
            && t.nodes[x].typ == s.nodes[x].typ && t.nodes[x].name == s.nodes[x].name
  {
    hide Valid, WithEdges, AddNodeStep;
    var t, edges := AddNodeStep(s, VULNERABILITY_TYPE, name), EdgesTo(found, NodeFor(s, name));
    AddedNode(s, VULNERABILITY_TYPE, name);
    AddNodeKeepsRecords(s, VULNERABILITY_TYPE, name);
    LinkedNames(t, edges);
    EdgesKeepNames(t, edges);
    forall y
      ensures y in WithEdges(t, edges).nodes[x].children <==> y in t.nodes[x].children || (x, y) in edges
      ensures y in WithEdges(t, edges).nodes[x].parents <==> y in t.nodes[x].parents || (y, x) in edges
    {
      EdgeIff(t, edges, x, y);
    }
  }

  /** The node that selected nodes are linked to carries the vulnerability's ID; a new one is of type "vuln" and all
      its edges are these links. */
  lemma VulnerabilityNode(s: State, name: string, found: set<nat>)
    requires Valid(s) && found != {} && found <= s.nodes.Keys && NodeFor(s, name) !in found
    ensures var t, to := LinkedTo(s, name, found), NodeFor(s, name);
            && t.nodes.Keys == s.nodes.Keys + {to} && t.nodes[to].name == name
            && name in t.nameToID && t.nameToID[name] == to
            && (to !in s.nodes ==> t.nodes[to] == NodeRecord(to, "vuln", name, {}, found))
  {
    hide Valid, WithEdges, AddNodeStep;
    var t, to := AddNodeStep(s, VULNERABILITY_TYPE, name), NodeFor(s, name);
    var edges := EdgesTo(found, to);
    AddedNode(s, VULNERABILITY_TYPE, name);
    AddedRecord(s, VULNERABILITY_TYPE, name);
    LinkedNames(t, edges);
    LinkedTarget(t, found, to);
  }

  lemma AddedRecord(s: State, typ: string, name: string)
    requires Valid(s)
    ensures var t, to := AddNodeStep(s, typ, name), NodeFor(s, name);
            && t.nodes.Keys == s.nodes.Keys + {to} && t.nodes[to].name == name
            && (to !in s.nodes ==> t.nodes[to] == NodeRecord(to, typ, name, {}, {}))
  {
  }

  lemma LinkedTarget(t: State, found: set<nat>, to: nat)
    requires to in t.nodes && to !in found
    ensures var n := WithEdges(t, EdgesTo(found, to)).nodes[to];
            n == t.nodes[to].(parents := t.nodes[to].parents + found)
  {
    var edges := EdgesTo(found, to);
    assert Targets(edges, to) == {};
    forall x
      ensures x in Sources(edges, to) <==> x in found
    {
      assert (x, to) in edges <==> x in found;
      EdgeAtBothEnds(edges, x, to);
    }
    assert Sources(edges, to) == found;
  }

  /** A node is selected by a full scan exactly when it is of type "library", its name is a package URL that parses, and
      some entry names its package and ecosystem and lists its version or has it in a range. */
  lemma ScanIff(semver: Semver, nodes: map<nat, NodeRecord>, parse: Parser, vuln: Vulnerability, id: nat)
    ensures id in FullScan(semver, nodes, parse, vuln) <==>
            && id in nodes && nodes[id].typ == "library" && "pkg:" <= nodes[id].name && parse(nodes[id].name).Some?
            && var info := parse(nodes[id].name).value;
               exists a :: a in vuln.affected && a.pkgName == info.name && a.ecosystem == info.ecosystem
                        && (info.version in a.versions
                            || exists r :: r in a.ranges && Included(CompareBy(semver, r.typ), info.version, r.events))
  {
    hide Included, CompareBy;
    if IsLibrary(nodes, parse, id) {
      var info := InfoOf(nodes, parse, id);
      forall a
        ensures Hits(semver, a, info) <==>
                && a.pkgName == info.name && a.ecosystem == info.ecosystem
                && (info.version in a.versions
                    || exists r :: r in a.ranges && Included(CompareBy(semver, r.typ), info.version, r.events))
      {
        if r :| r in a.ranges && Included(CompareBy(semver, r.typ), info.version, r.events) {
          assert InRange(semver, info.version, r);
        }
      }
    }
  }
}
