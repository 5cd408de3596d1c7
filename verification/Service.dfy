/** The Service's library index: built when needed, dropped whenever nodes may have been added. */
module Service {
  import opened Results
  import opened Ranges
  import opened Store
  import opened StorageOps
  import opened Edges
  import opened Sbom
  import V = Vulns

  // ---------- what adding nodes does to an index ----------

  /** No node is lost, renamed or given another type. */
  ghost predicate Grows(nodes: map<nat, NodeRecord>, nodes1: map<nat, NodeRecord>) {
    forall id {:trigger id in nodes} {:trigger id in nodes1} ::
      id in nodes ==> id in nodes1 && nodes1[id].typ == nodes[id].typ && nodes1[id].name == nodes[id].name
  }

  /** Grows, and no library node is new. */
  ghost predicate GrowsElsewhere(nodes: map<nat, NodeRecord>, nodes1: map<nat, NodeRecord>) {
    Grows(nodes, nodes1) && forall id {:trigger id in nodes1} ::
      id in nodes1 && nodes1[id].typ == LIBRARY_TYPE ==> id in nodes
  }

  lemma SoundGrows(nodes: map<nat, NodeRecord>, nodes1: map<nat, NodeRecord>, parse: V.Parser, byName: V.LibraryIndex)
    requires V.Sound(nodes, parse, byName) && Grows(nodes, nodes1)
    ensures V.Sound(nodes1, parse, byName)
  {
  }

  lemma CoversGrows(nodes: map<nat, NodeRecord>, nodes1: map<nat, NodeRecord>, parse: V.Parser, byName: V.LibraryIndex)
    requires V.Covers(nodes, parse, byName) && GrowsElsewhere(nodes, nodes1)
    ensures V.Covers(nodes1, parse, byName)
  {
    SoundGrows(nodes, nodes1, parse, byName);
    forall id {:trigger V.IsLibrary(nodes1, parse, id)} | V.IsLibrary(nodes1, parse, id)
      ensures V.Listed(nodes1, parse, byName, id)
    {
      assert id in nodes && V.IsLibrary(nodes, parse, id);
      assert V.Listed(nodes, parse, byName, id);
    }
  }

  lemma LinkingGrows(s: State, name: string, froms: set<nat>)
    requires Valid(s)
    ensures GrowsElsewhere(s.nodes, V.LinkedTo(s, name, froms).nodes)
  {
    hide LinkedRecord;
    var t := AddNodeStep(s, VULNERABILITY_TYPE, name);
    AddingGrows(s, name);
    LinksGrow(t, V.EdgesTo(froms, V.NodeFor(s, name)));
  }

  lemma AddingGrows(s: State, name: string)
    requires Valid(s)
    ensures GrowsElsewhere(s.nodes, AddNodeStep(s, VULNERABILITY_TYPE, name).nodes)
  {
  }

  lemma LinksGrow(s: State, edges: set<Edge>)
    ensures GrowsElsewhere(s.nodes, WithEdges(s, edges).nodes)
  {
    hide Targets, Sources;
  }

  /** A node that a document added is linked to a vulnerability exactly when its name is a package URL that parses and
      the vulnerability affects that package. */
  lemma IngestedIsScanned(s: State, document: Document, ids: map<string, nat>, t: State, semver: Semver,
                          parse: V.Parser, vuln: V.Vulnerability, x: nat)
    requires Ingested(s, document, ids, t) && x in t.nodes && x !in s.nodes
    ensures x in V.FullScan(semver, t.nodes, parse, vuln) <==>
            "pkg:" <= t.nodes[x].name && parse(t.nodes[x].name).Some?
              && V.Affects(semver, vuln, parse(t.nodes[x].name).value)
    ensures exists n :: n in document.elements && Named(t.nodes[x].name, n)
  {
    hide V.Affects, Named, Stated;
  }

  // ---------- the object ----------

  class Service {
    const storage: Storage
    const semver: Semver
    const parse: V.Parser
    var libraries: Option<V.LibraryIndex>

    constructor (storage: Storage, semver: Semver, parse: V.Parser)
      requires Valid(storage.View())
      ensures this.storage == storage && this.semver == semver && this.parse == parse && Usable()
    {
      this.storage, this.semver, this.parse, libraries := storage, semver, parse, None;
    }

    /** The stored index is nil or covers every library node in storage. */
    ghost predicate Usable()
      reads this, storage
    {
      Valid(storage.View()) && (libraries.Some? ==> V.Covers(storage.nodes, parse, libraries.value))
    }

    method InvalidateLibraries()
      modifies this
      ensures libraries == None
    {
      libraries := None;
    }

    method AddNode(typ: string, name: string) returns (r: Result<Node>)
      requires Usable()
      modifies this, storage
      ensures Usable() && storage.View() == AddNodeStep(old(storage.View()), typ, name)
      ensures r.Ok? && r.value.name == name
    {
      r := StorageOps.AddNode(storage, typ, name);
      InvalidateLibraries();
    }

    method IngestSBOM(document: Document) returns (ghost ids: map<string, nat>)
      requires Usable()
      modifies this, storage
      ensures Usable()
      ensures var s := AddElements(old(storage.View()), document.elements);
              NamesElements(document.elements, s, ids)
                && storage.View() == WithEdges(s, Intended(ids, document.relationships))
      ensures Ingested(old(storage.View()), document, ids, storage.View())
    {
      hide Valid, Ingested;
      ids := IngestDocument(storage, document);
      InvalidateLibraries();
    }

    /** With the index kept from earlier calls, a record is linked exactly as a full scan of the present nodes would. */
    method IngestVulnerability(vuln: V.Vulnerability) returns (r: Result<()>)
      requires Usable()
      modifies this, storage
      ensures Usable()
      ensures var s := old(storage.View()); var found := V.FullScan(semver, s.nodes, parse, vuln);
              if V.NodeFor(s, vuln.id) in found then r == Err(SelfDependency)
                else r == Ok(()) && storage.View() == V.LinkedTo(s, vuln.id, found)
    {
      hide Valid, V.Sound, V.Selected, V.FullScan, V.LinkedTo, GrowsElsewhere, V.ListsOnce;
      ghost var s := storage.View();
      if libraries.None? {
        var idx := V.BuildLibraryIndex(storage.nodes, parse);
        libraries := Some(idx);
      }
      V.SelectedIsFullScan(semver, s.nodes, parse, vuln, libraries.value);
      ghost var linked;
      r, linked := V.VulnerabilitiesWithIndex(storage, semver, vuln, libraries.value, parse);
      ghost var froms :| V.ListsOnce(linked, froms) && storage.View() == V.LinkedTo(s, vuln.id, froms);
      LinkingGrows(s, vuln.id, froms);
      CoversGrows(s.nodes, storage.nodes, parse, libraries.value);
    }
  }
}
