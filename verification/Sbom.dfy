/** SBOM ingestion: the node loop and the edge loop of a parsed document. */
module Sbom {
  import opened Store
  import opened StorageOps
  import opened Edges

  datatype EdgeType =
    | Contains | DependsOn | Prerequisite | StaticLink | DynamicLink
    | ContainedBy | DependencyOf | PrerequisiteFor | BuildDependency | DevDependency | RuntimeDependency
    | TestDependency | OptionalDependency | OptionalComponent | ProvidedDependency
    | OtherRelationship

  datatype Direction = NotADependency | FromDependsOnTo | ToDependsOnFrom

  function DependencyDirection(t: EdgeType): Direction {
    match t
    case Contains | DependsOn | Prerequisite | StaticLink | DynamicLink => FromDependsOnTo
    case ContainedBy | DependencyOf | PrerequisiteFor => ToDependsOnFrom
    case BuildDependency | DevDependency | RuntimeDependency | TestDependency => ToDependsOnFrom
    case OptionalDependency | OptionalComponent | ProvidedDependency => ToDependsOnFrom
    case OtherRelationship => NotADependency
  }

  datatype Element = Element(id: string, purl: string, name: string, version: string)

  datatype Relationship = Relationship(typ: EdgeType, from: string, to: seq<string>)

  datatype Document = Document(elements: seq<Element>, relationships: seq<Relationship>)

  function Purl(n: Element): string {
    if n.purl == "" then "pkg:" + n.name + "@" + n.version else n.purl
  }

  /** The name of an element's node: its package URL, or one put together from its name and version. */
  predicate Named(name: string, n: Element) {
    && (n.purl != "" ==> name == n.purl)
    && (n.purl == "" ==> name == "pkg:" + n.name + "@" + n.version)
  }

  lemma PurlNames(n: Element, name: string)
    ensures name == Purl(n) <==> Named(name, n)
  {
  }

  // ---------- the node loop ----------

  /** The store after a node is added for each element. */
  function AddElements(s: State, elements: seq<Element>): State {
    if elements == [] then s
    else AddNodeStep(AddElements(s, elements[..|elements| - 1]), LIBRARY_TYPE, Purl(elements[|elements| - 1]))
  }

  /** ids holds, for each element ID, the node of the last element of that ID. */
  ghost predicate NamesElements(elements: seq<Element>, s: State, ids: map<string, nat>) {
    && (forall i {:trigger elements[i]} :: 0 <= i < |elements| ==> elements[i].id in ids)
    && (forall e {:trigger e in ids} :: e in ids ==> exists i :: LastNamed(elements, s, e, ids[e], i))
  }

  ghost predicate LastNamed(elements: seq<Element>, s: State, e: string, id: nat, i: int) {
    && 0 <= i < |elements| && elements[i].id == e
    && (forall j :: i < j < |elements| ==> elements[j].id != e)
    && id in s.nodes && Named(s.nodes[id].name, elements[i])
  }

  lemma LastNamedStays(elements: seq<Element>, s: State, e: string, id: nat, i: int, n: Element, t: State)
    requires LastNamed(elements, s, e, id, i) && e != n.id && id in t.nodes && t.nodes[id].name == s.nodes[id].name
    ensures LastNamed(elements + [n], t, e, id, i)
  {
    hide Named;
  }

  lemma LastNamedNew(elements: seq<Element>, n: Element, t: State, id: nat)
    requires id in t.nodes && t.nodes[id].name == Purl(n)
    ensures LastNamed(elements + [n], t, n.id, id, |elements|)
  {
    hide Purl, Named;
    PurlNames(n, t.nodes[id].name);
  }

  lemma NamesStep(elements: seq<Element>, s: State, ids: map<string, nat>, n: Element, t: State, id: nat)
    requires NamesElements(elements, s, ids) && id in t.nodes && t.nodes[id].name == Purl(n)
    requires forall x {:trigger x in s.nodes} :: x in s.nodes ==> x in t.nodes && t.nodes[x].name == s.nodes[x].name
    ensures NamesElements(elements + [n], t, ids[n.id := id])
  {
    var all, ids1 := elements + [n], ids[n.id := id];
    LastNamedNew(elements, n, t, id);
    forall e {:trigger e in ids1} | e in ids1 && e != n.id
      ensures exists i :: LastNamed(all, t, e, ids1[e], i)
    {
      assert e in ids;
      var i :| LastNamed(elements, s, e, ids[e], i);
      assert ids[e] in s.nodes;
      assert t.nodes[ids[e]].name == s.nodes[ids[e]].name;
      LastNamedStays(elements, s, e, ids[e], i, n, t);
    }
    hide LastNamed, Purl;
    forall i {:trigger all[i]} | 0 <= i < |all|
      ensures all[i].id in ids1
    {
      assert i < |elements| ==> all[i] == elements[i];
    }
  }

  lemma NoElements(s: State)
    ensures AddElements(s, []) == s && NamesElements([], s, map[])
  {
  }

  method AddNodes(storage: Storage, elements: seq<Element>) returns (nameToId: map<string, nat>)
    requires Valid(storage.View())
    modifies storage
    ensures Valid(storage.View()) && storage.View() == AddElements(old(storage.View()), elements)
    ensures NamesElements(elements, storage.View(), nameToId)
  {
    hide Valid, NamesElements, AddNodeStep, Purl;
    nameToId := map[];
    NoElements(storage.View());
    for i := 0 to |elements|
      invariant Valid(storage.View()) && storage.View() == AddElements(old(storage.View()), elements[..i])
      invariant NamesElements(elements[..i], storage.View(), nameToId)
    {
      var node := elements[i];
      assert elements[..i + 1] == elements[..i] + [node] && elements[..i + 1][..i] == elements[..i];
      ghost var s := storage.View();
      AddNodeKeepsRecords(s, LIBRARY_TYPE, Purl(node));
      var graphNode := AddNode(storage, LIBRARY_TYPE, Purl(node));
      NamesStep(elements[..i], s, nameToId, node, storage.View(), graphNode.value.id);
      nameToId := nameToId[node.id := graphNode.value.id];
    }
    assert elements[..|elements|] == elements;
  }

  // ---------- the edge loop ----------

  /** The dependency that one target of a relationship stands for, if any. */
  function EdgeOf(ids: map<string, nat>, r: Relationship, to: string): set<Edge> {
    if DependencyDirection(r.typ) == NotADependency || r.from !in ids || to !in ids || ids[r.from] == ids[to] then {}
    else if DependencyDirection(r.typ) == ToDependsOnFrom then {(ids[to], ids[r.from])}
    else {(ids[r.from], ids[to])}
  }

  function EdgesOf(ids: map<string, nat>, r: Relationship, targets: seq<string>): set<Edge> {
    if targets == [] then {}
    else EdgesOf(ids, r, targets[..|targets| - 1]) + EdgeOf(ids, r, targets[|targets| - 1])
  }

  function Intended(ids: map<string, nat>, relationships: seq<Relationship>): set<Edge> {
    if relationships == [] then {}
    else
      var r := relationships[|relationships| - 1];
      Intended(ids, relationships[..|relationships| - 1]) + EdgesOf(ids, r, r.to)
  }

  /** The relationship r to `to` says that x depends on y. The types of the second list name the dependency first. */
  ghost predicate Says(ids: map<string, nat>, r: Relationship, to: string, x: nat, y: nat) {
    && r.from in ids && to in ids && x != y
    && ((r.typ in {Contains, DependsOn, Prerequisite, StaticLink, DynamicLink} && ids[r.from] == x && ids[to] == y)
        || (r.typ in {ContainedBy, DependencyOf, PrerequisiteFor, BuildDependency, DevDependency, RuntimeDependency,
                      TestDependency, OptionalDependency, OptionalComponent, ProvidedDependency}
            && ids[to] == x && ids[r.from] == y))
  }

  lemma SaysEdge(ids: map<string, nat>, r: Relationship, to: string, x: nat, y: nat)
    ensures (x, y) in EdgeOf(ids, r, to) <==> Says(ids, r, to, x, y)
  {
  }

  lemma {:induction false} EdgesOfIff(ids: map<string, nat>, r: Relationship, targets: seq<string>, x: nat, y: nat)
    ensures (x, y) in EdgesOf(ids, r, targets) <==> exists to :: to in targets && Says(ids, r, to, x, y)
  {
    if targets != [] {
      var n := |targets| - 1;
      EdgesOfIff(ids, r, targets[..n], x, y);
      assert forall to :: to in targets <==> to in targets[..n] || to == targets[n];
      SaysEdge(ids, r, targets[n], x, y);
    }
  }

  /** The intended edges are exactly those that a relationship states, in its direction. */
  lemma {:induction false} IntendedIff(ids: map<string, nat>, relationships: seq<Relationship>, x: nat, y: nat)
    ensures (x, y) in Intended(ids, relationships) <==>
            exists r, to :: r in relationships && to in r.to && Says(ids, r, to, x, y)
  {
    hide Says, EdgesOf;
    if relationships != [] {
      var n := |relationships| - 1;
      IntendedIff(ids, relationships[..n], x, y);
      EdgesOfIff(ids, relationships[n], relationships[n].to, x, y);
      assert forall r :: r in relationships <==> r in relationships[..n] || r == relationships[n];
    }
  }

  /** The target loop of one relationship. */
  method LinkTargets(storage: Storage, ids: map<string, nat>, r: Relationship, fromID: nat, ghost s: State,
                     ghost edges: set<Edge>)
    requires Valid(storage.View()) && Valid(s) && storage.View() == WithEdges(s, edges)
    requires DependencyDirection(r.typ) != NotADependency && r.from in ids && fromID == ids[r.from]
    requires forall e :: e in ids ==> ids[e] in s.nodes
    modifies storage
    ensures Valid(storage.View()) && storage.View() == WithEdges(s, edges + EdgesOf(ids, r, r.to))
  {
    hide Valid, WithEdges, Indexed, SetDependencyStep;
    SameNodes(s, edges);
    assert edges + {} == edges;
    for k := 0 to |r.to|
      invariant Valid(storage.View()) && storage.View() == WithEdges(s, edges + EdgesOf(ids, r, r.to[..k]))
    {
      var to := r.to[k];
      assert r.to[..k + 1][..k] == r.to[..k];
      ghost var done := edges + EdgesOf(ids, r, r.to[..k]);
      assert edges + EdgesOf(ids, r, r.to[..k + 1]) == done + EdgeOf(ids, r, to);
      if to !in ids || fromID == ids[to] {
        assert done + {} == done;
        continue;
      }
      var toID := ids[to];
      var dependentID, dependencyID := fromID, toID;
      if DependencyDirection(r.typ) == ToDependsOnFrom {
        dependentID, dependencyID := toID, fromID;
      }
      SameNodes(s, done);
      ValidIndexed(s);
      SetDependencyLinks(s, done, dependentID, dependencyID);
      var linked := LinkByID(storage, dependentID, dependencyID);
      assert EdgeOf(ids, r, to) == {(dependentID, dependencyID)};
    }
    assert r.to[..|r.to|] == r.to;
  }

  lemma SameNodes(s: State, edges: set<Edge>)
    ensures WithEdges(s, edges).nodes.Keys == s.nodes.Keys
  {
  }

  lemma NamedStored(elements: seq<Element>, s: State, ids: map<string, nat>)
    requires NamesElements(elements, s, ids)
    ensures forall e :: e in ids ==> ids[e] in s.nodes
  {
  }

  /** t is s after the document: every element has a node, the new ones are libraries named by elements, no earlier node
      is lost or renamed, and the edges are the old ones and those that relationships state. */
  ghost predicate Ingested(s: State, document: Document, ids: map<string, nat>, t: State) {
    && NamesElements(document.elements, t, ids)
    && (forall e {:trigger e in document.elements} :: e in document.elements ==> HasNode(t, e))
    && (forall x {:trigger x in t.nodes} :: x in t.nodes && x !in s.nodes ==>
          t.nodes[x].typ == "library" && NamesOne(document.elements, t.nodes[x].name))
    && (forall x {:trigger x in s.nodes} :: x in s.nodes ==>
          x in t.nodes && t.nodes[x].typ == s.nodes[x].typ && t.nodes[x].name == s.nodes[x].name)
    && (forall x, y {:trigger y in t.nodes[x].children} :: x in t.nodes ==>
          (y in t.nodes[x].children <==> (x in s.nodes && y in s.nodes[x].children) || Stated(document, ids, x, y)))
    && (forall x, y {:trigger y in t.nodes[x].parents} :: x in t.nodes ==>
          (y in t.nodes[x].parents <==> (x in s.nodes && y in s.nodes[x].parents) || Stated(document, ids, y, x)))
  }

  ghost predicate HasNode(t: State, n: Element) {
    exists x :: x in t.nodes && Named(t.nodes[x].name, n)
  }

  ghost predicate NamesOne(elements: seq<Element>, name: string) {
    exists n :: n in elements && Named(name, n)
  }

  /** Some relationship of the document says that x depends on y. */
  ghost predicate Stated(document: Document, ids: map<string, nat>, x: nat, y: nat) {
    exists r, to :: r in document.relationships && to in r.to && Says(ids, r, to, x, y)
  }

  /** SBOM: the store gains a node per element and exactly the intended edges. */
  method IngestDocument(storage: Storage, document: Document) returns (ghost nameToId: map<string, nat>)
    requires Valid(storage.View())
    modifies storage
    ensures Valid(storage.View())
    ensures var s := AddElements(old(storage.View()), document.elements);
            && Valid(s) && NamesElements(document.elements, s, nameToId)
            && storage.View() == WithEdges(s, Intended(nameToId, document.relationships))
    ensures Ingested(old(storage.View()), document, nameToId, storage.View())
  {
    hide Valid, WithEdges, NamesElements, AddElements, EdgesOf, Ingested;
    var ids := AddNodes(storage, document.elements);
    nameToId := ids;
    ghost var s := storage.View();
    NamedStored(document.elements, s, ids);
    WithoutEdges(s);
    var relationships := document.relationships;
    for i := 0 to |relationships|
      invariant Valid(storage.View()) && storage.View() == WithEdges(s, Intended(ids, relationships[..i]))
    {
      var edge := relationships[i];
      assert relationships[..i + 1][..i] == relationships[..i];
      NothingMeant(ids, edge, edge.to);
      assert Intended(ids, relationships[..i]) + {} == Intended(ids, relationships[..i]);
      var direction := DependencyDirection(edge.typ);
      if direction == NotADependency {
        continue;
      }
      if edge.from !in ids {
        continue;
      }
      LinkTargets(storage, ids, edge, ids[edge.from], s, Intended(ids, relationships[..i]));
    }
    assert relationships[..|relationships|] == relationships;
    DocumentIngested(old(storage.View()), document, ids);
  }

  lemma {:induction false} NothingMeant(ids: map<string, nat>, r: Relationship, targets: seq<string>)
    ensures DependencyDirection(r.typ) == NotADependency || r.from !in ids ==> EdgesOf(ids, r, targets) == {}
  {
    if targets != [] {
      NothingMeant(ids, r, targets[..|targets| - 1]);
    }
  }

  // ---------- what the whole document does ----------

  /** No earlier record is touched by the node loop. */
  lemma {:induction false} ElementsKeepRecords(s: State, elements: seq<Element>)
    requires Valid(s)
    ensures Valid(AddElements(s, elements))
    ensures forall x ::
              x in s.nodes ==> x in AddElements(s, elements).nodes && AddElements(s, elements).nodes[x] == s.nodes[x]
  {
    hide Valid, AddNodeStep;
    if elements != [] {
      var t := AddElements(s, elements[..|elements| - 1]);
      ElementsKeepRecords(s, elements[..|elements| - 1]);
      AddNodeKeepsValid(t, LIBRARY_TYPE, Purl(elements[|elements| - 1]));
      AddNodeKeepsRecords(t, LIBRARY_TYPE, Purl(elements[|elements| - 1]));
    }
  }

  lemma AddedNode(s: State, typ: string, name: string)
    requires Valid(s)
    ensures var t := AddNodeStep(s, typ, name);
            forall x :: x in t.nodes && x !in s.nodes ==> t.nodes[x] == NodeRecord(x, typ, name, {}, {})
    ensures exists x :: x in AddNodeStep(s, typ, name).nodes && AddNodeStep(s, typ, name).nodes[x].name == name
  {
    var t := AddNodeStep(s, typ, name);
    assert name in t.nameToID && t.nodes[t.nameToID[name]].name == name;
  }

  /** A node that the node loop adds is an unlinked library with the name of an element. */
  lemma {:induction false} NewNodes(s: State, elements: seq<Element>, x: nat)
    requires Valid(s) && x in AddElements(s, elements).nodes && x !in s.nodes
    ensures var n := AddElements(s, elements).nodes[x];
            n.typ == "library" && n.children == {} && n.parents == {} && NamesOne(elements, n.name)
  {
    hide Valid, Purl, AddNodeStep, Named;
    if elements != [] {
      var t, last := AddElements(s, elements[..|elements| - 1]), elements[|elements| - 1];
      ElementsKeepRecords(s, elements[..|elements| - 1]);
      if x in t.nodes {
        NewNodes(s, elements[..|elements| - 1], x);
        AddNodeKeepsRecords(t, LIBRARY_TYPE, Purl(last));
        var n :| n in elements[..|elements| - 1] && Named(t.nodes[x].name, n);
        assert n in elements;
      } else {
        AddedNode(t, LIBRARY_TYPE, Purl(last));
        PurlNames(last, Purl(last));
        assert last in elements;
      }
    }
  }

  lemma {:induction false} ElementsHaveNodes(s: State, elements: seq<Element>, n: Element)
    requires Valid(s) && n in elements
    ensures HasNode(AddElements(s, elements), n)
  {
    hide Valid, Purl, AddNodeStep, Named;
    var t, last := AddElements(s, elements[..|elements| - 1]), elements[|elements| - 1];
    ElementsKeepRecords(s, elements[..|elements| - 1]);
    if n == last {
      AddedNode(t, LIBRARY_TYPE, Purl(last));
      PurlNames(last, Purl(last));
    } else {
      assert n in elements[..|elements| - 1];
      ElementsHaveNodes(s, elements[..|elements| - 1], n);
      AddNodeKeepsRecords(t, LIBRARY_TYPE, Purl(last));
      var x :| x in t.nodes && Named(t.nodes[x].name, n);
      assert x in AddElements(s, elements).nodes;
    }
  }

  lemma NamesStay(elements: seq<Element>, s: State, ids: map<string, nat>, t: State)
    requires NamesElements(elements, s, ids) && t.nodes.Keys == s.nodes.Keys
    requires forall x {:trigger t.nodes[x]} :: x in s.nodes ==> t.nodes[x].name == s.nodes[x].name
    ensures NamesElements(elements, t, ids)
    ensures forall n {:trigger HasNode(t, n)} :: HasNode(s, n) ==> HasNode(t, n)
  {
    hide Named;
    forall e {:trigger e in ids} | e in ids
      ensures exists i :: LastNamed(elements, t, e, ids[e], i)
    {
      var i :| LastNamed(elements, s, e, ids[e], i);
      assert LastNamed(elements, t, e, ids[e], i);
    }
    forall n {:trigger HasNode(t, n)} | HasNode(s, n)
      ensures HasNode(t, n)
    {
      var x :| x in s.nodes && Named(s.nodes[x].name, n);
      assert x in t.nodes && Named(t.nodes[x].name, n);
    }
  }

  /** After ingestion x depends directly on y, and y is depended on by x, exactly when so before or some relationship
      says so. */
  lemma DependsIff(s: State, document: Document, ids: map<string, nat>, x: nat, y: nat)
    requires Valid(s) && NamesElements(document.elements, AddElements(s, document.elements), ids)
             && x in AddElements(s, document.elements).nodes
    ensures var t := WithEdges(AddElements(s, document.elements), Intended(ids, document.relationships));
            && (y in t.nodes[x].children <==> (x in s.nodes && y in s.nodes[x].children) || Stated(document, ids, x, y))
            && (y in t.nodes[x].parents <==> (x in s.nodes && y in s.nodes[x].parents) || Stated(document, ids, y, x))
  {
    hide Valid, NamesElements, AddElements, Says, WithEdges, NamesOne;
    ElementsKeepRecords(s, document.elements);
    EdgeIff(AddElements(s, document.elements), Intended(ids, document.relationships), x, y);
    IntendedIff(ids, document.relationships, x, y);
    IntendedIff(ids, document.relationships, y, x);
    if x !in s.nodes {
      NewNodes(s, document.elements, x);
    }
  }

  /** What the two loops leave is what the document asks for. */
  lemma DocumentIngested(s: State, document: Document, ids: map<string, nat>)
    requires Valid(s) && NamesElements(document.elements, AddElements(s, document.elements), ids)
    ensures Ingested(s, document, ids, WithEdges(AddElements(s, document.elements),
                     Intended(ids, document.relationships)))
  {
    hide Valid, NamesElements, AddElements, Stated, WithEdges, NamesOne, HasNode, Intended;
    var u := AddElements(s, document.elements);
    var t := WithEdges(u, Intended(ids, document.relationships));
    ElementsKeepRecords(s, document.elements);
    EdgesKeepNames(u, Intended(ids, document.relationships));
    NamesStay(document.elements, u, ids, t);
    forall e {:trigger e in document.elements} | e in document.elements
      ensures HasNode(t, e)
    {
      ElementsHaveNodes(s, document.elements, e);
    }
    forall x {:trigger x in t.nodes} | x in t.nodes && x !in s.nodes
      ensures t.nodes[x].typ == "library" && NamesOne(document.elements, t.nodes[x].name)
    {
      NewNodes(s, document.elements, x);
    }
    forall x, y | x in t.nodes
      ensures y in t.nodes[x].children <==> (x in s.nodes && y in s.nodes[x].children) || Stated(document, ids, x, y)
      ensures y in t.nodes[x].parents <==> (x in s.nodes && y in s.nodes[x].parents) || Stated(document, ids, y, x)
    {
      DependsIff(s, document, ids, x, y);
    }
  }
}
