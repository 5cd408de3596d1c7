/**
 The Service's calls in any interleaving. Nodes are added outside the mutex; the index is built, used and dropped
 under it.

 Each action is one atomic step of one call in flight. AddNode and IngestSBOM add nodes while `Adding`, then wait for
 the mutex (`Leaving`) and drop the index (`Clearing`). IngestVulnerability waits for the mutex, then builds the index
 if there is none (first the keys are read, then their nodes), then links.
 */
module Protocol {
  import opened Results
  import opened Store
  import opened Service
  import V = Vulns

  datatype Phase =
    | Adding | Leaving | Clearing
    | Waiting | Checking | Building(keys: set<nat>) | Linking

  /** `holder` is the call that holds librariesMu. */
  datatype World = World(nodes: map<nat, NodeRecord>, libraries: Option<V.LibraryIndex>, holder: Option<nat>,
    calls: map<nat, Phase>)

  datatype Action =
    | StartAdding(call: nat)
    | Add(call: nat, grown: map<nat, NodeRecord>)
    | StopAdding(call: nat)
    | LockToClear(call: nat)
    | Clear(call: nat)
    | StartVulnerability(call: nat)
    | Lock(call: nat)
    | UseIndex(call: nat)
    | ReadKeys(call: nat)
    | ReadNodes(call: nat, index: V.LibraryIndex)
    | Link(call: nat, grown: map<nat, NodeRecord>)
    | Unlock(call: nat)
    | Other(grown: map<nat, NodeRecord>)

  function Restrict(nodes: map<nat, NodeRecord>, keys: set<nat>): map<nat, NodeRecord> {
    map x | x in nodes && x in keys :: nodes[x]
  }

  predicate IsIn(w: World, call: nat, phase: Phase) {
    call in w.calls && w.calls[call] == phase
  }

  /** Phases in which a call holds the mutex. */
  predicate Critical(phase: Phase) {
    phase.Clearing? || phase.Checking? || phase.Building? || phase.Linking?
  }

  /** Phases of an AddNode or IngestSBOM call whose nodes the index may miss. */
  predicate AddsNodes(phase: Phase) {
    phase.Adding? || phase.Leaving? || phase.Clearing?
  }

  ghost predicate Enabled(parse: V.Parser, w: World, a: Action) {
    match a
    case StartAdding(c) => c !in w.calls
    case Add(c, grown) => IsIn(w, c, Adding) && Grows(w.nodes, grown)
    case StopAdding(c) => IsIn(w, c, Adding)
    case LockToClear(c) => IsIn(w, c, Leaving) && w.holder == None
    case Clear(c) => IsIn(w, c, Clearing)
    case StartVulnerability(c) => c !in w.calls
    case Lock(c) => IsIn(w, c, Waiting) && w.holder == None
    case UseIndex(c) => IsIn(w, c, Checking) && w.libraries.Some?
    case ReadKeys(c) => IsIn(w, c, Checking) && w.libraries.None?
    case ReadNodes(c, index) => c in w.calls && w.calls[c].Building?
      && V.Covers(Restrict(w.nodes, w.calls[c].keys), parse, index)
    case Link(c, grown) => IsIn(w, c, Linking) && GrowsElsewhere(w.nodes, grown)
    case Unlock(c) => c in w.calls && (w.calls[c].Linking? || w.calls[c].Building?)
    case Other(grown) => GrowsElsewhere(w.nodes, grown)
  }

  function Apply(w: World, a: Action): World {
    match a
    case StartAdding(c) => w.(calls := w.calls[c := Adding])
    case Add(c, grown) => w.(nodes := grown)
    case StopAdding(c) => w.(calls := w.calls[c := Leaving])
    case LockToClear(c) => w.(calls := w.calls[c := Clearing], holder := Some(c))
    case Clear(c) => w.(libraries := None, holder := None, calls := w.calls - {c})
    case StartVulnerability(c) => w.(calls := w.calls[c := Waiting])
    case Lock(c) => w.(calls := w.calls[c := Checking], holder := Some(c))
    case UseIndex(c) => w.(calls := w.calls[c := Linking])
    case ReadKeys(c) => w.(calls := w.calls[c := Building(w.nodes.Keys)])
    case ReadNodes(c, index) => w.(libraries := Some(index), calls := w.calls[c := Linking])
    case Link(c, grown) => w.(nodes := grown)
    case Unlock(c) => w.(holder := None, calls := w.calls - {c})
    case Other(grown) => w.(nodes := grown)
  }

  ghost predicate Start(w: World) {
    w.libraries == None && w.holder == None && w.calls == map[]
  }

  function After(start: World, trace: seq<Action>): World {
    if trace == [] then start else Apply(After(start, trace[..|trace| - 1]), trace[|trace| - 1])
  }

  /** A run from a start: every action is enabled when it happens. */
  ghost predicate Legal(parse: V.Parser, start: World, trace: seq<Action>) {
    if trace == [] then Start(start)
    else
      var before := trace[..|trace| - 1];
      Legal(parse, start, before) && Enabled(parse, After(start, before), trace[|trace| - 1])
  }

  /** No AddNode or IngestSBOM call is in flight. */
  predicate Quiet(w: World) {
    forall c :: c in w.calls ==> !AddsNodes(w.calls[c])
  }

  // ---------- what every step keeps ----------

  ghost predicate MutexHeld(w: World) {
    && (forall c :: c in w.calls && Critical(w.calls[c]) ==> w.holder == Some(c))
    && (w.holder.Some? ==> w.holder.value in w.calls && Critical(w.calls[w.holder.value]))
  }

  /** The index holds only library nodes, and misses one only while the call that adds nodes is in flight. */
  ghost predicate IndexFresh(parse: V.Parser, w: World) {
    w.libraries.Some? ==>
      V.Sound(w.nodes, parse, w.libraries.value) && (Quiet(w) ==> V.Covers(w.nodes, parse, w.libraries.value))
  }

  /** The keys read for an index under construction miss a library node only while a call that adds nodes is in
      flight. */
  ghost predicate KeysFresh(w: World) {
    forall c {:trigger w.calls[c]} :: c in w.calls && w.calls[c].Building? && Quiet(w) ==>
      forall id :: id in w.nodes && w.nodes[id].typ == LIBRARY_TYPE ==> id in w.calls[c].keys
  }

  ghost predicate LinksWithIndex(w: World) {
    forall c {:trigger w.calls[c]} :: c in w.calls && w.calls[c].Linking? ==> w.libraries.Some?
  }

  ghost predicate Safe(parse: V.Parser, w: World) {
    MutexHeld(w) && IndexFresh(parse, w) && KeysFresh(w) && LinksWithIndex(w)
  }

  lemma MutexKept(parse: V.Parser, w: World, a: Action)
    requires MutexHeld(w) && Enabled(parse, w, a)
    ensures MutexHeld(Apply(w, a))
  {
    hide Grows, GrowsElsewhere, V.Covers;
  }

  lemma LinksKept(parse: V.Parser, w: World, a: Action)
    requires MutexHeld(w) && LinksWithIndex(w) && Enabled(parse, w, a)
    ensures LinksWithIndex(Apply(w, a))
  {
    hide Grows, GrowsElsewhere, V.Covers;
  }

  /** The calls that add nodes stay in flight until they have dropped the index. */
  lemma QuietBefore(parse: V.Parser, w: World, a: Action)
    requires Enabled(parse, w, a) && Quiet(Apply(w, a)) && !a.Clear?
    ensures Quiet(w) && !a.Add?
  {
    hide Grows, GrowsElsewhere, V.Covers;
    var w1 := Apply(w, a);
    forall c | c in w.calls
      ensures !AddsNodes(w.calls[c])
    {
      if c in w1.calls {
        assert !AddsNodes(w1.calls[c]);
      }
    }
  }

  lemma KeysKept(parse: V.Parser, w: World, a: Action)
    requires MutexHeld(w) && KeysFresh(w) && Enabled(parse, w, a)
    ensures KeysFresh(Apply(w, a))
  {
    hide V.Covers;
    var w1 := Apply(w, a);
    if Quiet(w1) && !a.Clear? {
      QuietBefore(parse, w, a);
      hide Quiet, Grows, MutexHeld;
      forall c {:trigger w1.calls[c]} | c in w1.calls && w1.calls[c].Building?
        ensures forall id :: id in w1.nodes && w1.nodes[id].typ == LIBRARY_TYPE ==> id in w1.calls[c].keys
      {
        if !(a.ReadKeys? && a.call == c) {
          assert c in w.calls && w.calls[c] == w1.calls[c];
        }
      }
    }
  }

  lemma RestrictGrows(nodes: map<nat, NodeRecord>, keys: set<nat>)
    ensures Grows(Restrict(nodes, keys), nodes)
    ensures (forall id :: id in nodes && nodes[id].typ == LIBRARY_TYPE ==> id in keys) ==>
              GrowsElsewhere(Restrict(nodes, keys), nodes)
  {
  }

  lemma IndexKept(parse: V.Parser, w: World, a: Action)
    requires Safe(parse, w) && Enabled(parse, w, a)
    ensures IndexFresh(parse, Apply(w, a))
  {
    hide V.Sound, Quiet, Grows, GrowsElsewhere, V.Listed, Restrict;
    var w1 := Apply(w, a);
    if !a.Clear? && w1.libraries.Some? {
      if Quiet(w1) {
        QuietBefore(parse, w, a);
      }
      match a {
        case Add(c, grown) =>
          SoundGrows(w.nodes, grown, parse, w.libraries.value);
        case Link(c, grown) =>
          ElsewhereKeeps(w, parse, grown);
        case Other(grown) =>
          ElsewhereKeeps(w, parse, grown);
        case ReadNodes(c, index) =>
          RestrictGrows(w.nodes, w.calls[c].keys);
          SoundGrows(Restrict(w.nodes, w.calls[c].keys), w.nodes, parse, index);
          if Quiet(w1) {
            CoversGrows(Restrict(w.nodes, w.calls[c].keys), w.nodes, parse, index);
          }
        case _ =>
      }
    }
  }

  lemma ElsewhereKeeps(w: World, parse: V.Parser, grown: map<nat, NodeRecord>)
    requires IndexFresh(parse, w) && GrowsElsewhere(w.nodes, grown) && w.libraries.Some?
    ensures IndexFresh(parse, w.(nodes := grown))
  {
    hide V.Sound, V.Listed;
    SoundGrows(w.nodes, grown, parse, w.libraries.value);
    if Quiet(w) {
      CoversGrows(w.nodes, grown, parse, w.libraries.value);
    }
    assert Quiet(w.(nodes := grown)) ==> Quiet(w);
  }

  lemma StepKeepsSafe(parse: V.Parser, w: World, a: Action)
    requires Safe(parse, w) && Enabled(parse, w, a)
    ensures Safe(parse, Apply(w, a))
  {
    hide MutexHeld, IndexFresh, KeysFresh, LinksWithIndex, Enabled, Apply;
    MutexKept(parse, w, a);
    IndexKept(parse, w, a);
    KeysKept(parse, w, a);
    LinksKept(parse, w, a);
  }

  lemma {:induction false} RunIsSafe(parse: V.Parser, start: World, trace: seq<Action>)
    requires Legal(parse, start, trace)
    ensures Safe(parse, After(start, trace))
  {
    if trace != [] {
      hide Safe, Enabled, Apply;
      var n := |trace| - 1;
      RunIsSafe(parse, start, trace[..n]);
      StepKeepsSafe(parse, After(start, trace[..n]), trace[n]);
    }
  }

  // ---------- main results ----------

  /** In every interleaving: with no AddNode or IngestSBOM call in flight, the index is nil or covers every library
      node, and a call about to link then has an index that covers every library node. */
  lemma QuietIndexCovers(parse: V.Parser, start: World, trace: seq<Action>)
    requires Legal(parse, start, trace) && Quiet(After(start, trace))
    ensures var w := After(start, trace);
            && (w.libraries.Some? ==> V.Covers(w.nodes, parse, w.libraries.value))
            && forall c {:trigger w.calls[c]} ::
                 c in w.calls && w.calls[c].Linking? ==>
                   w.libraries.Some? && V.Covers(w.nodes, parse, w.libraries.value)
  {
    hide V.Covers;
    RunIsSafe(parse, start, trace);
  }

  /** At most one call is past the lock. */
  lemma OneHolder(parse: V.Parser, start: World, trace: seq<Action>, c: nat, d: nat)
    requires Legal(parse, start, trace)
    requires var w := After(start, trace); c in w.calls && d in w.calls && Critical(w.calls[c]) && Critical(w.calls[d])
    ensures c == d
  {
    RunIsSafe(parse, start, trace);
  }

  lemma OneStep(parse: V.Parser, start: World, trace: seq<Action>, w: World, a: Action)
    requires Legal(parse, start, trace) && After(start, trace) == w && Enabled(parse, w, a)
    ensures Legal(parse, start, trace + [a]) && After(start, trace + [a]) == Apply(w, a)
  {
    hide Enabled, Apply, Start;
    assert (trace + [a])[..|trace|] == trace;
  }

  /** A call starts adding nodes, and another builds the index from what is there. */
  lemma EmptyIndexBuilt(parse: V.Parser) returns (trace: seq<Action>)
    ensures var start, none := World(map[], None, None, map[]), map[];
            Legal(parse, start, trace)
              && After(start, trace) == World(map[], Some(none), Some(2), map[1 := Adding, 2 := Linking])
  {
    hide V.Covers, After, Legal;
    var none: V.LibraryIndex := map[];
    var start := World(map[], None, None, map[]);
    EmptyCovers(parse);
    NoSteps(parse, start);
    OneStep(parse, start, [], start, StartAdding(1));
    var w1 := World(map[], None, None, map[1 := Adding]);
    OneStep(parse, start, [] + [StartAdding(1)], w1, StartVulnerability(2));
    var w2 := World(map[], None, None, map[1 := Adding, 2 := Waiting]);
    var t2 := [] + [StartAdding(1)] + [StartVulnerability(2)];
    OneStep(parse, start, t2, w2, Lock(2));
    var w3 := World(map[], None, Some(2), map[1 := Adding, 2 := Checking]);
    OneStep(parse, start, t2 + [Lock(2)], w3, ReadKeys(2));
    var w4 := World(map[], None, Some(2), map[1 := Adding, 2 := Building({})]);
    assert w3.nodes.Keys == {} && w3.calls[2 := Building({})] == w4.calls;
    assert Restrict(w4.nodes, {}) == map[];
    OneStep(parse, start, t2 + [Lock(2)] + [ReadKeys(2)], w4, ReadNodes(2, none));
    trace := t2 + [Lock(2)] + [ReadKeys(2)] + [ReadNodes(2, none)];
    assert w4.calls[2 := Linking] == map[1 := Adding, 2 := Linking];
  }

  lemma NoSteps(parse: V.Parser, start: World)
    requires Start(start)
    ensures Legal(parse, start, []) && After(start, []) == start
  {
  }

  /** While a call that adds nodes is in flight the index can miss a library node. */
  lemma StaleWindow(parse: V.Parser, name: string)
    requires "pkg:" <= name && parse(name).Some?
    ensures exists start, trace :: Legal(parse, start, trace) && var w := After(start, trace);
            w.libraries.Some? && !V.Covers(w.nodes, parse, w.libraries.value)
  {
    hide V.Covers, After, Legal;
    var start, none: V.LibraryIndex := World(map[], None, None, map[]), map[];
    var grown := map[1 := NodeRecord(1, LIBRARY_TYPE, name, {}, {})];
    var trace := EmptyIndexBuilt(parse);
    OneStep(parse, start, trace, World(map[], Some(none), Some(2), map[1 := Adding, 2 := Linking]), Add(1, grown));
    MissesNode(parse, grown);
  }

  lemma EmptyCovers(parse: V.Parser)
    ensures V.Covers(map[], parse, map[])
  {
  }

  lemma MissesNode(parse: V.Parser, nodes: map<nat, NodeRecord>)
    requires V.IsLibrary(nodes, parse, 1)
    ensures !V.Covers(nodes, parse, map[])
  {
    assert !V.Listed(nodes, parse, map[], 1);
  }
}
