/** Which scripts evaluate to their set algebra in every store that a run can build. */
module ScriptStores {
  import opened Results
  import opened Graphs
  import opened CacheBuilder
  import opened Store
  import opened Edges
  import opened Queries
  import opened Script
  import opened ScriptOps
  import Runs

  // ---------- brackets in any store ----------

  function DependenciesOf(typ: string, name: string): Expression {
    Expression(Term(Some(Query("dependencies", typ, Some(name))), None), None, None)
  }

  /** In every valid store with exact answers, "[dependencies T a]" evaluates to nothing, while it stands for a set that
      holds at least a itself, when a is of type T. */
  lemma BracketsLoseAnswers(s: State, name: string, defaultName: string)
    requires Valid(s) && Runs.Exact(s) && name in s.nameToID
    ensures var a := s.nameToID[name];
            && a in s.nodes
            && var script := Bracketed(DependenciesOf(s.nodes[a].typ, name));
               && Eval(StoreEnv(s, defaultName), Some(script)) == Ok(Some({}))
               && a in Meaning(UncachedEnv(s, defaultName), script, true)
  {
    hide Valid, QueryMeaning, UncachedEnv, StoreEnv, Runs.Exact;
    ValidIndexed(s);
    var a := s.nameToID[name];
    var e := DependenciesOf(s.nodes[a].typ, name);
    var q := Query("dependencies", s.nodes[a].typ, Some(name));
    QueryMeansReachable(s, q, defaultName, name, a);
    ReachesRefl(ChildGraph(s.nodes), a);
    assert a in Meaning(UncachedEnv(s, defaultName), e, true);
    CachedSeesTheSame(s, defaultName);
    assert NamesIn(Variables(defaultName, e)) <= s.nameToID.Keys;
    NamesSuffice(s, e, defaultName);
    ScriptAnswered(s, e, defaultName);
    BracketsEmpty(StoreEnv(s, defaultName), e);
  }

  lemma ScriptAnswered(s: State, e: Expression, defaultName: string)
    requires Valid(s) && AllNamed(s, e, defaultName)
    ensures Answers(StoreEnv(s, defaultName), Some(e))
  {
    hide Uncached, Queried;
    ValidIndexed(s);
    forall x, direction | x in s.nodes
      ensures x in AnswersOf(s, direction)
    {
      AnswerKnown(s, x, direction);
    }
  }

  // ---------- building a store by a run ----------

  ghost predicate CacheFree(ops: seq<Runs.Op>) {
    forall k :: 0 <= k < |ops| ==> !ops[k].Cache?
  }

  lemma {:induction false} CacheFreeCovered(ops: seq<Runs.Op>)
    requires CacheFree(ops)
    ensures Runs.CachesCovered(ops)
  {
    hide Runs.Covered, Runs.Run;
    if ops != [] {
      CacheFreeCovered(ops[..|ops| - 1]);
    }
  }

  /** A run without Cache leaves every node waiting, so every answer is the uncached one. */
  lemma CacheFreeExact(ops: seq<Runs.Op>)
    requires CacheFree(ops)
    ensures Runs.Exact(Runs.Run(ops)) && Runs.CachesCovered(ops)
  {
    hide Runs.Exact, Runs.Run;
    CacheFreeCovered(ops);
    Runs.RunExactIff(ops);
    Runs.ExactNow(ops);
  }

  ghost predicate Unlinked(s: State, typ: string) {
    forall x {:trigger s.nodes[x]} ::
      x in s.nodes ==> s.nodes[x].children == {} && s.nodes[x].parents == {} && s.nodes[x].typ == typ
  }

  /** One node for each name, all of one type, and no edges. */
  lemma {:induction false} BuildNodes(names: set<string>, typ: string) returns (ops: seq<Runs.Op>)
    ensures CacheFree(ops) && Runs.Run(ops).nameToID.Keys == names && Unlinked(Runs.Run(ops), typ)
    decreases names
  {
    hide Valid, Runs.Run, Runs.Step;
    if names == {} {
      ops := [];
      Runs.EmptyExact();
    } else {
      var name :| name in names;
      var before := BuildNodes(names - {name}, typ);
      ops := before + [Runs.AddNode(typ, name)];
      Runs.RunSnoc(before, Runs.AddNode(typ, name));
      StepAdds(Runs.Run(before), typ, name);
      AddsUnlinked(Runs.Run(before), typ, name);
    }
  }

  lemma StepAdds(s: State, typ: string, name: string)
    requires Valid(s)
    ensures Runs.Step(s, Runs.AddNode(typ, name)) == AddNodeStep(s, typ, name)
  {
    hide Valid;
  }

  lemma AddsUnlinked(s: State, typ: string, name: string)
    requires Unlinked(s, typ) && name !in s.nameToID
    ensures Unlinked(AddNodeStep(s, typ, name), typ)
    ensures AddNodeStep(s, typ, name).nameToID.Keys == s.nameToID.Keys + {name}
  {
  }

  /** Any set of edges between different stored nodes can be added. */
  lemma {:induction false} BuildEdges(start: seq<Runs.Op>, edges: set<Edge>) returns (ops: seq<Runs.Op>)
    requires CacheFree(start)
    requires forall e :: e in edges ==> e.0 in Runs.Run(start).nodes && e.1 in Runs.Run(start).nodes && e.0 != e.1
    ensures CacheFree(ops) && Runs.Run(ops) == WithEdges(Runs.Run(start), edges)
    decreases edges
  {
    hide Valid, Runs.Run, Runs.Step, WithEdges, SetDependencyStep, Indexed;
    var s := Runs.Run(start);
    if edges == {} {
      ops := start;
      WithoutEdges(s);
    } else {
      var e :| e in edges;
      var before := BuildEdges(start, edges - {e});
      ops := before + [Runs.SetDependency(e.0, e.1)];
      Runs.RunSnoc(before, Runs.SetDependency(e.0, e.1));
      StepLinks(Runs.Run(before), e.0, e.1);
      ValidIndexed(s);
      SetDependencyLinks(s, edges - {e}, e.0, e.1);
      assert edges - {e} + {(e.0, e.1)} == edges;
    }
  }

  lemma StepLinks(s: State, from: nat, to: nat)
    requires Valid(s)
    ensures Runs.Step(s, Runs.SetDependency(from, to)) == SetDependencyStep(s, from, to)
  {
    hide Valid, SetDependencyStep;
  }

  /** A name longer than all of these. */
  lemma {:induction false} LongerName(names: set<string>) returns (name: string)
    ensures |name| > 0 && forall n :: n in names ==> |n| < |name|
    decreases names
  {
    if names == {} {
      name := "u";
    } else {
      var n :| n in names;
      var f := LongerName(names - {n});
      name := f + n;
      forall m | m in names
        ensures |m| < |name|
      {
        assert m == n || m in names - {n};
      }
    }
  }

  // ---------- the store in which exactly the chosen queries hold u ----------

  /** x -> u for the chosen dependencies queries of x, and u -> x for the chosen dependents queries. */
  ghost function ChoiceEdges(s: State, chosen: set<Variable>, u: nat): set<Edge> {
    (set x | x in s.nodes && x != u && Variable("dependencies", s.nodes[x].name) in chosen :: (x, u))
    + (set x | x in s.nodes && x != u && Variable("dependents", s.nodes[x].name) in chosen :: (u, x))
  }

  lemma ChoiceTargets(s: State, chosen: set<Variable>, u: nat, x: nat)
    requires x in s.nodes && x != u
    ensures Targets(ChoiceEdges(s, chosen, u), x) == Lone(Variable("dependencies", s.nodes[x].name) in chosen, u)
    ensures Sources(ChoiceEdges(s, chosen, u), x) == Lone(Variable("dependents", s.nodes[x].name) in chosen, u)
  {
    var edges := ChoiceEdges(s, chosen, u);
    forall y
      ensures (x, y) in edges <==> y == u && Variable("dependencies", s.nodes[x].name) in chosen
      ensures (y, x) in edges <==> y == u && Variable("dependents", s.nodes[x].name) in chosen
    {
    }
    forall y
      ensures y in Targets(edges, x) <==> (x, y) in edges
      ensures y in Sources(edges, x) <==> (y, x) in edges
    {
      EdgeAtBothEnds(edges, x, y);
      EdgeAtBothEnds(edges, y, x);
    }
  }

  /** s with the chosen edges: u is new and of the queried type, the other nodes are of another. */
  ghost predicate Ready(s: State, names: set<string>, typ: string, u: nat) {
    && u in s.nodes && s.nodes[u].typ == typ && s.nodes[u].name !in names && names <= s.nameToID.Keys
    && forall x {:trigger s.nodes[x]} :: x in s.nodes ==>
         s.nodes[x].children == {} && s.nodes[x].parents == {} && (x != u ==> s.nodes[x].typ != typ)
  }

  lemma OneAnswer(s: State, names: set<string>, typ: string, chosen: set<Variable>, u: nat, q: Query,
                  defaultName: string)
    requires Valid(s) && Ready(s, names, typ, u) && Valid(WithEdges(s, ChoiceEdges(s, chosen, u)))
    requires KnownQuery(q) && q.nodeType == typ && NameOf(q, defaultName) in names
    ensures QueryMeaning(UncachedEnv(WithEdges(s, ChoiceEdges(s, chosen, u)), defaultName), q)
            == Lone(VariableOf(defaultName, q) in chosen, u)
  {
    hide Valid, Reaches, QueryMeaning, UncachedEnv, ChoiceEdges, Targets, Sources, Touched;
    var t := WithEdges(s, ChoiceEdges(s, chosen, u));
    var name := NameOf(q, defaultName);
    ValidIndexed(s);
    var x := s.nameToID[name];
    NamedBack(s, name);
    assert x != u;
    ChoiceTargets(s, chosen, u, x);
    var g := if q.queryType == "dependencies" then ChildGraph(t.nodes) else ParentGraph(t.nodes);
    assert Succ(g, x) == Lone(VariableOf(defaultName, q) in chosen, u);
    if VariableOf(defaultName, q) in chosen {
      ReachesEdge(g, x, u);
    } else if Reaches(g, x, u) {
      ReachesStaysIn(g, {x}, x, u);
    }
    forall y
      ensures y in QueryMeaning(UncachedEnv(t, defaultName), q) <==> y in Lone(VariableOf(defaultName, q) in chosen, u)
    {
      QueryMeansReachable(t, q, defaultName, name, y);
      if y in t.nodes && y != u {
        assert t.nodes[y] == LinkedRecord(s.nodes[y], ChoiceEdges(s, chosen, u), y);
      }
    }
  }

  lemma NamedBack(s: State, name: string)
    requires Valid(s) && name in s.nameToID
    ensures s.nameToID[name] in s.nodes && s.nodes[s.nameToID[name]].name == name
  {
  }

  lemma StoreChooses(s: State, names: set<string>, typ: string, chosen: set<Variable>, u: nat, defaultName: string)
    requires Valid(s) && Ready(s, names, typ, u) && Valid(WithEdges(s, ChoiceEdges(s, chosen, u)))
    ensures Chooses(UncachedEnv(WithEdges(s, ChoiceEdges(s, chosen, u)), defaultName), names, typ, chosen, u)
  {
    hide Valid, Ready, QueryMeaning, ChoiceEdges, WithEdges, Uncached, Answer;
    var env := UncachedEnv(WithEdges(s, ChoiceEdges(s, chosen, u)), defaultName);
    forall q {:trigger QueryMeaning(env, q)} | KnownQuery(q) && q.nodeType == typ && NameOf(q, env.defaultName) in names
      ensures QueryMeaning(env, q) == Lone(VariableOf(env.defaultName, q) in chosen, u)
    {
      OneAnswer(s, names, typ, chosen, u, q, defaultName);
    }
  }

  /** A run that builds a node for each name and the node u. */
  lemma BuildReady(names: set<string>, typ: string) returns (ops: seq<Runs.Op>, u: nat)
    ensures CacheFree(ops) && Ready(Runs.Run(ops), names, typ, u)
  {
    hide Valid, Runs.Run, Runs.Step;
    var before := BuildNodes(names, typ + "'");
    var name := LongerName(names);
    ops := before + [Runs.AddNode(typ, name)];
    Runs.RunSnoc(before, Runs.AddNode(typ, name));
    StepAdds(Runs.Run(before), typ, name);
    u := Runs.Run(before).idCounter + 1;
    LastIsReady(Runs.Run(before), names, typ, name);
  }

  lemma LastIsReady(s: State, names: set<string>, typ: string, name: string)
    requires Valid(s) && Unlinked(s, typ + "'") && s.nameToID.Keys == names && name !in names
    ensures Ready(AddNodeStep(s, typ, name), names, typ, s.idCounter + 1)
  {
    hide Mirrored;
    assert |typ + "'"| != |typ|;
  }

  /** A run whose store makes exactly the chosen queries of a script hold u. */
  lemma BuildChoice(names: set<string>, typ: string, chosen: set<Variable>, defaultName: string)
      returns (ops: seq<Runs.Op>, u: nat)
    ensures CacheFree(ops) && names <= Runs.Run(ops).nameToID.Keys
    ensures u in Runs.Run(ops).nodes && Runs.Run(ops).nodes[u].typ == typ
    ensures Chooses(UncachedEnv(Runs.Run(ops), defaultName), names, typ, chosen, u)
  {
    hide Valid, Runs.Run, WithEdges, Chooses, UncachedEnv;
    var start;
    start, u := BuildReady(names, typ);
    var s := Runs.Run(start);
    ops := BuildEdges(start, ChoiceEdges(s, chosen, u));
    StoreChooses(s, names, typ, chosen, u, defaultName);
    SameNamesLinked(s, ChoiceEdges(s, chosen, u), u);
  }

  lemma SameNamesLinked(s: State, edges: set<Edge>, u: nat)
    requires u in s.nodes
    ensures WithEdges(s, edges).nameToID == s.nameToID
    ensures u in WithEdges(s, edges).nodes && WithEdges(s, edges).nodes[u].typ == s.nodes[u].typ
  {
  }

  // ---------- main results ----------

  /** In the store s the script evaluates to its set algebra over reachable sets. */
  ghost predicate ExactInStore(s: State, e: Expression, defaultName: string)
    requires Valid(s)
  {
    Eval(StoreEnv(s, defaultName), Some(e)) == Ok(Some(Meaning(UncachedEnv(s, defaultName), e, true)))
  }

  /** So it does after every run that keeps the caches exact and stores the script's names. */
  ghost predicate ExactInRuns(e: Expression, defaultName: string) {
    forall ops {:trigger Runs.Run(ops)} ::
      Runs.CachesCovered(ops) && AllNamed(Runs.Run(ops), e, defaultName) ==> ExactInStore(Runs.Run(ops), e, defaultName)
  }

  ghost function NamesIn(variables: set<Variable>): set<string> {
    set x | x in variables :: x.name
  }

  lemma NamesSuffice(s: State, e: Expression, defaultName: string)
    requires NamesIn(Variables(defaultName, e)) <= s.nameToID.Keys
    ensures AllNamed(s, e, defaultName)
  {
    hide Variables, Queried;
    forall p, queryType | p in Queried(Some(e), queryType, defaultName)
      ensures p.purl in s.nameToID
    {
      QueriedIsVariable(defaultName, e, queryType, p);
      assert p.purl in NamesIn(Variables(defaultName, e));
    }
  }

  /** In the built store a variable's list holds u exactly when the variable is chosen. */
  lemma ChosenHolds(env: Env, names: set<string>, typ: string, chosen: set<Variable>, u: nat, variables: set<Variable>)
    requires Chooses(env, names, typ, chosen, u) && u in env.nodes && env.nodes[u].typ == typ
    requires About(variables, names) && KnownVariables(variables)
    ensures HoldsY(env, variables, chosen, u)
  {
    hide QueryMeaning, ListOf;
    forall x {:trigger x in variables} | x in variables
      ensures x in chosen <==> u in ListOf(env, x)
    {
      var q := Query(x.queryType, typ, Some(x.name));
      QueryMeaningIs(env, q);
      assert VariableOf(env.defaultName, q) == x;
      assert NameOf(q, env.defaultName) in names && KnownQuery(q);
      assert QueryMeaning(env, q) == Lone(x in chosen, u);
      assert u in QueryMeaning(env, q) <==> u in OfType(env.nodes, ListOf(env, x), typ);
    }
  }

  /** A script whose brackets matter in the table has a run after which it evaluates to something else than its set
      algebra. */
  lemma HarmShowsInRun(e: Expression, defaultName: string) returns (ops: seq<Runs.Op>)
    requires WellFormed(e) && !Harmless(defaultName, e)
    ensures CacheFree(ops) && AllNamed(Runs.Run(ops), e, defaultName) && !ExactInStore(Runs.Run(ops), e, defaultName)
  {
    hide Valid, Runs.Run, Eval, Meaning, WellFormed, Holds, Chooses, AllNamed, Variables, Types, UncachedEnv, StoreEnv,
         Answers, Runs.Exact, HoldsY, About, KnownVariables;
    var typ, chosen :| Holds(defaultName, typ, e, true, chosen) != Holds(defaultName, typ, e, false, chosen);
    var names := NamesIn(Variables(defaultName, e));
    var u;
    ops, u := BuildChoice(names, typ, chosen, defaultName);
    var s := Runs.Run(ops);
    var env := UncachedEnv(s, defaultName);
    NamesSuffice(s, e, defaultName);
    CacheFreeExact(ops);
    CachedSeesTheSame(s, defaultName);
    ScriptAnswered(s, e, defaultName);
    EvalBlanksBrackets(env, e);
    EnvParts(s, defaultName);
    AboutNames(Variables(defaultName, e));
    VariablesKnown(defaultName, e);
    ChosenHolds(env, names, typ, chosen, u, Variables(defaultName, e));
    MeaningAt(env, e, true, chosen, u);
    MeaningAt(env, e, false, chosen, u);
  }

  lemma AboutNames(variables: set<Variable>)
    ensures About(variables, NamesIn(variables))
  {
  }

  lemma EnvParts(s: State, defaultName: string)
    requires Valid(s)
    ensures UncachedEnv(s, defaultName).defaultName == defaultName && UncachedEnv(s, defaultName).nodes == s.nodes
  {
    hide Valid, Uncached, Answer;
  }

  /** A well-formed script evaluates to its set algebra after every run exactly when, by the truth table over its own
      queries, emptying its brackets changes nothing. */
  lemma ExactIffHarmless(e: Expression, defaultName: string)
    requires WellFormed(e)
    ensures ExactInRuns(e, defaultName) <==> Harmless(defaultName, e)
  {
    hide Valid, Runs.Run, ExactInStore, WellFormed, Harmless, AllNamed, Runs.Exact;
    if Harmless(defaultName, e) {
      forall ops {:trigger Runs.Run(ops)} | Runs.CachesCovered(ops) && AllNamed(Runs.Run(ops), e, defaultName)
        ensures ExactInStore(Runs.Run(ops), e, defaultName)
      {
        HarmlessExact(ops, e, defaultName);
      }
    } else {
      var ops := HarmShowsInRun(e, defaultName);
      CacheFreeCovered(ops);
      assert !ExactInStore(Runs.Run(ops), e, defaultName);
    }
  }

  lemma HarmlessExact(ops: seq<Runs.Op>, e: Expression, defaultName: string)
    requires WellFormed(e) && Harmless(defaultName, e)
    requires Runs.CachesCovered(ops) && AllNamed(Runs.Run(ops), e, defaultName)
    ensures ExactInStore(Runs.Run(ops), e, defaultName)
  {
    hide Valid, Runs.Run, WellFormed, Harmless, AllNamed, Runs.Exact, Eval, Meaning, UncachedEnv, StoreEnv, Answers;
    var s := Runs.Run(ops);
    Runs.RunExactIff(ops);
    Runs.ExactNow(ops);
    CachedSeesTheSame(s, defaultName);
    ScriptAnswered(s, e, defaultName);
    EvalBlanksBrackets(UncachedEnv(s, defaultName), e);
    EnvParts(s, defaultName);
    HarmlessMeaning(UncachedEnv(s, defaultName), e);
  }

  /** So a script over one node type that asks nothing twice does exactly when it has no bracket. */
  lemma ExactIffBracketFree(e: Expression, typ: string, defaultName: string)
    requires WellFormed(e) && ReadOnce(defaultName, typ, e)
    ensures ExactInRuns(e, defaultName) <==> BracketFree(e)
  {
    hide ExactInRuns, WellFormed, ReadOnce, BracketFree, Harmless;
    ExactIffHarmless(e, defaultName);
    HarmlessIffBracketFree(defaultName, typ, e);
  }
}
