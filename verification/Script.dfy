/**
 Query scripts as parsed: what they collect, what iterateExpression makes of them, and the set algebra they stand for.
 */
module Script {
  import opened Results
  import opened Store

  datatype Query = Query(queryType: string, nodeType: string, nodeName: Option<string>)

  /** The grammar gives a term either a query or a bracketed expression. */
  datatype Term = Term(query: Option<Query>, expression: Option<Expression>)

  datatype Expression = Expression(left: Term, op: Option<string>, right: Option<Expression>)

  /** What an evaluation looks things up in. */
  datatype Env = Env(names: map<string, nat>, nodes: map<nat, NodeRecord>, dependencies: map<nat, set<nat>>,
    dependents: map<nat, set<nat>>, defaultName: string)

  function NameOf(q: Query, defaultName: string): string {
    if q.nodeName.Some? then q.nodeName.value else defaultName
  }

  // ---------- collectPackages ----------

  datatype PurlData = PurlData(purl: string, typ: string)

  function CollectQuery(q: Query, queryType: string, defaultName: string): seq<PurlData> {
    if q.queryType == queryType then [PurlData(NameOf(q, defaultName), q.nodeType)] else []
  }

  /** The queries of one type, in the order of the script, bracketed ones included. */
  function Queried(e: Option<Expression>, queryType: string, defaultName: string): seq<PurlData> {
    if e.None? then []
    else QueriedTerm(e.value.left, queryType, defaultName) + Queried(e.value.right, queryType, defaultName)
  }

  function QueriedTerm(t: Term, queryType: string, defaultName: string): seq<PurlData> {
    (if t.query.None? then []
      else CollectQuery(t.query.value, queryType, defaultName)) + Queried(t.expression, queryType, defaultName)
  }

  // ---------- iterateExpression ----------

  function IDOf(env: Env, q: Query): nat {
    var name := NameOf(q, env.defaultName);
    if name in env.names then env.names[name] else 0
  }

  function OfType(nodes: map<nat, NodeRecord>, ids: set<nat>, typ: string): set<nat> {
    set x | x in ids && x in nodes && nodes[x].typ == typ
  }

  /** The answer of one query; a missing bitmap is a nil pointer. */
  function EvalQuery(env: Env, q: Query): Result<set<nat>> {
    var id := IDOf(env, q);
    if q.queryType == "dependencies" then
      if id in env.dependencies then Ok(OfType(env.nodes, env.dependencies[id], q.nodeType)) else Err(KeyNotFound)
    else if q.queryType == "dependents" then
      if id in env.dependents then Ok(OfType(env.nodes, env.dependents[id], q.nodeType)) else Err(KeyNotFound)
    else Err(UnknownQuery)
  }

  predicate KnownOperator(op: string) {
    op == "or" || op == "and" || op == "xor"
  }

  function Combine(op: string, a: set<nat>, b: set<nat>): set<nat> {
    if op == "or" then a + b else if op == "and" then a * b else (a - b) + (b - a)
  }

  /** iterateExpression, on sets: no expression gives no bitmap. */
  function Eval(env: Env, e: Option<Expression>): Result<Option<set<nat>>> {
    if e.None? then Ok(None)
    else
      var l := EvalTerm(env, e.value.left);
      if l.Err? then Err(l.error)
      else if e.value.op.None? then Ok(Some(l.value))
      else
        var r := Eval(env, e.value.right);
        if r.Err? then Err(r.error)
        else if !KnownOperator(e.value.op.value) then Err(UnknownOperator)
        else if r.value.None? then Err(NilOperand)
        else Ok(Some(Combine(e.value.op.value, l.value, r.value.value)))
  }

  /** iterateTerm: the value of a bracketed expression is computed and dropped. */
  function EvalTerm(env: Env, t: Term): Result<set<nat>> {
    var q := if t.query.None? then Ok({}) else EvalQuery(env, t.query.value);
    if q.Err? then q
    else
      var inner := Eval(env, t.expression);
      if inner.Err? then Err(inner.error) else q
  }

  // ---------- what a script means ----------

  /** Each term is one query or one bracketed script, queries are known, and an operand follows each known operator and
      nothing else. */
  predicate WellFormed(e: Expression) {
    WellFormedTerm(e.left) && (e.op.Some? <==> e.right.Some?)
    && (e.op.Some? ==> KnownOperator(e.op.value)) && (e.right.Some? ==> WellFormed(e.right.value))
  }

  predicate WellFormedTerm(t: Term) {
    && (t.query.Some? <==> t.expression.None?)
    && (t.query.Some? ==> t.query.value.queryType == "dependencies" || t.query.value.queryType == "dependents")
    && (t.expression.Some? ==> WellFormed(t.expression.value))
  }

  predicate BracketFree(e: Expression) {
    e.left.expression.None? && (e.right.Some? ==> BracketFree(e.right.value))
  }

  /** The nodes of the queried type among those the queried node reaches. */
  function QueryMeaning(env: Env, q: Query): set<nat> {
    var lists := if q.queryType == "dependencies" then env.dependencies else env.dependents;
    var id := IDOf(env, q);
    if id in lists then OfType(env.nodes, lists[id], q.nodeType) else {}
  }

  /** The right-associated set algebra of a script. `keep` says whether brackets stand for their contents or for
      nothing. */
  function Meaning(env: Env, e: Expression, keep: bool): set<nat> {
    var l := TermMeaning(env, e.left, keep);
    if e.op.Some? && e.right.Some? then Combine(e.op.value, l, Meaning(env, e.right.value, keep)) else l
  }

  function TermMeaning(env: Env, t: Term, keep: bool): set<nat> {
    if t.query.Some? then QueryMeaning(env, t.query.value)
    else if t.expression.Some? && keep then Meaning(env, t.expression.value, keep)
    else {}
  }

  // ---------- only collected nodes are looked up ----------

  ghost predicate AnswersIn(lists: map<nat, set<nat>>, names: map<string, nat>, wanted: seq<PurlData>) {
    forall p {:trigger p in wanted} :: p in wanted ==> p.purl in names && names[p.purl] in lists
  }

  /** Every collected name has an ID, and that ID an answer. */
  ghost predicate Answers(env: Env, e: Option<Expression>) {
    && AnswersIn(env.dependencies, env.names, Queried(e, "dependencies", env.defaultName))
    && AnswersIn(env.dependents, env.names, Queried(e, "dependents", env.defaultName))
  }

  lemma AnswersParts(env: Env, e: Expression)
    requires Answers(env, Some(e))
    ensures Answers(env, e.left.expression) && Answers(env, e.right)
    ensures e.left.query.Some? ==> EvalQuery(env, e.left.query.value) != Err(KeyNotFound)
  {
    forall queryType
      ensures forall p ::
                p in Queried(e.left.expression, queryType, env.defaultName) ==>
                  p in Queried(Some(e), queryType, env.defaultName)
      ensures forall p ::
                p in Queried(e.right, queryType, env.defaultName) ==> p in Queried(Some(e), queryType, env.defaultName)
      ensures e.left.query.Some? ==> forall p ::
                p in CollectQuery(e.left.query.value, queryType, env.defaultName) ==>
                  p in Queried(Some(e), queryType, env.defaultName)
    {
      hide CollectQuery;
    }
    if e.left.query.Some? {
      var q := e.left.query.value;
      var p := PurlData(NameOf(q, env.defaultName), q.nodeType);
      assert p in CollectQuery(q, q.queryType, env.defaultName);
      assert p in Queried(Some(e), q.queryType, env.defaultName);
    }
  }

  /** With an answer for each collected query, no lookup misses, in any script. */
  lemma {:induction false} NeverMisses(env: Env, e: Option<Expression>)
    requires Answers(env, e)
    ensures Eval(env, e) != Err(KeyNotFound)
    decreases e
  {
    hide Answers, EvalQuery, Queried;
    if e.Some? {
      AnswersParts(env, e.value);
      NeverMisses(env, e.value.left.expression);
      NeverMisses(env, e.value.right);
    }
  }

  /** Answers beyond the collected ones make no difference. */
  lemma {:induction false} OnlyCollected(env: Env, full: Env, e: Option<Expression>)
    requires Answers(env, e) && full == env.(dependencies := full.dependencies, dependents := full.dependents)
    requires forall x :: x in env.dependencies ==> x in full.dependencies && full.dependencies[x] == env.dependencies[x]
    requires forall x :: x in env.dependents ==> x in full.dependents && full.dependents[x] == env.dependents[x]
    ensures Eval(full, e) == Eval(env, e)
    decreases e
  {
    if e.Some? {
      AnswersParts(env, e.value);
      hide Answers, Queried, OfType, KnownOperator;
      OnlyCollected(env, full, e.value.left.expression);
      OnlyCollected(env, full, e.value.right);
      if e.value.left.query.Some? {
        SameQuery(env, full, e.value.left.query.value);
      }
    }
  }

  lemma SameQuery(env: Env, full: Env, q: Query)
    requires EvalQuery(env, q) != Err(KeyNotFound)
             && full == env.(dependencies := full.dependencies, dependents := full.dependents)
    requires forall x :: x in env.dependencies ==> x in full.dependencies && full.dependencies[x] == env.dependencies[x]
    requires forall x :: x in env.dependents ==> x in full.dependents && full.dependents[x] == env.dependents[x]
    ensures EvalQuery(full, q) == EvalQuery(env, q)
  {
    assert IDOf(full, q) == IDOf(env, q);
  }

  // ---------- evaluation and meaning ----------

  /** Evaluation is the set algebra with every bracket taken for the empty set. */
  lemma {:induction false} EvalBlanksBrackets(env: Env, e: Expression)
    requires WellFormed(e) && Answers(env, Some(e))
    ensures Eval(env, Some(e)) == Ok(Some(Meaning(env, e, false)))
    decreases e
  {
    AnswersParts(env, e);
    hide Answers, Queried, OfType, Combine;
    if e.left.expression.Some? {
      EvalBlanksBrackets(env, e.left.expression.value);
      assert Some(e.left.expression.value) == e.left.expression;
    }
    if e.right.Some? {
      EvalBlanksBrackets(env, e.right.value);
      assert Some(e.right.value) == e.right;
    }
    if e.left.query.Some? {
      assert EvalQuery(env, e.left.query.value) == Ok(QueryMeaning(env, e.left.query.value));
    }
    assert EvalTerm(env, e.left) == Ok(TermMeaning(env, e.left, false));
  }

  lemma {:induction false} NothingToBlank(env: Env, e: Expression)
    requires BracketFree(e)
    ensures Meaning(env, e, false) == Meaning(env, e, true)
  {
    hide Combine, QueryMeaning;
    if e.right.Some? {
      NothingToBlank(env, e.right.value);
    }
  }

  /** Without brackets, evaluation is the right-associated set algebra of the script. */
  lemma BracketFreeIsExact(env: Env, e: Expression)
    requires WellFormed(e) && Answers(env, Some(e)) && BracketFree(e)
    ensures Eval(env, Some(e)) == Ok(Some(Meaning(env, e, true)))
  {
    EvalBlanksBrackets(env, e);
    NothingToBlank(env, e);
  }

  // ---------- operators and names ----------

  /** What an operator makes of two values: "or", "and" and "xor" combine them node by node, any other is an error, and
      so is one of these without a second operand. */
  lemma OperatorResult(env: Env, e: Expression, x: nat)
    requires e.op.Some? && EvalTerm(env, e.left).Ok? && Eval(env, e.right).Ok?
    ensures var l, r := EvalTerm(env, e.left).value, Eval(env, e.right).value; var v := Eval(env, Some(e));
            if e.op.value !in {"or", "and", "xor"} then v == Err(UnknownOperator)
            else if r.None? then v == Err(NilOperand)
            else v.Ok? && v.value.Some?
                 && (e.op.value == "or" ==> (x in v.value.value <==> x in l || x in r.value))
                 && (e.op.value == "and" ==> (x in v.value.value <==> x in l && x in r.value))
                 && (e.op.value == "xor" ==> (x in v.value.value <==> (x in l) != (x in r.value)))
  {
  }

  /** Every query is of a known type and every operator a known one with a second operand, in brackets too. */
  predicate CanRun(e: Expression) {
    CanRunTerm(e.left)
    && (e.op.Some? ==> e.op.value in {"or", "and", "xor"} && e.right.Some? && CanRun(e.right.value))
  }

  predicate CanRunTerm(t: Term) {
    && (t.query.Some? ==> t.query.value.queryType in {"dependencies", "dependents"})
    && (t.expression.Some? ==> CanRun(t.expression.value))
  }

  /** With an answer for each collected query, evaluation fails exactly when some part of the script, bracketed or not,
      cannot run. */
  lemma {:induction false} CanRunIff(env: Env, e: Expression)
    requires Answers(env, Some(e))
    ensures Eval(env, Some(e)).Ok? <==> CanRun(e)
    ensures Eval(env, Some(e)).Ok? ==> Eval(env, Some(e)).value.Some?
    decreases e
  {
    AnswersParts(env, e);
    hide Answers, Queried, OfType, Combine;
    if e.left.expression.Some? {
      CanRunIff(env, e.left.expression.value);
      assert Some(e.left.expression.value) == e.left.expression;
    }
    if e.right.Some? {
      CanRunIff(env, e.right.value);
      assert Some(e.right.value) == e.right;
    }
    assert EvalTerm(env, e.left).Ok? <==> CanRunTerm(e.left);
  }

  /** The script with the default name written into the queries that leave it out. */
  function Filled(e: Option<Expression>, defaultName: string): Option<Expression> {
    if e.None? then None
    else Some(Expression(FilledTerm(e.value.left, defaultName), e.value.op, Filled(e.value.right, defaultName)))
  }

  function FilledTerm(t: Term, defaultName: string): Term {
    Term(if t.query.Some? && t.query.value.nodeName.None? then Some(t.query.value.(nodeName := Some(defaultName)))
      else t.query, Filled(t.expression, defaultName))
  }

  /** A query without a name is about the default one; afterwards the default makes no difference. */
  lemma {:induction false} DefaultFilled(env: Env, e: Option<Expression>, other: string)
    ensures Eval(env.(defaultName := other), Filled(e, env.defaultName)) == Eval(env, e)
    decreases e
  {
    if e.Some? {
      hide Combine, KnownOperator, OfType;
      var t := e.value.left;
      DefaultFilled(env, t.expression, other);
      DefaultFilled(env, e.value.right, other);
      var full := env.(defaultName := other);
      if t.query.Some? {
        var q, f := t.query.value, FilledTerm(t, env.defaultName).query.value;
        assert IDOf(full, f) == IDOf(env, q);
        assert EvalQuery(full, f) == EvalQuery(env, q);
      }
      assert EvalTerm(full, FilledTerm(t, env.defaultName)) == EvalTerm(env, t);
    }
  }

  // ---------- with brackets ----------

  /** A query as a variable: its direction and the name it is about. */
  datatype Variable = Variable(queryType: string, name: string)

  function VariableOf(defaultName: string, q: Query): Variable {
    Variable(q.queryType, NameOf(q, defaultName))
  }

  function Variables(defaultName: string, e: Expression): set<Variable> {
    TermVariables(defaultName, e.left) + (if e.right.Some? then Variables(defaultName, e.right.value) else {})
  }

  function TermVariables(defaultName: string, t: Term): set<Variable> {
    (if t.query.Some? then {VariableOf(defaultName, t.query.value)} else {})
    + (if t.expression.Some? then Variables(defaultName, t.expression.value) else {})
  }

  /** No query is about the same name in the same direction as another, and all ask for nodes of one type. */
  predicate ReadOnce(defaultName: string, typ: string, e: Expression) {
    && ReadOnceTerm(defaultName, typ, e.left)
    && (e.right.Some? ==>
          && ReadOnce(defaultName, typ, e.right.value)
          && TermVariables(defaultName, e.left) !! Variables(defaultName, e.right.value))
  }

  predicate ReadOnceTerm(defaultName: string, typ: string, t: Term) {
    && (t.query.Some? ==> t.query.value.nodeType == typ)
    && (t.expression.Some? ==> ReadOnce(defaultName, typ, t.expression.value))
  }

  /** Every collected name is the name of a variable. */
  lemma {:induction false} QueriedIsVariable(defaultName: string, e: Expression, queryType: string, p: PurlData)
    requires p in Queried(Some(e), queryType, defaultName)
    ensures Variable(queryType, p.purl) in Variables(defaultName, e)
    decreases e
  {
    var rest := Queried(e.right, queryType, defaultName);
    var inner := Queried(e.left.expression, queryType, defaultName);
    if p in rest {
      assert Some(e.right.value) == e.right;
      QueriedIsVariable(defaultName, e.right.value, queryType, p);
    } else if p in inner {
      assert Some(e.left.expression.value) == e.left.expression;
      QueriedIsVariable(defaultName, e.left.expression.value, queryType, p);
    } else {
      assert p in QueriedTerm(e.left, queryType, defaultName);
      assert e.left.query.Some? && p in CollectQuery(e.left.query.value, queryType, defaultName);
    }
  }

  /** Whether a node of type typ is in the meaning when exactly the chosen queries hold it. */
  predicate Holds(defaultName: string, typ: string, e: Expression, keep: bool, chosen: set<Variable>) {
    var l := TermHolds(defaultName, typ, e.left, keep, chosen);
    if e.op.Some? && e.right.Some? then
      var r := Holds(defaultName, typ, e.right.value, keep, chosen);
      if e.op.value == "or" then l || r else if e.op.value == "and" then l && r else l != r
    else l
  }

  predicate TermHolds(defaultName: string, typ: string, t: Term, keep: bool, chosen: set<Variable>) {
    if t.query.Some? then t.query.value.nodeType == typ && VariableOf(defaultName, t.query.value) in chosen
    else t.expression.Some? && keep && Holds(defaultName, typ, t.expression.value, keep, chosen)
  }

  /** The node types that a script asks for. */
  function Types(e: Expression): set<string> {
    TermTypes(e.left) + (if e.right.Some? then Types(e.right.value) else {})
  }

  function TermTypes(t: Term): set<string> {
    (if t.query.Some? then {t.query.value.nodeType} else {})
    + (if t.expression.Some? then Types(t.expression.value) else {})
  }

  /** By the truth table over the script's own queries, emptying its brackets changes nothing. */
  ghost predicate Harmless(defaultName: string, e: Expression) {
    forall typ, chosen {:trigger Holds(defaultName, typ, e, true, chosen)} ::
      typ in Types(e) && chosen <= Variables(defaultName, e) ==>
        Holds(defaultName, typ, e, true, chosen) == Holds(defaultName, typ, e, false, chosen)
  }

  predicate KnownQuery(q: Query) {
    q.queryType == "dependencies" || q.queryType == "dependents"
  }

  /** Of the queries for typ about the given names, exactly the chosen ones answer with node u, and the others with
      nothing. */
  ghost predicate Chooses(env: Env, names: set<string>, typ: string, chosen: set<Variable>, u: nat) {
    forall q {:trigger QueryMeaning(env, q)} ::
      KnownQuery(q) && q.nodeType == typ && NameOf(q, env.defaultName) in names ==>
        QueryMeaning(env, q) == Lone(VariableOf(env.defaultName, q) in chosen, u)
  }

  ghost predicate About(variables: set<Variable>, names: set<string>) {
    forall x {:trigger x in variables} :: x in variables ==> x.name in names
  }

  ghost predicate KnownVariables(variables: set<Variable>) {
    forall x {:trigger x in variables} ::
      x in variables ==> x.queryType == "dependencies" || x.queryType == "dependents"
  }

  lemma {:induction false} VariablesKnown(defaultName: string, e: Expression)
    requires WellFormed(e)
    ensures KnownVariables(Variables(defaultName, e))
    decreases e
  {
    if e.left.expression.Some? {
      VariablesKnown(defaultName, e.left.expression.value);
    }
    if e.right.Some? {
      VariablesKnown(defaultName, e.right.value);
    }
  }

  function Lone(b: bool, u: nat): set<nat> {
    if b then {u} else {}
  }

  // ---------- a meaning, node by node ----------

  /** The list that answers a variable. */
  function ListOf(env: Env, x: Variable): set<nat> {
    var lists := if x.queryType == "dependencies" then env.dependencies else env.dependents;
    var id := if x.name in env.names then env.names[x.name] else 0;
    if id in lists then lists[id] else {}
  }

  lemma QueryMeaningIs(env: Env, q: Query)
    ensures QueryMeaning(env, q) == OfType(env.nodes, ListOf(env, VariableOf(env.defaultName, q)), q.nodeType)
  {
  }

  /** The variables of a script whose lists hold y. */
  ghost predicate HoldsY(env: Env, variables: set<Variable>, chosen: set<Variable>, y: nat) {
    forall x {:trigger x in variables} :: x in variables ==> (x in chosen <==> y in ListOf(env, x))
  }

  lemma HoldsYPart(env: Env, all: set<Variable>, some: set<Variable>, chosen: set<Variable>, y: nat)
    requires HoldsY(env, all, chosen, y) && some <= all
    ensures HoldsY(env, some, chosen, y)
  {
    hide ListOf;
  }

  /** A node is in a meaning exactly when Holds says so of its type and the queries whose lists hold it. */
  lemma {:induction false} MeaningAt(env: Env, e: Expression, keep: bool, chosen: set<Variable>, y: nat)
    requires y in env.nodes && HoldsY(env, Variables(env.defaultName, e), chosen, y)
    ensures y in Meaning(env, e, keep) <==> Holds(env.defaultName, env.nodes[y].typ, e, keep, chosen)
    decreases e
  {
    hide HoldsY, QueryMeaning, ListOf;
    var d := env.defaultName;
    HoldsYPart(env, Variables(d, e), TermVariables(d, e.left), chosen, y);
    TermMeaningAt(env, e.left, keep, chosen, y);
    if e.right.Some? {
      HoldsYPart(env, Variables(d, e), Variables(d, e.right.value), chosen, y);
      MeaningAt(env, e.right.value, keep, chosen, y);
    }
  }

  lemma {:induction false} TermMeaningAt(env: Env, t: Term, keep: bool, chosen: set<Variable>, y: nat)
    requires y in env.nodes && HoldsY(env, TermVariables(env.defaultName, t), chosen, y)
    ensures y in TermMeaning(env, t, keep) <==> TermHolds(env.defaultName, env.nodes[y].typ, t, keep, chosen)
    decreases t
  {
    hide ListOf, Meaning, Holds;
    var d := env.defaultName;
    if t.query.Some? {
      QueryMeaningIs(env, t.query.value);
      assert VariableOf(d, t.query.value) in TermVariables(d, t);
    } else if t.expression.Some? {
      HoldsYPart(env, TermVariables(d, t), Variables(d, t.expression.value), chosen, y);
      MeaningAt(env, t.expression.value, keep, chosen, y);
    }
  }

  /** Only stored nodes are in a meaning. */
  lemma {:induction false} MeaningStored(env: Env, e: Expression, keep: bool)
    ensures Meaning(env, e, keep) <= env.nodes.Keys
    decreases e
  {
    hide QueryMeaning;
    if e.left.query.Some? {
      QueryMeaningIs(env, e.left.query.value);
    } else if e.left.expression.Some? {
      MeaningStored(env, e.left.expression.value, keep);
    }
    if e.right.Some? {
      MeaningStored(env, e.right.value, keep);
    }
  }

  // ---------- the truth table ----------

  lemma AgreeWithin(a: set<Variable>, b: set<Variable>, all: set<Variable>, some: set<Variable>)
    requires a * all == b * all && some <= all
    ensures a * some == b * some
  {
    assert forall x :: x in a * some ==> x in a * all;
    assert forall x :: x in b * some ==> x in b * all;
  }

  /** Only a script's own variables matter to it. */
  lemma {:induction false} OwnVariables(defaultName: string, typ: string, e: Expression, keep: bool, a: set<Variable>,
                                        b: set<Variable>)
    requires a * Variables(defaultName, e) == b * Variables(defaultName, e)
    ensures Holds(defaultName, typ, e, keep, a) == Holds(defaultName, typ, e, keep, b)
    decreases e
  {
    AgreeWithin(a, b, Variables(defaultName, e), TermVariables(defaultName, e.left));
    OwnTermVariables(defaultName, typ, e.left, keep, a, b);
    if e.right.Some? {
      AgreeWithin(a, b, Variables(defaultName, e), Variables(defaultName, e.right.value));
      OwnVariables(defaultName, typ, e.right.value, keep, a, b);
    }
  }

  lemma {:induction false} OwnTermVariables(defaultName: string, typ: string, t: Term, keep: bool, a: set<Variable>,
                                            b: set<Variable>)
    requires a * TermVariables(defaultName, t) == b * TermVariables(defaultName, t)
    ensures TermHolds(defaultName, typ, t, keep, a) == TermHolds(defaultName, typ, t, keep, b)
    decreases t
  {
    if t.query.Some? {
      assert VariableOf(defaultName, t.query.value) in TermVariables(defaultName, t);
      assert VariableOf(defaultName, t.query.value) in a <==>
        VariableOf(defaultName, t.query.value) in a * TermVariables(defaultName, t);
      assert VariableOf(defaultName, t.query.value) in b <==>
        VariableOf(defaultName, t.query.value) in b * TermVariables(defaultName, t);
    } else if t.expression.Some? {
      AgreeWithin(a, b, TermVariables(defaultName, t), Variables(defaultName, t.expression.value));
      OwnVariables(defaultName, typ, t.expression.value, keep, a, b);
    }
  }

  lemma {:induction false} NoneChosen(defaultName: string, typ: string, e: Expression, keep: bool)
    ensures !Holds(defaultName, typ, e, keep, {})
    decreases e
  {
    if e.left.expression.Some? {
      NoneChosen(defaultName, typ, e.left.expression.value, keep);
    }
    if e.right.Some? {
      NoneChosen(defaultName, typ, e.right.value, keep);
    }
  }

  /** Choices for the two sides of an operator do not disturb each other. */
  lemma BothSides(defaultName: string, typ: string, e: Expression, keep: bool, l: set<Variable>, r: set<Variable>)
    requires ReadOnce(defaultName, typ, e) && e.right.Some? && l <= TermVariables(defaultName, e.left)
             && r <= Variables(defaultName, e.right.value)
    ensures TermHolds(defaultName, typ, e.left, keep, l + r) == TermHolds(defaultName, typ, e.left, keep, l)
    ensures Holds(defaultName, typ, e.right.value, keep, l + r) == Holds(defaultName, typ, e.right.value, keep, r)
  {
    hide ReadOnceTerm, Variables, TermVariables;
    OwnTermVariables(defaultName, typ, e.left, keep, l + r, l);
    OwnVariables(defaultName, typ, e.right.value, keep, l + r, r);
  }

  /** Every script can be made to hold a node. */
  lemma {:induction false} CanHold(defaultName: string, typ: string, e: Expression) returns (chosen: set<Variable>)
    requires WellFormed(e) && ReadOnce(defaultName, typ, e)
    ensures chosen <= Variables(defaultName, e) && Holds(defaultName, typ, e, true, chosen)
    decreases e
  {
    var l := TermCanHold(defaultName, typ, e.left);
    chosen := l;
    if e.right.Some? {
      var r: set<Variable> := {};
      if e.op.value == "and" {
        r := CanHold(defaultName, typ, e.right.value);
      }
      NoneChosen(defaultName, typ, e.right.value, true);
      BothSides(defaultName, typ, e, true, l, r);
      chosen := l + r;
    }
  }

  lemma {:induction false} TermCanHold(defaultName: string, typ: string, t: Term) returns (chosen: set<Variable>)
    requires WellFormedTerm(t) && ReadOnceTerm(defaultName, typ, t)
    ensures chosen <= TermVariables(defaultName, t) && TermHolds(defaultName, typ, t, true, chosen)
    decreases t
  {
    if t.query.Some? {
      chosen := {VariableOf(defaultName, t.query.value)};
    } else {
      chosen := CanHold(defaultName, typ, t.expression.value);
    }
  }

  /** A script with a bracket can be made to hold a node that it loses when the bracket is emptied. */
  lemma {:induction false} BracketMatters(defaultName: string, typ: string, e: Expression)
      returns (chosen: set<Variable>)
    requires WellFormed(e) && ReadOnce(defaultName, typ, e) && !BracketFree(e)
    ensures chosen <= Variables(defaultName, e)
            && Holds(defaultName, typ, e, true, chosen) != Holds(defaultName, typ, e, false, chosen)
    decreases e
  {
    var l, r: set<Variable> := {}, {};
    if e.left.expression.Some? {
      l := TermCanHold(defaultName, typ, e.left);
      if e.right.Some? && e.op.value == "and" {
        r := CanHold(defaultName, typ, e.right.value);
      }
    } else {
      r := BracketMatters(defaultName, typ, e.right.value);
      if e.op.value == "and" {
        l := {VariableOf(defaultName, e.left.query.value)};
      }
    }
    chosen := l + r;
    if e.right.Some? {
      NoneChosen(defaultName, typ, e.right.value, true);
      NoneChosen(defaultName, typ, e.right.value, false);
      BothSides(defaultName, typ, e, true, l, r);
      BothSides(defaultName, typ, e, false, l, r);
    } else {
      assert chosen == l;
    }
  }

  /** A type that no query asks for is nowhere in the meaning. */
  lemma {:induction false} OtherType(defaultName: string, typ: string, e: Expression, keep: bool, chosen: set<Variable>)
    requires typ !in Types(e)
    ensures !Holds(defaultName, typ, e, keep, chosen)
    decreases e
  {
    if e.left.expression.Some? {
      OtherType(defaultName, typ, e.left.expression.value, keep, chosen);
    }
    if e.right.Some? {
      OtherType(defaultName, typ, e.right.value, keep, chosen);
    }
  }

  /** The table speaks for every type and every choice of queries. */
  lemma HarmlessAnywhere(defaultName: string, e: Expression, typ: string, chosen: set<Variable>)
    requires Harmless(defaultName, e)
    ensures Holds(defaultName, typ, e, true, chosen) == Holds(defaultName, typ, e, false, chosen)
  {
    hide Holds, Variables, Types;
    if typ in Types(e) {
      var own := chosen * Variables(defaultName, e);
      assert own * Variables(defaultName, e) == own;
      OwnVariables(defaultName, typ, e, true, chosen, own);
      OwnVariables(defaultName, typ, e, false, chosen, own);
    } else {
      OtherType(defaultName, typ, e, true, chosen);
      OtherType(defaultName, typ, e, false, chosen);
    }
  }

  /** Where emptying the brackets changes nothing in the table, it changes nothing in any environment. */
  lemma HarmlessMeaning(env: Env, e: Expression)
    requires Harmless(env.defaultName, e)
    ensures Meaning(env, e, true) == Meaning(env, e, false)
  {
    hide Meaning, Holds, Harmless, Variables, ListOf;
    MeaningStored(env, e, true);
    MeaningStored(env, e, false);
    forall y | y in env.nodes
      ensures y in Meaning(env, e, true) <==> y in Meaning(env, e, false)
    {
      var chosen := set x | x in Variables(env.defaultName, e) && y in ListOf(env, x);
      MeaningAt(env, e, true, chosen, y);
      MeaningAt(env, e, false, chosen, y);
      HarmlessAnywhere(env.defaultName, e, env.nodes[y].typ, chosen);
    }
  }

  /** Without brackets there is nothing to empty. */
  lemma BracketFreeHarmless(defaultName: string, e: Expression)
    requires BracketFree(e)
    ensures Harmless(defaultName, e)
  {
    hide Holds, BracketFree, Variables, Types;
    forall typ, chosen {:trigger Holds(defaultName, typ, e, true, chosen)} |
      typ in Types(e) && chosen <= Variables(defaultName, e)
      ensures Holds(defaultName, typ, e, true, chosen) == Holds(defaultName, typ, e, false, chosen)
    {
      NothingToEmpty(defaultName, typ, e, chosen);
    }
  }

  lemma {:induction false} NothingToEmpty(defaultName: string, typ: string, e: Expression, chosen: set<Variable>)
    requires BracketFree(e)
    ensures Holds(defaultName, typ, e, true, chosen) == Holds(defaultName, typ, e, false, chosen)
  {
    if e.right.Some? {
      NothingToEmpty(defaultName, typ, e.right.value, chosen);
    }
  }

  /** In a script over one node type that asks nothing twice every bracket matters. */
  lemma HarmlessIffBracketFree(defaultName: string, typ: string, e: Expression)
    requires WellFormed(e) && ReadOnce(defaultName, typ, e)
    ensures Harmless(defaultName, e) <==> BracketFree(e)
  {
    hide Holds, BracketFree, WellFormed, ReadOnce, Variables, Harmless;
    if BracketFree(e) {
      BracketFreeHarmless(defaultName, e);
    } else {
      var chosen := BracketMatters(defaultName, typ, e);
      if Harmless(defaultName, e) {
        HarmlessAnywhere(defaultName, e, typ, chosen);
      }
    }
  }

  function Alone(q: Query): Expression {
    Expression(Term(Some(q), None), None, None)
  }

  function Repeated(q: Query, op: string): Expression {
    Expression(Term(Some(q), None), Some(op), Some(Bracketed(Alone(q))))
  }

  lemma RepeatedHolds(defaultName: string, typ: string, q: Query, op: string, keep: bool, chosen: set<Variable>)
    ensures var l := q.nodeType == typ && VariableOf(defaultName, q) in chosen;
            Holds(defaultName, typ, Repeated(q, op), keep, chosen)
            == if op == "or" then l || (keep && l) else if op == "and" then l && keep && l else l != (keep && l)
  {
    var inner := Alone(q);
    var t := Term(None, Some(inner));
    assert Holds(defaultName, typ, inner, keep, chosen)
      == TermHolds(defaultName, typ, Term(Some(q), None), keep, chosen);
    assert Holds(defaultName, typ, Bracketed(inner), keep, chosen) == TermHolds(defaultName, typ, t, keep, chosen);
  }

  /** A query and its own repetition in brackets: with "or" the brackets do no harm, with "and" they do. */
  lemma RepeatedQuery(defaultName: string, q: Query)
    ensures Harmless(defaultName, Repeated(q, "or")) && !Harmless(defaultName, Repeated(q, "and"))
  {
    hide Holds;
    var e, f := Repeated(q, "or"), Repeated(q, "and");
    forall typ, chosen {:trigger Holds(defaultName, typ, e, true, chosen)} |
      typ in Types(e) && chosen <= Variables(defaultName, e)
      ensures Holds(defaultName, typ, e, true, chosen) == Holds(defaultName, typ, e, false, chosen)
    {
      RepeatedHolds(defaultName, typ, q, "or", true, chosen);
      RepeatedHolds(defaultName, typ, q, "or", false, chosen);
    }
    var chosen := {VariableOf(defaultName, q)};
    assert TermTypes(f.left) == {q.nodeType} && q.nodeType in Types(f);
    assert TermVariables(defaultName, f.left) == chosen && chosen <= Variables(defaultName, f);
    RepeatedHolds(defaultName, q.nodeType, q, "and", true, chosen);
    RepeatedHolds(defaultName, q.nodeType, q, "and", false, chosen);
  }

  function Bracketed(e: Expression): Expression {
    Expression(Term(None, Some(e)), None, None)
  }

  /** A script put in brackets evaluates to nothing. */
  lemma BracketsEmpty(env: Env, e: Expression)
    requires WellFormed(e) && Answers(env, Some(e))
    ensures Eval(env, Some(Bracketed(e))) == Ok(Some({})) && Meaning(env, Bracketed(e), true) == Meaning(env, e, true)
  {
    hide Answers;
    EvalBlanksBrackets(env, e);
  }
}
