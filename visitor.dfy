/**
 * What `ScopeAnalyzer`'s visitors do to the scope tree, as functions of the
 * arena before the visit, the current scope and the node. The analyzer class
 * is proved to compute exactly these.
 *
 * Each visitor adds scopes only below the current scope, records variables
 * only in the current scope or in scopes it creates, and keeps the arena one
 * tree (`Extends`, `WellFormed`).
 */
module Visitor {
  import opened Wrappers
  import opened PyAst
  import opened Scopes

  /** Two scopes agree on what is fixed when a scope is created. */
  predicate SameHeader(x: Scope, y: Scope) {
    x.name == y.name && x.kind == y.kind && x.lineno == y.lineno && x.endLineno == y.endLineno && x.parent == y.parent
  }

  /**
   * `r` is `a` after some visiting in scope `cur`: older scopes keep their
   * headers; only `cur` may gain children and variables (it keeps the ones
   * it had); every new scope hangs below `cur` or below another new scope.
   */
  ghost predicate Extends(a: Arena, r: Arena, cur: nat) {
    && |a| <= |r|
    && (forall i :: 0 <= i < |a| ==> SameHeader(a[i], r[i]))
    && (forall i :: 0 <= i < |a| && i != cur ==> r[i] == a[i])
    && (cur < |a| ==> a[cur].children <= r[cur].children && a[cur].variables.Keys <= r[cur].variables.Keys)
    && (forall i :: |a| <= i < |r| ==> r[i].parent.Some? && (r[i].parent.value == cur || |a| <= r[i].parent.value))
  }

  lemma ExtendsRefl(a: Arena, cur: nat)
    ensures Extends(a, a, cur)
  {
  }

  /** Visiting in `cur`, then in `cur` again or in a scope created meanwhile, is visiting in `cur`. */
  lemma ExtendsTrans(a: Arena, b: Arena, r: Arena, c1: nat, c2: nat)
    requires Extends(a, b, c1) && Extends(b, r, c2)
    requires c2 == c1 || |a| <= c2
    ensures Extends(a, r, c1)
  {
    if c1 < |a| {
      assert a[c1].children <= b[c1].children;
      if c2 == c1 {
        assert b[c1].children <= r[c1].children;
      } else {
        assert r[c1] == b[c1];
      }
    }
  }

  lemma AddChildExtends(a: Arena, p: nat, child: Scope)
    requires WellFormed(a) && p < |a| && child.children == []
    ensures WellFormed(AddChild(a, p, child)) && Extends(a, AddChild(a, p, child), p)
  {
    AddChildWellFormed(a, p, child);
  }

  /** Arenas that differ only in variables are equally well formed. */
  lemma SameShapeWellFormed(a: Arena, r: Arena)
    requires |a| == |r|
    requires forall i :: 0 <= i < |a| ==> SameHeader(a[i], r[i]) && r[i].children == a[i].children
    ensures WellFormed(a) ==> WellFormed(r)
  {
  }

  /** The names `_extract_target_vars` records for a target: a `Name`, the
      elements of a `Tuple` or `List` (recursively), the operand of `Starred`;
      a subscript or attribute target records nothing. */
  function TargetNames(t: Node): set<string>
    decreases Size(t), 0
  {
    match t
    case Name(id) => {id}
    case Tuple(elts) => TargetsNames(elts)
    case List(elts) => TargetsNames(elts)
    case Starred(v) => TargetNames(v)
    case _ => {}
  }

  function TargetsNames(ts: seq<Node>): set<string>
    decreases SeqSize(ts), 1
  {
    if ts == [] then {}
    else
      SeqSizeLast(ts);
      TargetsNames(ts[..|ts| - 1]) + TargetNames(ts[|ts| - 1])
  }

  /** `_extract_target_vars(target, lineno)` in scope `s`: every name of the
      target is recorded as an assignment on `line`, the rest is untouched. */
  function ExtractTargetVars(a: Arena, s: nat, t: Node, line: Option<int>): (r: Arena)
    requires s < |a|
    ensures |r| == |a| && r[s] == a[s].(variables := r[s].variables)
    ensures forall i :: 0 <= i < |a| && i != s ==> r[i] == a[i]
    ensures r[s].variables.Keys == a[s].variables.Keys + TargetNames(t)
    ensures forall v :: v in TargetNames(t) ==> r[s].variables[v] == VarInfo(line, Assignment)
    ensures forall v :: v in a[s].variables && v !in TargetNames(t) ==> r[s].variables[v] == a[s].variables[v]
    decreases Size(t), 0
  {
    match t
    case Name(id) => AddVariable(a, s, id, VarInfo(line, Assignment))
    case Tuple(elts) => ExtractEltVars(a, s, elts, line)
    case List(elts) => ExtractEltVars(a, s, elts, line)
    case Starred(v) => ExtractTargetVars(a, s, v, line)
    case _ => a
  }

  /** The loop over the elements of a tuple or list target. */
  function ExtractEltVars(a: Arena, s: nat, ts: seq<Node>, line: Option<int>): (r: Arena)
    requires s < |a|
    ensures |r| == |a| && r[s] == a[s].(variables := r[s].variables)
    ensures forall i :: 0 <= i < |a| && i != s ==> r[i] == a[i]
    ensures r[s].variables.Keys == a[s].variables.Keys + TargetsNames(ts)
    ensures forall v :: v in TargetsNames(ts) ==> r[s].variables[v] == VarInfo(line, Assignment)
    ensures forall v :: v in a[s].variables && v !in TargetsNames(ts) ==> r[s].variables[v] == a[s].variables[v]
    decreases SeqSize(ts), 1
  {
    if ts == [] then a
    else
      SeqSizeLast(ts);
      ExtractTargetVars(ExtractEltVars(a, s, ts[..|ts| - 1], line), s, ts[|ts| - 1], line)
  }

  /** Recording variables keeps the arena one tree and is a visit in `s`. */
  lemma ExtractKeepsTree(a: Arena, s: nat, t: Node, line: Option<int>)
    requires WellFormed(a) && s < |a|
    ensures WellFormed(ExtractTargetVars(a, s, t, line)) && Extends(a, ExtractTargetVars(a, s, t, line), s)
  {
    SameShapeWellFormed(a, ExtractTargetVars(a, s, t, line));
  }

  /** The loop over `node.args.args`: each parameter recorded as a `'parameter'` on `line`. */
  function AddParameters(a: Arena, s: nat, params: seq<string>, line: Option<int>): (r: Arena)
    requires s < |a|
    ensures |r| == |a| && r[s] == a[s].(variables := r[s].variables)
    ensures forall i :: 0 <= i < |a| && i != s ==> r[i] == a[i]
    ensures r[s].variables.Keys == a[s].variables.Keys + set k | 0 <= k < |params| :: params[k]
    ensures forall k :: 0 <= k < |params| ==> r[s].variables[params[k]] == VarInfo(line, Parameter)
    ensures forall v :: v in a[s].variables && v !in params ==> r[s].variables[v] == a[s].variables[v]
  {
    if params == [] then a
    else AddVariable(AddParameters(a, s, params[..|params| - 1], line), s, params[|params| - 1], VarInfo(line, Parameter))
  }

  lemma AddParametersKeepsTree(a: Arena, s: nat, params: seq<string>, line: Option<int>)
    requires WellFormed(a) && s < |a|
    ensures WellFormed(AddParameters(a, s, params, line)) && Extends(a, AddParameters(a, s, params, line), s)
  {
    SameShapeWellFormed(a, AddParameters(a, s, params, line));
  }

  /** The scope kind of each comprehension node type. */
  function CompScopeKind(k: CompKind): ScopeKind {
    match k
    case ListComp => ScopeKind.ListComp
    case SetComp => ScopeKind.SetComp
    case DictComp => ScopeKind.DictComp
    case GeneratorExp => ScopeKind.Generator
  }

  /** The names bound by the `for` clauses of a comprehension. */
  function GeneratorTargetNames(gs: seq<Generator>): set<string> {
    if gs == [] then {} else GeneratorTargetNames(gs[..|gs| - 1]) + TargetNames(gs[|gs| - 1].target)
  }

  /** The names bound by the `as` parts of a `with` statement. */
  function WithTargetNames(items: seq<WithItem>): set<string> {
    if items == [] then {}
    else
      var last := items[|items| - 1];
      WithTargetNames(items[..|items| - 1]) + (if last.WithItemAs? then TargetNames(last.optionalVars) else {})
  }

  /** `self.visit(node)` in scope `cur`: dispatch on the node type. */
  function Visit(a: Arena, cur: nat, n: Node): (r: Arena)
    requires WellFormed(a) && cur < |a|
    ensures WellFormed(r) && Extends(a, r, cur)
    decreases Size(n), 3
  {
    match n
    case FunctionDef(_, _, _, _, _) => VisitFunctionDef(a, cur, n)
    case ClassDef(_, _, _, _) => VisitClassDef(a, cur, n)
    case Comp(_, _, _, _) => HandleComprehension(a, cur, n)
    case Assign(_, _, _) => VisitAssign(a, cur, n)
    case AugAssign(_, _, _) => VisitAugAssign(a, cur, n)
    case For(_, _, _, _, _) => VisitFor(a, cur, n)
    case With(_, _, _) => VisitWith(a, cur, n)
    case Lambda(_, _, _, _) => VisitLambda(a, cur, n)
    case _ => GenericVisit(a, cur, n)
  }

  /** `for stmt in ...: self.visit(stmt)`, all in scope `cur`. */
  function VisitAll(a: Arena, cur: nat, ns: seq<Node>): (r: Arena)
    requires WellFormed(a) && cur < |a|
    ensures WellFormed(r) && Extends(a, r, cur)
    decreases SeqSize(ns), 4
  {
    if ns == [] then
      ExtendsRefl(a, cur);
      a
    else
      SeqSizeLast(ns);
      var mid := VisitAll(a, cur, ns[..|ns| - 1]);
      var r := Visit(mid, cur, ns[|ns| - 1]);
      ExtendsTrans(a, mid, r, cur, cur);
      r
  }

  /** `generic_visit`: the children, in field order, in the same scope. */
  function GenericVisit(a: Arena, cur: nat, n: Node): (r: Arena)
    requires WellFormed(a) && cur < |a|
    ensures WellFormed(r) && Extends(a, r, cur)
    decreases Size(n), 2
  {
    ChildrenSize(n);
    VisitAll(a, cur, Children(n))
  }

  /** `visit_FunctionDef`: a `'function'` child scope holding the parameters,
      with the body visited inside it (decorators, defaults and annotations
      are not visited). */
  function VisitFunctionDef(a: Arena, cur: nat, n: Node): (r: Arena)
    requires WellFormed(a) && cur < |a| && n.FunctionDef?
    ensures WellFormed(r) && Extends(a, r, cur) && |a| < |r|
    ensures r[|a|].name == n.name && r[|a|].kind == Function && r[|a|].parent == Some(cur)
    ensures r[|a|].lineno == n.span.lineno && r[|a|].endLineno == n.span.endLineno
    ensures forall k :: 0 <= k < |n.params| ==> n.params[k] in r[|a|].variables
    decreases Size(n), 2
  {
    PartsSize(n);
    var f := |a|;
    var child := NewScope(n.name, Function, n.span.lineno, n.span.endLineno);
    var a1 := AddChild(a, cur, child);
    AddChildExtends(a, cur, child);
    var a2 := AddParameters(a1, f, n.params, n.span.lineno);
    AddParametersKeepsTree(a1, f, n.params, n.span.lineno);
    var r := VisitAll(a2, f, n.body);
    ExtendsTrans(a1, a2, r, f, f);
    ExtendsTrans(a, a1, r, cur, f);
    assert forall k :: 0 <= k < |n.params| ==> n.params[k] in a2[f].variables;
    assert a2[f].variables.Keys <= r[f].variables.Keys;
    r
  }

  /** `visit_ClassDef`: a `'class'` child scope with the body visited inside it. */
  function VisitClassDef(a: Arena, cur: nat, n: Node): (r: Arena)
    requires WellFormed(a) && cur < |a| && n.ClassDef?
    ensures WellFormed(r) && Extends(a, r, cur) && |a| < |r|
    ensures r[|a|].name == n.name && r[|a|].kind == Class && r[|a|].parent == Some(cur)
    ensures r[|a|].lineno == n.span.lineno && r[|a|].endLineno == n.span.endLineno
    decreases Size(n), 2
  {
    PartsSize(n);
    var c := |a|;
    var child := NewScope(n.name, Class, n.span.lineno, n.span.endLineno);
    var a1 := AddChild(a, cur, child);
    AddChildExtends(a, cur, child);
    var r := VisitAll(a1, c, n.body);
    ExtendsTrans(a, a1, r, cur, c);
    r
  }

  /** `_handle_comprehension`: a child scope named after its type; inside it,
      each `for` clause's target is recorded (without a line), its iterable and
      conditions visited; then the element (or key and value) is visited. */
  function HandleComprehension(a: Arena, cur: nat, n: Node): (r: Arena)
    requires WellFormed(a) && cur < |a| && n.Comp?
    ensures WellFormed(r) && Extends(a, r, cur) && |a| < |r|
    ensures r[|a|].name == KindName(CompScopeKind(n.kind)) && r[|a|].kind == CompScopeKind(n.kind)
    ensures r[|a|].parent == Some(cur)
    ensures r[|a|].lineno == n.span.lineno && r[|a|].endLineno == n.span.endLineno
    ensures GeneratorTargetNames(n.generators) <= r[|a|].variables.Keys
    decreases Size(n), 2
  {
    PartsSize(n);
    var c := |a|;
    var kind := CompScopeKind(n.kind);
    var child := NewScope(KindName(kind), kind, n.span.lineno, n.span.endLineno);
    var a1 := AddChild(a, cur, child);
    AddChildExtends(a, cur, child);
    var a2 := VisitGenerators(a1, c, n.generators);
    var r := VisitAll(a2, c, n.elts);
    ExtendsTrans(a1, a2, r, c, c);
    ExtendsTrans(a, a1, r, cur, c);
    r
  }

  /** `_process_comprehension_components`' loop over the `for` clauses. */
  function VisitGenerators(a: Arena, c: nat, gs: seq<Generator>): (r: Arena)
    requires WellFormed(a) && c < |a|
    ensures WellFormed(r) && Extends(a, r, c)
    ensures GeneratorTargetNames(gs) <= r[c].variables.Keys
    decreases GensSize(gs), 4
  {
    if gs == [] then
      ExtendsRefl(a, c);
      a
    else
      GensSizeLast(gs);
      var g := gs[|gs| - 1];
      assert GenSize(g) == Size(g.target) + Size(g.iter) + SeqSize(g.ifs);
      var a1 := VisitGenerators(a, c, gs[..|gs| - 1]);
      var a2 := ExtractTargetVars(a1, c, g.target, None);
      ExtractKeepsTree(a1, c, g.target, None);
      var a3 := Visit(a2, c, g.iter);
      var r := VisitAll(a3, c, g.ifs);
      ExtendsTrans(a2, a3, r, c, c);
      ExtendsTrans(a1, a2, r, c, c);
      ExtendsTrans(a, a1, r, c, c);
      r
  }

  /** `visit_Assign`: the value first, then every target recorded on the statement's line. */
  function VisitAssign(a: Arena, cur: nat, n: Node): (r: Arena)
    requires WellFormed(a) && cur < |a| && n.Assign?
    ensures WellFormed(r) && Extends(a, r, cur)
    ensures forall v :: v in TargetsNames(n.targets) ==> v in r[cur].variables && r[cur].variables[v] == VarInfo(Some(n.lineno), Assignment)
    decreases Size(n), 2
  {
    PartsSize(n);
    var a1 := Visit(a, cur, n.value);
    var r := ExtractEltVars(a1, cur, n.targets, Some(n.lineno));
    SameShapeWellFormed(a1, r);
    ExtendsTrans(a, a1, r, cur, cur);
    r
  }

  /** `visit_AugAssign`: the value, then the target recorded on the statement's line. */
  function VisitAugAssign(a: Arena, cur: nat, n: Node): (r: Arena)
    requires WellFormed(a) && cur < |a| && n.AugAssign?
    ensures WellFormed(r) && Extends(a, r, cur)
    ensures forall v :: v in TargetNames(n.target) ==> v in r[cur].variables && r[cur].variables[v] == VarInfo(Some(n.lineno), Assignment)
    decreases Size(n), 2
  {
    PartsSize(n);
    var a1 := Visit(a, cur, n.value);
    var r := ExtractTargetVars(a1, cur, n.target, Some(n.lineno));
    ExtractKeepsTree(a1, cur, n.target, Some(n.lineno));
    ExtendsTrans(a, a1, r, cur, cur);
    r
  }

  /** `visit_For`: the iterable, the target recorded on the loop's line, then
      the body and the `else` clause, all in the same scope. */
  function VisitFor(a: Arena, cur: nat, n: Node): (r: Arena)
    requires WellFormed(a) && cur < |a| && n.For?
    ensures WellFormed(r) && Extends(a, r, cur)
    ensures TargetNames(n.target) <= r[cur].variables.Keys
    decreases Size(n), 2
  {
    PartsSize(n);
    var a1 := Visit(a, cur, n.iter);
    var a2 := ExtractTargetVars(a1, cur, n.target, Some(n.lineno));
    ExtractKeepsTree(a1, cur, n.target, Some(n.lineno));
    var a3 := VisitAll(a2, cur, n.body);
    var r := VisitAll(a3, cur, n.orelse);
    ExtendsTrans(a2, a3, r, cur, cur);
    ExtendsTrans(a1, a2, r, cur, cur);
    ExtendsTrans(a, a1, r, cur, cur);
    r
  }

  /** `visit_With`: each item's context expression, then its `as` target
      recorded on the statement's line; then the body. */
  function VisitWith(a: Arena, cur: nat, n: Node): (r: Arena)
    requires WellFormed(a) && cur < |a| && n.With?
    ensures WellFormed(r) && Extends(a, r, cur)
    ensures WithTargetNames(n.items) <= r[cur].variables.Keys
    decreases Size(n), 2
  {
    PartsSize(n);
    var a1 := VisitItems(a, cur, n.items, n.lineno);
    var r := VisitAll(a1, cur, n.body);
    ExtendsTrans(a, a1, r, cur, cur);
    r
  }

  /** The loop over `node.items`. */
  function VisitItems(a: Arena, cur: nat, items: seq<WithItem>, line: int): (r: Arena)
    requires WellFormed(a) && cur < |a|
    ensures WellFormed(r) && Extends(a, r, cur)
    ensures WithTargetNames(items) <= r[cur].variables.Keys
    decreases ItemsSize(items), 4
  {
    if items == [] then
      ExtendsRefl(a, cur);
      a
    else
      ItemsSizeLast(items);
      var item := items[|items| - 1];
      var a1 := VisitItems(a, cur, items[..|items| - 1], line);
      var a2 := Visit(a1, cur, item.contextExpr);
      ExtendsTrans(a, a1, a2, cur, cur);
      if item.WithItemAs? then
        var r := ExtractTargetVars(a2, cur, item.optionalVars, Some(line));
        ExtractKeepsTree(a2, cur, item.optionalVars, Some(line));
        ExtendsTrans(a, a2, r, cur, cur);
        r
      else
        a2
  }

  /** `visit_Lambda`: a `'lambda'` child scope holding the parameters, with the
      body expression visited inside it (default values are not visited). */
  function VisitLambda(a: Arena, cur: nat, n: Node): (r: Arena)
    requires WellFormed(a) && cur < |a| && n.Lambda?
    ensures WellFormed(r) && Extends(a, r, cur) && |a| < |r|
    ensures r[|a|].name == "lambda" && r[|a|].kind == ScopeKind.Lambda && r[|a|].parent == Some(cur)
    ensures r[|a|].lineno == n.span.lineno && r[|a|].endLineno == n.span.endLineno
    ensures forall k :: 0 <= k < |n.params| ==> n.params[k] in r[|a|].variables
    decreases Size(n), 2
  {
    PartsSize(n);
    var l := |a|;
    var child := NewScope("lambda", ScopeKind.Lambda, n.span.lineno, n.span.endLineno);
    var a1 := AddChild(a, cur, child);
    AddChildExtends(a, cur, child);
    var a2 := AddParameters(a1, l, n.params, n.span.lineno);
    AddParametersKeepsTree(a1, l, n.params, n.span.lineno);
    var r := Visit(a2, l, n.expr);
    ExtendsTrans(a1, a2, r, l, l);
    ExtendsTrans(a, a1, r, cur, l);
    assert forall k :: 0 <= k < |n.params| ==> n.params[k] in a2[l].variables;
    assert a2[l].variables.Keys <= r[l].variables.Keys;
    r
  }

  /** One more statement of a body: the visit of the prefix, then the statement. */
  lemma VisitAllStep(a: Arena, cur: nat, ns: seq<Node>, i: nat)
    requires WellFormed(a) && cur < |a| && i < |ns|
    ensures VisitAll(a, cur, ns[..i + 1]) == Visit(VisitAll(a, cur, ns[..i]), cur, ns[i])
  {
    assert ns[..i + 1][..i] == ns[..i];
  }

  /** One more `for` clause of a comprehension. */
  lemma VisitGeneratorsStep(a: Arena, c: nat, gs: seq<Generator>, i: nat)
    requires WellFormed(a) && c < |a| && i < |gs|
    ensures WellFormed(ExtractTargetVars(VisitGenerators(a, c, gs[..i]), c, gs[i].target, None))
    ensures VisitGenerators(a, c, gs[..i + 1])
         == VisitAll(Visit(ExtractTargetVars(VisitGenerators(a, c, gs[..i]), c, gs[i].target, None), c, gs[i].iter), c, gs[i].ifs)
  {
    assert gs[..i + 1][..i] == gs[..i];
    ExtractKeepsTree(VisitGenerators(a, c, gs[..i]), c, gs[i].target, None);
  }

  /** One more item of a `with` statement. */
  lemma VisitItemsStep(a: Arena, cur: nat, items: seq<WithItem>, line: int, i: nat)
    requires WellFormed(a) && cur < |a| && i < |items|
    ensures VisitItems(a, cur, items[..i + 1], line)
         == var a2 := Visit(VisitItems(a, cur, items[..i], line), cur, items[i].contextExpr);
            if items[i].WithItemAs? then ExtractTargetVars(a2, cur, items[i].optionalVars, Some(line)) else a2
  {
    assert items[..i + 1][..i] == items[..i];
  }

  /** One more element of a tuple or list target. */
  lemma ExtractEltVarsStep(a: Arena, s: nat, ts: seq<Node>, line: Option<int>, i: nat)
    requires s < |a| && i < |ts|
    ensures ExtractEltVars(a, s, ts[..i + 1], line) == ExtractTargetVars(ExtractEltVars(a, s, ts[..i], line), s, ts[i], line)
  {
    assert ts[..i + 1][..i] == ts[..i];
  }

  /** One more parameter. */
  lemma AddParametersStep(a: Arena, s: nat, params: seq<string>, line: Option<int>, i: nat)
    requires s < |a| && i < |params|
    ensures AddParameters(a, s, params[..i + 1], line) == AddVariable(AddParameters(a, s, params[..i], line), s, params[i], VarInfo(line, Parameter))
  {
    assert params[..i + 1][..i] == params[..i];
  }
}
