/**
 * `ScopeAnalyzer`: walks a parsed script with a current scope that the
 * visitors switch around the bodies they enter, building the scope tree, then
 * maps every line to its most specific scope.
 *
 * The `ScopeNode` objects live in the analyzer's arena `scopes` (index 0 is
 * `root`), so `add_child` and `add_variable` are methods of the analyzer that
 * update one arena entry. Every visitor is proved to compute the function of
 * the same name in module `Visitor`.
 */
module Analyzer {
  import opened Wrappers
  import opened PyStr
  import opened PyAst
  import opened Scopes
  import opened LineMap
  import V = Visitor

  /** The loop of `_map_lines_to_scope`, on the line map `m0`: every line
      from `lineno` to `end_lineno` in turn. */
  method MapLines(a: Arena, m0: map<int, nat>, s: nat) returns (m: map<int, nat>)
    requires WellFormed(a) && s < |a| && HasValidLineRange(a[s]) && IndexMap(a, m0)
    ensures IndexMap(a, m) && m == MapLinesUpTo(a, m0, s, a[s].endLineno.value + 1)
  {
    var lo, hi := a[s].lineno.value, a[s].endLineno.value;
    var line := lo;
    m := m0;
    while line < hi + 1
      invariant lo <= line && (line <= hi + 1 || line == lo)
      invariant m == MapLinesInTurn(a, m0, s, line)
    {
      if MoreSpecific(a, m, s, line) {
        m := m[line := s];
      }
      line := line + 1;
    }
    MapLinesInTurnUpTo(a, m0, s, hi + 1);
  }

  class ScopeAnalyzer {
    /** `self.lines`: the script split into lines. */
    const lines: seq<string>
    /** The `ScopeNode` objects; `scopes[0]` is `self.root`. */
    var scopes: seq<Scope>
    /** `self.current_scope`. */
    var current: nat
    /** `self.line_to_scope`: 1-based line number to scope. */
    var lineToScope: map<int, nat>

    ghost predicate Valid()
      reads this
    {
      WellFormed(scopes) && current < |scopes| && IndexMap(scopes, lineToScope)
    }

    /** `ScopeAnalyzer(code)`: only the module scope, spanning lines 1 to `len(lines)`. */
    constructor(code: string)
      ensures Valid()
      ensures lines == SplitLines(code)
      ensures scopes == RootArena(|lines|) && current == 0 && lineToScope == map[]
    {
      lines := SplitLines(code);
      scopes := RootArena(|SplitLines(code)|);
      current := 0;
      lineToScope := map[];
    }

    /** `ScopeNode.add_child` on scope `p`; returns the child's index. */
    method AddChild(p: nat, child: Scope) returns (c: nat)
      requires Valid() && p < |scopes| && child.children == []
      modifies this
      ensures Valid()
      ensures c == old(|scopes|) && scopes == Scopes.AddChild(old(scopes), p, child)
      ensures current == old(current) && lineToScope == old(lineToScope)
    {
      c := |scopes|;
      AddChildWellFormed(scopes, p, child);
      scopes := scopes[p := scopes[p].(children := scopes[p].children + [c])] + [child.(parent := Some(p))];
    }

    /** `ScopeNode.add_variable` on scope `s`. */
    method AddVariable(s: nat, name: string, info: VarInfo)
      requires Valid() && s < |scopes|
      modifies this
      ensures Valid()
      ensures scopes == Scopes.AddVariable(old(scopes), s, name, info)
      ensures current == old(current) && lineToScope == old(lineToScope)
    {
      AddVariableWellFormed(scopes, s, name, info);
      scopes := scopes[s := scopes[s].(variables := scopes[s].variables[name := info])];
    }

    /** `analyze`: visit the module, then build the line map; a script that
        does not parse leaves the lone root scope and an empty map. */
    method Analyze(parsed: ParseResult) returns (root: nat)
      requires Valid()
      modifies this
      ensures Valid() && root == 0 && current == old(current)
      ensures parsed.SyntaxError? ==> scopes == old(scopes) && lineToScope == old(lineToScope)
      ensures parsed.Parsed? ==> scopes == V.Visit(old(scopes), old(current), ModuleNode(parsed.body))
      ensures parsed.Parsed? ==> lineToScope == MapInOrder(scopes, old(lineToScope), PreOrder(scopes, 0))
    {
      root := 0;
      match parsed
      case SyntaxError =>
      case Parsed(body) =>
        Visit(ModuleNode(body));
        BuildLineToScopeMap();
    }

    /** `_build_line_to_scope_map`. */
    method BuildLineToScopeMap()
      requires Valid()
      modifies this
      ensures Valid() && scopes == old(scopes) && current == old(current)
      ensures lineToScope == MapInOrder(scopes, old(lineToScope), PreOrder(scopes, 0))
    {
      TraverseScopeTree(0);
    }

    /** `_traverse_scope_tree(scope)`: map the scope's lines, then each child's subtree. */
    method TraverseScopeTree(s: nat)
      requires Valid() && s < |scopes|
      modifies this
      ensures Valid() && scopes == old(scopes) && current == old(current)
      ensures lineToScope == MapInOrder(scopes, old(lineToScope), PreOrder(scopes, s))
      decreases |scopes| - s
    {
      ghost var a0, m0 := scopes, lineToScope;
      TraverseStart(a0, m0, s);
      if HasValidLineRange(scopes[s]) {
        MapLinesToScope(s);
      }
      assert lineToScope == Traversed(a0, m0, s, 0);
      var children := scopes[s].children;
      for k := 0 to |children|
        invariant Valid() && scopes == a0 && current == old(current)
        invariant lineToScope == Traversed(a0, m0, s, k)
      {
        TraverseStep(a0, m0, s, k);
        TraverseScopeTree(children[k]);
      }
    }

    /** `_map_lines_to_scope(scope)`: each line of the range goes to the scope
        when `_is_more_specific_scope` says so. */
    method MapLinesToScope(s: nat)
      requires Valid() && s < |scopes| && HasValidLineRange(scopes[s])
      modifies this
      ensures Valid() && scopes == old(scopes) && current == old(current)
      ensures lineToScope == MapLinesUpTo(scopes, old(lineToScope), s, scopes[s].endLineno.value + 1)
    {
      lineToScope := MapLines(scopes, lineToScope, s);
    }

    /** `visit(node)`: dispatch on the node type; the visitors that open a
        scope are handled here, the others by `VisitInScope`. */
    method Visit(n: Node)
      requires Valid()
      modifies this
      ensures Valid() && scopes == V.Visit(old(scopes), old(current), n)
      ensures current == old(current) && lineToScope == old(lineToScope)
      decreases Size(n), 4
    {
      ghost var a0, c0 := scopes, current;
      if n.FunctionDef? {
        assert V.Visit(a0, c0, n) == V.VisitFunctionDef(a0, c0, n);
        VisitFunctionDef(n);
      } else if n.ClassDef? {
        assert V.Visit(a0, c0, n) == V.VisitClassDef(a0, c0, n);
        VisitClassDef(n);
      } else if n.Comp? {
        assert V.Visit(a0, c0, n) == V.HandleComprehension(a0, c0, n);
        HandleComprehension(n);
      } else if n.Lambda? {
        assert V.Visit(a0, c0, n) == V.VisitLambda(a0, c0, n);
        VisitLambda(n);
      } else {
        VisitInScope(n);
      }
    }

    /** The rest of the dispatch: node types visited in the current scope. */
    method VisitInScope(n: Node)
      requires Valid() && !n.FunctionDef? && !n.ClassDef? && !n.Comp? && !n.Lambda?
      modifies this
      ensures Valid() && scopes == V.Visit(old(scopes), old(current), n)
      ensures current == old(current) && lineToScope == old(lineToScope)
      decreases Size(n), 3
    {
      ghost var a0, c0 := scopes, current;
      if n.Assign? {
        assert V.Visit(a0, c0, n) == V.VisitAssign(a0, c0, n);
        VisitAssign(n);
      } else if n.AugAssign? {
        assert V.Visit(a0, c0, n) == V.VisitAugAssign(a0, c0, n);
        VisitAugAssign(n);
      } else if n.For? {
        assert V.Visit(a0, c0, n) == V.VisitFor(a0, c0, n);
        VisitFor(n);
      } else if n.With? {
        assert V.Visit(a0, c0, n) == V.VisitWith(a0, c0, n);
        VisitWith(n);
      } else {
        assert V.Visit(a0, c0, n) == V.GenericVisit(a0, c0, n);
        GenericVisit(n);
      }
    }

    /** `for stmt in ...: self.visit(stmt)`, in the current scope. */
    method VisitEach(ns: seq<Node>)
      requires Valid()
      modifies this
      ensures Valid() && scopes == V.VisitAll(old(scopes), old(current), ns)
      ensures current == old(current) && lineToScope == old(lineToScope)
      decreases SeqSize(ns), 5
    {
      ghost var a0, c0, m0 := scopes, current, lineToScope;
      for i := 0 to |ns|
        invariant Valid() && current == c0 && lineToScope == m0
        invariant scopes == V.VisitAll(a0, c0, ns[..i])
      {
        ElementSize(ns, i);
        V.VisitAllStep(a0, c0, ns, i);
        Visit(ns[i]);
      }
      assert ns[..|ns|] == ns;
    }

    /** `generic_visit`: every child, in the current scope. */
    method GenericVisit(n: Node)
      requires Valid()
      modifies this
      ensures Valid() && scopes == V.GenericVisit(old(scopes), old(current), n)
      ensures current == old(current) && lineToScope == old(lineToScope)
      decreases Size(n), 2
    {
      ChildrenSize(n);
      VisitEach(Children(n));
    }

    /** The parameter loop of `visit_FunctionDef` and `visit_Lambda`. */
    method AddParameters(s: nat, params: seq<string>, line: Option<int>)
      requires Valid() && s < |scopes|
      modifies this
      ensures Valid() && scopes == V.AddParameters(old(scopes), s, params, line)
      ensures current == old(current) && lineToScope == old(lineToScope)
    {
      ghost var a0, c0, m0 := scopes, current, lineToScope;
      for k := 0 to |params|
        invariant Valid() && current == c0 && lineToScope == m0
        invariant scopes == V.AddParameters(a0, s, params[..k], line)
      {
        V.AddParametersStep(a0, s, params, line, k);
        AddVariable(s, params[k], VarInfo(line, Parameter));
      }
      assert params[..|params|] == params;
    }

    /** `visit_FunctionDef`. */
    method VisitFunctionDef(n: Node)
      requires Valid() && n.FunctionDef?
      modifies this
      ensures Valid() && scopes == V.VisitFunctionDef(old(scopes), old(current), n)
      ensures current == old(current) && lineToScope == old(lineToScope)
      decreases Size(n), 2
    {
      var funcScope := AddChild(current, NewScope(n.name, Function, n.span.lineno, n.span.endLineno));
      AddParameters(funcScope, n.params, n.span.lineno);
      var oldScope := current;
      current := funcScope;
      PartsSize(n);
      VisitEach(n.body);
      current := oldScope;
    }

    /** `visit_ClassDef`. */
    method VisitClassDef(n: Node)
      requires Valid() && n.ClassDef?
      modifies this
      ensures Valid() && scopes == V.VisitClassDef(old(scopes), old(current), n)
      ensures current == old(current) && lineToScope == old(lineToScope)
      decreases Size(n), 2
    {
      var classScope := AddChild(current, NewScope(n.name, Class, n.span.lineno, n.span.endLineno));
      var oldScope := current;
      current := classScope;
      PartsSize(n);
      VisitEach(n.body);
      current := oldScope;
    }

    /** `_handle_comprehension`: create the scope, switch to it for the
        components, switch back. */
    method HandleComprehension(n: Node)
      requires Valid() && n.Comp?
      modifies this
      ensures Valid() && scopes == V.HandleComprehension(old(scopes), old(current), n)
      ensures current == old(current) && lineToScope == old(lineToScope)
      decreases Size(n), 2
    {
      var kind := V.CompScopeKind(n.kind);
      var compScope := AddChild(current, NewScope(KindName(kind), kind, n.span.lineno, n.span.endLineno));
      var oldScope := current;
      current := compScope;
      ProcessComprehensionComponents(n);
      current := oldScope;
    }

    /** `_process_comprehension_components` and `_visit_comprehension_element`. */
    method ProcessComprehensionComponents(n: Node)
      requires Valid() && n.Comp?
      modifies this
      ensures Valid()
      ensures scopes == V.VisitAll(V.VisitGenerators(old(scopes), old(current), n.generators), old(current), n.elts)
      ensures current == old(current) && lineToScope == old(lineToScope)
      decreases Size(n), 1
    {
      var gens := n.generators;
      ghost var a0, c0, m0 := scopes, current, lineToScope;
      for i := 0 to |gens|
        invariant Valid() && current == c0 && lineToScope == m0
        invariant scopes == V.VisitGenerators(a0, c0, gens[..i])
      {
        var g := gens[i];
        CompPartsSize(n, i);
        V.VisitGeneratorsStep(a0, c0, gens, i);
        ExtractTargetVars(g.target, None);
        Visit(g.iter);
        VisitEach(g.ifs);
      }
      assert gens[..|gens|] == gens;
      assert SeqSize(n.elts) < Size(n);
      VisitEach(n.elts);
    }

    /** `visit_Assign`. */
    method VisitAssign(n: Node)
      requires Valid() && n.Assign?
      modifies this
      ensures Valid() && scopes == V.VisitAssign(old(scopes), old(current), n)
      ensures current == old(current) && lineToScope == old(lineToScope)
      decreases Size(n), 2
    {
      PartsSize(n);
      Visit(n.value);
      ghost var a1, c0, m0 := scopes, current, lineToScope;
      for j := 0 to |n.targets|
        invariant Valid() && current == c0 && lineToScope == m0
        invariant scopes == V.ExtractEltVars(a1, c0, n.targets[..j], Some(n.lineno))
      {
        V.ExtractEltVarsStep(a1, c0, n.targets, Some(n.lineno), j);
        ExtractTargetVars(n.targets[j], Some(n.lineno));
      }
      assert n.targets[..|n.targets|] == n.targets;
    }

    /** `visit_AugAssign`. */
    method VisitAugAssign(n: Node)
      requires Valid() && n.AugAssign?
      modifies this
      ensures Valid() && scopes == V.VisitAugAssign(old(scopes), old(current), n)
      ensures current == old(current) && lineToScope == old(lineToScope)
      decreases Size(n), 2
    {
      PartsSize(n);
      Visit(n.value);
      ExtractTargetVars(n.target, Some(n.lineno));
    }

    /** `visit_For`. */
    method VisitFor(n: Node)
      requires Valid() && n.For?
      modifies this
      ensures Valid() && scopes == V.VisitFor(old(scopes), old(current), n)
      ensures current == old(current) && lineToScope == old(lineToScope)
      decreases Size(n), 2
    {
      PartsSize(n);
      Visit(n.iter);
      ExtractTargetVars(n.target, Some(n.lineno));
      VisitEach(n.body);
      VisitEach(n.orelse);
    }

    /** `visit_With`. */
    method VisitWith(n: Node)
      requires Valid() && n.With?
      modifies this
      ensures Valid() && scopes == V.VisitWith(old(scopes), old(current), n)
      ensures current == old(current) && lineToScope == old(lineToScope)
      decreases Size(n), 2
    {
      var items := n.items;
      ghost var a0, c0, m0 := scopes, current, lineToScope;
      PartsSize(n);
      for i := 0 to |items|
        invariant Valid() && current == c0 && lineToScope == m0
        invariant scopes == V.VisitItems(a0, c0, items[..i], n.lineno)
      {
        var item := items[i];
        ItemElementSize(items, i);
        assert Size(item.contextExpr) < Size(n);
        V.VisitItemsStep(a0, c0, items, n.lineno, i);
        Visit(item.contextExpr);
        if item.WithItemAs? {
          ExtractTargetVars(item.optionalVars, Some(n.lineno));
        }
      }
      assert items[..|items|] == items;
      VisitEach(n.body);
    }

    /** `visit_Lambda`. */
    method VisitLambda(n: Node)
      requires Valid() && n.Lambda?
      modifies this
      ensures Valid() && scopes == V.VisitLambda(old(scopes), old(current), n)
      ensures current == old(current) && lineToScope == old(lineToScope)
      decreases Size(n), 2
    {
      var lambdaScope := AddChild(current, NewScope("lambda", ScopeKind.Lambda, n.span.lineno, n.span.endLineno));
      AddParameters(lambdaScope, n.params, n.span.lineno);
      var oldScope := current;
      current := lambdaScope;
      Visit(n.expr);
      current := oldScope;
    }

    /** `_extract_target_vars(target, lineno)` in the current scope. */
    method ExtractTargetVars(t: Node, line: Option<int>)
      requires Valid()
      modifies this
      ensures Valid() && scopes == V.ExtractTargetVars(old(scopes), old(current), t, line)
      ensures current == old(current) && lineToScope == old(lineToScope)
      decreases Size(t)
    {
      if t.Name? {
        AddVariable(current, t.id, VarInfo(line, Assignment));
      } else if t.Tuple? || t.List? {
        var elts := t.elts;
        ghost var a0, c0, m0 := scopes, current, lineToScope;
        for i := 0 to |elts|
          invariant Valid() && current == c0 && lineToScope == m0
          invariant scopes == V.ExtractEltVars(a0, c0, elts[..i], line)
        {
          ElementSize(elts, i);
          V.ExtractEltVarsStep(a0, c0, elts, line, i);
          ExtractTargetVars(elts[i], line);
        }
        assert elts[..|elts|] == elts;
      } else if t.Starred? {
        ExtractTargetVars(t.value, line);
      }
    }
  }

  /** What `StepDebugger.__init__` keeps of a `ScopeAnalyzer(code).analyze()`
      run: the scope tree and the line map. */
  method AnalyzeScopes(code: string, parsed: ParseResult) returns (scopes: Arena, lineToScope: map<int, nat>)
    ensures WellFormed(scopes) && IndexMap(scopes, lineToScope)
    ensures parsed.SyntaxError? ==> scopes == RootArena(|SplitLines(code)|) && lineToScope == map[]
    ensures parsed.Parsed? ==> scopes == V.Visit(RootArena(|SplitLines(code)|), 0, ModuleNode(parsed.body))
    ensures parsed.Parsed? ==> lineToScope == LineToScope(scopes)
  {
    var analyzer := new ScopeAnalyzer(code);
    var _ := analyzer.Analyze(parsed);
    scopes := analyzer.scopes;
    lineToScope := analyzer.lineToScope;
  }
}
