/**
 * The two static extractions over a parsed script:
 * `extract_assigned_variables` (the names a learner would want to watch, used
 * when the caller gives no explicit list) and
 * `StepDebugger._extract_variable_assignments` (each assigned name's source
 * line). Both loop over `ast.walk` of the module.
 */
module Extraction {
  import opened Wrappers
  import opened PyStr
  import opened PyAst

  /** The names an assignment-like target contributes: a `Name` gives its
      identifier, a `Tuple` the `Name`s directly among its elements (nested
      tuples, lists, starred names are not looked into), anything else nothing. */
  function NameOrTupleNames(target: Node): set<string> {
    match target
    case Name(id) => {id}
    case Tuple(elts) => set i | 0 <= i < |elts| && elts[i].Name? :: elts[i].id
    case _ => {}
  }

  function TargetsNames(targets: seq<Node>): set<string> {
    if targets == [] then {}
    else TargetsNames(targets[..|targets| - 1]) + NameOrTupleNames(targets[|targets| - 1])
  }

  function GeneratorsNames(gs: seq<Generator>): set<string> {
    if gs == [] then {}
    else GeneratorsNames(gs[..|gs| - 1]) + NameOrTupleNames(gs[|gs| - 1].target)
  }

  /** What one node adds to the set: targets of `Assign`, a `Name` target of
      `AugAssign`, the target of `For`, the positional parameters of
      `FunctionDef` and the targets of a comprehension's clauses. */
  function DirectNames(n: Node): set<string> {
    match n
    case Assign(targets, _, _) => TargetsNames(targets)
    case AugAssign(target, _, _) => if target.Name? then {target.id} else {}
    case For(target, _, _, _, _) => NameOrTupleNames(target)
    case FunctionDef(_, params, _, _, _) => set i | 0 <= i < |params| :: params[i]
    case Comp(_, _, gens, _) => GeneratorsNames(gens)
    case _ => {}
  }

  /** The union of `DirectNames` over a sequence of nodes. */
  function NamesOf(nodes: seq<Node>): set<string> {
    if nodes == [] then {} else NamesOf(nodes[..|nodes| - 1]) + DirectNames(nodes[|nodes| - 1])
  }

  /** Reference definition, by structural recursion and independent of any
      traversal order: the names assigned anywhere in a tree. */
  function AssignedIn(n: Node): set<string>
    decreases Size(n), 0
  {
    ChildrenSize(n);
    DirectNames(n) + AssignedInSeq(Children(n))
  }

  function AssignedInSeq(ns: seq<Node>): set<string>
    decreases SeqSize(ns), 1
  {
    if ns == [] then {}
    else
      SeqSizeConcat([ns[0]], ns[1..]);
      assert [ns[0]] + ns[1..] == ns;
      AssignedIn(ns[0]) + AssignedInSeq(ns[1..])
  }

  lemma {:induction false} NamesOfConcat(a: seq<Node>, b: seq<Node>)
    ensures NamesOf(a + b) == NamesOf(a) + NamesOf(b)
    decreases |b|
  {
    if b == [] {
      assert a + b == a;
    } else {
      assert (a + b)[..|a + b| - 1] == a + b[..|b| - 1];
      NamesOfConcat(a, b[..|b| - 1]);
    }
  }

  lemma {:induction false} AssignedInSeqConcat(a: seq<Node>, b: seq<Node>)
    ensures AssignedInSeq(a + b) == AssignedInSeq(a) + AssignedInSeq(b)
  {
    if a == [] {
      assert a + b == b;
    } else {
      assert (a + b)[0] == a[0];
      assert (a + b)[1..] == a[1..] + b;
      AssignedInSeqConcat(a[1..], b);
    }
  }

  /** Looping over `ast.walk` collects exactly the names assigned anywhere in the
      trees it starts from. */
  lemma {:induction false} WalkCollectsAssignedNames(queue: seq<Node>)
    ensures NamesOf(Walk(queue)) == AssignedInSeq(queue)
    decreases SeqSize(queue)
  {
    if queue != [] {
      var q0, rest := queue[0], queue[1..];
      SeqSizeConcat([q0], rest);
      assert [q0] + rest == queue;
      SeqSizeConcat(rest, Children(q0));
      ChildrenSize(q0);
      WalkCollectsAssignedNames(rest + Children(q0));
      NamesOfConcat([q0], Walk(rest + Children(q0)));
      assert NamesOf([q0]) == DirectNames(q0) by {
        assert [q0][..0] == [];
      }
      AssignedInSeqConcat(rest, Children(q0));
    }
  }

  /** Adds the names of one `Name`/`Tuple` target to `names`. */
  method AddTargetNames(names: set<string>, target: Node) returns (r: set<string>)
    ensures r == names + NameOrTupleNames(target)
  {
    r := names;
    match target
    case Name(id) =>
      r := r + {id};
    case Tuple(elts) =>
      for k := 0 to |elts|
        invariant r == names + set i | 0 <= i < k && elts[i].Name? :: elts[i].id
      {
        if elts[k].Name? {
          r := r + {elts[k].id};
        }
      }
    case _ =>
  }

  /** The body of the loop over the walk: adds what one node assigns. */
  method AddDirectNames(names: set<string>, node: Node) returns (r: set<string>)
    ensures r == names + DirectNames(node)
  {
    r := names;
    match node
    case Assign(targets, _, _) =>
      for j := 0 to |targets|
        invariant r == names + TargetsNames(targets[..j])
      {
        assert targets[..j + 1][..j] == targets[..j];
        r := AddTargetNames(r, targets[j]);
      }
      assert targets[..|targets|] == targets;
    case AugAssign(target, _, _) =>
      if target.Name? {
        r := r + {target.id};
      }
    case For(target, _, _, _, _) =>
      r := AddTargetNames(r, target);
    case FunctionDef(_, params, _, _, _) =>
      for j := 0 to |params|
        invariant r == names + set k | 0 <= k < j :: params[k]
      {
        r := r + {params[j]};
      }
    case Comp(_, _, gens, _) =>
      for j := 0 to |gens|
        invariant r == names + GeneratorsNames(gens[..j])
      {
        assert gens[..j + 1][..j] == gens[..j];
        r := AddTargetNames(r, gens[j].target);
      }
      assert gens[..|gens|] == gens;
    case _ =>
  }

  /**
   * `extract_assigned_variables`: the set of names assigned in the script, or
   * the empty set when it does not parse. The source returns `list(...)` of this
   * set, in no particular order.
   */
  method ExtractAssignedVariables(parsed: ParseResult) returns (names: set<string>)
    ensures parsed.SyntaxError? ==> names == {}
    ensures parsed.Parsed? ==> names == NamesOf(Walk([ModuleNode(parsed.body)]))
    ensures parsed.Parsed? ==> names == AssignedIn(ModuleNode(parsed.body))
  {
    match parsed
    case SyntaxError =>
      names := {};
    case Parsed(body) =>
      var nodes := Walk([ModuleNode(body)]);
      names := {};
      for i := 0 to |nodes|
        invariant names == NamesOf(nodes[..i])
      {
        assert nodes[..i + 1][..i] == nodes[..i];
        names := AddDirectNames(names, nodes[i]);
      }
      assert nodes[..|nodes|] == nodes;
      WalkCollectsAssignedNames([ModuleNode(body)]);
      assert AssignedInSeq([ModuleNode(body)]) == AssignedIn(ModuleNode(body)) by {
        assert [ModuleNode(body)][1..] == [];
      }
  }

  /** The walk of a module with `body`. */
  function ModuleWalk(body: seq<Node>): seq<Node> {
    Walk([ModuleNode(body)])
  }

  /** `assignments[target.id] = text` for each `Name` among `targets`, in order. */
  function RecordTargets(m: map<string, string>, targets: seq<Node>, text: string): map<string, string> {
    if targets == [] then m
    else
      var prev := RecordTargets(m, targets[..|targets| - 1], text);
      var t := targets[|targets| - 1];
      if t.Name? then prev[t.id := text] else prev
  }

  /** `lineno` is a 1-based line of `lines` (the index test of the source). */
  predicate InLines(lines: seq<string>, lineno: int) {
    0 <= lineno - 1 < |lines|
  }

  /** What one node of the walk does to the dictionary: an `Assign` on a line of
      the script records that line, stripped, for each of its `Name` targets. */
  function RecordAssign(lines: seq<string>, m: map<string, string>, n: Node): map<string, string> {
    if n.Assign? && InLines(lines, n.lineno) then RecordTargets(m, n.targets, Strip(lines[n.lineno - 1]))
    else m
  }

  /** The dictionary built by looping over `nodes`. */
  function AssignmentsOf(lines: seq<string>, nodes: seq<Node>): map<string, string> {
    if nodes == [] then map[]
    else RecordAssign(lines, AssignmentsOf(lines, nodes[..|nodes| - 1]), nodes[|nodes| - 1])
  }

  /** `nodes[j]` is an assignment on a line of the script with `x` as one of its targets. */
  predicate AssignsAt(lines: seq<string>, nodes: seq<Node>, j: int, x: string) {
    0 <= j < |nodes| && nodes[j].Assign? && InLines(lines, nodes[j].lineno) && Name(x) in nodes[j].targets
  }

  lemma {:induction false} RecordTargetsEffect(m: map<string, string>, targets: seq<Node>, text: string, x: string)
    ensures x in RecordTargets(m, targets, text) <==> x in m || Name(x) in targets
    ensures Name(x) in targets ==> RecordTargets(m, targets, text)[x] == text
    ensures Name(x) !in targets && x in m ==> RecordTargets(m, targets, text)[x] == m[x]
  {
    if targets != [] {
      var init := targets[..|targets| - 1];
      assert targets == init + [targets[|targets| - 1]];
      RecordTargetsEffect(m, init, text, x);
    }
  }

  /** A name is a key of the dictionary exactly when some assignment in the walk
      on a line of the script has it as a target. */
  lemma {:induction false} AssignmentKeys(lines: seq<string>, nodes: seq<Node>, x: string)
    ensures x in AssignmentsOf(lines, nodes) <==> exists j :: AssignsAt(lines, nodes, j, x)
  {
    if nodes != [] {
      var init, last := nodes[..|nodes| - 1], nodes[|nodes| - 1];
      AssignmentKeys(lines, init, x);
      if last.Assign? && InLines(lines, last.lineno) {
        RecordTargetsEffect(AssignmentsOf(lines, init), last.targets, Strip(lines[last.lineno - 1]), x);
      }
      if x in AssignmentsOf(lines, nodes) {
        if x in AssignmentsOf(lines, init) {
          var j :| AssignsAt(lines, init, j, x);
          assert AssignsAt(lines, nodes, j, x);
        } else {
          assert AssignsAt(lines, nodes, |nodes| - 1, x);
        }
      } else {
        forall j | 0 <= j < |nodes| ensures !AssignsAt(lines, nodes, j, x) {
          if j < |init| {
            assert !AssignsAt(lines, init, j, x);
          }
        }
      }
    }
  }

  /** The last such assignment in walk order wins: the dictionary holds its
      stripped line. */
  lemma {:induction false} LastAssignmentWins(lines: seq<string>, nodes: seq<Node>, x: string, j: int)
    requires AssignsAt(lines, nodes, j, x)
    requires forall k :: j < k < |nodes| ==> !AssignsAt(lines, nodes, k, x)
    ensures x in AssignmentsOf(lines, nodes)
    ensures AssignmentsOf(lines, nodes)[x] == Strip(lines[nodes[j].lineno - 1])
  {
    var init, last := nodes[..|nodes| - 1], nodes[|nodes| - 1];
    var prev := AssignmentsOf(lines, init);
    if j == |nodes| - 1 {
      RecordTargetsEffect(prev, last.targets, Strip(lines[last.lineno - 1]), x);
    } else {
      assert AssignsAt(lines, init, j, x);
      forall k | j < k < |init| ensures !AssignsAt(lines, init, k, x) {
        assert !AssignsAt(lines, nodes, k, x);
      }
      LastAssignmentWins(lines, init, x, j);
      assert !AssignsAt(lines, nodes, |nodes| - 1, x);
      if last.Assign? && InLines(lines, last.lineno) {
        RecordTargetsEffect(prev, last.targets, Strip(lines[last.lineno - 1]), x);
      }
    }
  }

  /** The body of the loop over the walk, for one node. */
  method RecordAssignment(lines: seq<string>, m: map<string, string>, node: Node) returns (r: map<string, string>)
    ensures r == RecordAssign(lines, m, node)
  {
    r := m;
    if node.Assign? {
      var inLines := InLines(lines, node.lineno);
      var text := if inLines then Strip(lines[node.lineno - 1]) else "";
      for j := 0 to |node.targets|
        invariant r == if inLines then RecordTargets(m, node.targets[..j], text) else m
      {
        var target := node.targets[j];
        assert node.targets[..j + 1][..j] == node.targets[..j];
        if target.Name? {
          var lineIdx := node.lineno - 1;
          if 0 <= lineIdx < |lines| {
            r := r[target.id := Strip(lines[lineIdx])];
          }
        }
      }
      assert node.targets[..|node.targets|] == node.targets;
    }
  }

  /**
   * `StepDebugger._extract_variable_assignments`: for each name assigned by a
   * plain `name = ...` target, the stripped text of the line of the assignment
   * met last in `ast.walk` order; empty when the script does not parse.
   */
  method ExtractVariableAssignments(lines: seq<string>, parsed: ParseResult) returns (assignments: map<string, string>)
    ensures parsed.SyntaxError? ==> assignments == map[]
    ensures parsed.Parsed? ==> assignments == AssignmentsOf(lines, ModuleWalk(parsed.body))
  {
    assignments := map[];
    match parsed
    case SyntaxError =>
    case Parsed(body) =>
      var nodes := ModuleWalk(body);
      for i := 0 to |nodes|
        invariant assignments == AssignmentsOf(lines, nodes[..i])
      {
        assert nodes[..i + 1][..i] == nodes[..i];
        assignments := RecordAssignment(lines, assignments, nodes[i]);
      }
      assert nodes[..|nodes|] == nodes;
  }

  /** `x = 1`, then `for y in range(3):` with `z = y` in its body: the watched
      names are `x`, `y` and `z`. */
  lemma AssignedNamesExample()
    ensures AssignedIn(ModuleNode([
              Assign([Name("x")], Other([]), 1),
              For(Name("y"), Other([Name("range"), Other([])]), [Assign([Name("z")], Name("y"), 3)], [], 2)]))
            == {"x", "y", "z"}
  {
    var a1 := Assign([Name("x")], Other([]), 1);
    var a3 := Assign([Name("z")], Name("y"), 3);
    var f := For(Name("y"), Other([Name("range"), Other([])]), [a3], [], 2);
    assert [a1, f][1..] == [f];
    assert [Name("x")][..0] == [];
    assert [Name("z")][..0] == [];
    assert AssignedIn(a1) == {"x"};
    assert AssignedIn(a3) == {"z"} by {
      assert Children(a3) == [Name("z"), Name("y")];
      assert [Name("z"), Name("y")][1..] == [Name("y")];
    }
    assert AssignedIn(f) == {"y", "z"} by {
      assert Children(f) == [Name("y"), Other([Name("range"), Other([])]), a3];
      assert [Name("y"), Other([Name("range"), Other([])]), a3][1..] == [Other([Name("range"), Other([])]), a3];
      assert [Other([Name("range"), Other([])]), a3][1..] == [a3];
      assert [Name("range"), Other([])][1..] == [Other([])];
    }
  }

  /** One more node in front of a sequence adds its names. */
  lemma AssignedInSeqCons(n: Node, ns: seq<Node>)
    ensures AssignedInSeq([n] + ns) == AssignedIn(n) + AssignedInSeq(ns)
  {
    assert ([n] + ns)[1..] == ns;
  }

  /** A module, or any other node that binds nothing itself, assigns what its
      statements assign. */
  lemma ModuleAssigned(body: seq<Node>)
    ensures AssignedIn(ModuleNode(body)) == AssignedInSeq(body)
  {
  }

  /** `a, (b, c) = t` */
  function NestedTupleAssign(): Node {
    Assign([Tuple([Name("a"), Tuple([Name("b"), Name("c")])])], Name("t"), 1)
  }

  /** `d[0] = 1` */
  function SubscriptAssign(): Node {
    Assign([Subscript(Name("d"), Other([]))], Other([]), 2)
  }

  /** `for i, j in t: pass` */
  function TupleLoop(): Node {
    For(Tuple([Name("i"), Name("j")]), Name("t"), [], [], 3)
  }

  /** `def f(p): return [k for k in p]` */
  function CompInFunction(): Node {
    FunctionDef("f", ["p"], [],
      [Other([Comp(ListComp, [Name("k")], [Generator(Name("k"), Name("p"), [])], Span(None, None))])],
      Span(Some(4), Some(4)))
  }

  /** Only the direct name of the tuple target is watched, not the nested tuple's. */
  lemma NestedTupleAssignNames()
    ensures AssignedIn(NestedTupleAssign()) == {"a"}
  {
    var inner := Tuple([Name("b"), Name("c")]);
    var tup := Tuple([Name("a"), inner]);
    AssignedInSeqCons(Name("b"), [Name("c")]);
    AssignedInSeqCons(Name("c"), []);
    assert AssignedIn(inner) == {};
    AssignedInSeqCons(Name("a"), [inner]);
    AssignedInSeqCons(inner, []);
    assert AssignedIn(tup) == {};
    assert TargetsNames([tup]) == {"a"} by {
      assert [tup][..0] == [];
      assert tup.elts[0] == Name("a") && !tup.elts[1].Name?;
      assert "a" in NameOrTupleNames(tup);
    }
    AssignedInSeqCons(tup, [Name("t")]);
    AssignedInSeqCons(Name("t"), []);
  }

  /** A subscript target names no variable. */
  lemma SubscriptAssignNames()
    ensures AssignedIn(SubscriptAssign()) == {}
  {
    var sub := Subscript(Name("d"), Other([]));
    AssignedInSeqCons(Name("d"), [Other([])]);
    AssignedInSeqCons(Other([]), []);
    assert AssignedIn(sub) == {};
    assert TargetsNames([sub]) == {} by { assert [sub][..0] == []; }
    AssignedInSeqCons(sub, [Other([])]);
  }

  /** Both names of a tuple loop target are watched. */
  lemma TupleLoopNames()
    ensures AssignedIn(TupleLoop()) == {"i", "j"}
  {
    var pair := Tuple([Name("i"), Name("j")]);
    AssignedInSeqCons(Name("i"), [Name("j")]);
    AssignedInSeqCons(Name("j"), []);
    assert AssignedIn(pair) == {};
    assert NameOrTupleNames(pair) == {"i", "j"};
    assert Children(TupleLoop()) == [pair, Name("t")];
    AssignedInSeqCons(pair, [Name("t")]);
    AssignedInSeqCons(Name("t"), []);
  }

  /** The parameter and the comprehension variable are watched; the function's
      own name is not. */
  lemma CompInFunctionNames()
    ensures AssignedIn(CompInFunction()) == {"p", "k"}
  {
    var comp := Comp(ListComp, [Name("k")], [Generator(Name("k"), Name("p"), [])], Span(None, None));
    assert GeneratorsNames([Generator(Name("k"), Name("p"), [])]) == {"k"} by {
      assert [Generator(Name("k"), Name("p"), [])][..0] == [];
    }
    assert Children(comp) == [Name("k"), Name("k"), Name("p")];
    AssignedInSeqCons(Name("k"), [Name("k"), Name("p")]);
    AssignedInSeqCons(Name("k"), [Name("p")]);
    AssignedInSeqCons(Name("p"), []);
    assert AssignedIn(comp) == {"k"};
    AssignedInSeqCons(comp, []);
    assert [comp] + [] == [comp];
    ModuleAssigned([comp]);
    assert AssignedIn(Other([comp])) == {"k"};
    assert Children(CompInFunction()) == [Other([comp])];
    AssignedInSeqCons(Other([comp]), []);
    assert [Other([comp])] + [] == [Other([comp])];
    assert DirectNames(CompInFunction()) == {"p"} by {
      var ps := CompInFunction().params;
      assert ps == ["p"] && ps[0] == "p";
      assert "p" in (set i | 0 <= i < |ps| :: ps[i]);
    }
  }

  /** The four statements above as one script: only the direct names of a
      tuple target, the loop variables, the parameter and the comprehension
      variable are watched. */
  lemma AssignedNamesTargetsExample()
    ensures AssignedIn(ModuleNode([NestedTupleAssign(), SubscriptAssign(), TupleLoop(), CompInFunction()]))
         == {"a", "i", "j", "p", "k"}
  {
    NestedTupleAssignNames();
    SubscriptAssignNames();
    TupleLoopNames();
    CompInFunctionNames();
    ModuleOfFour(NestedTupleAssign(), SubscriptAssign(), TupleLoop(), CompInFunction());
  }

  /** A module of four statements assigns what they assign. */
  lemma ModuleOfFour(s1: Node, s2: Node, s3: Node, s4: Node)
    ensures AssignedIn(ModuleNode([s1, s2, s3, s4])) == AssignedIn(s1) + AssignedIn(s2) + AssignedIn(s3) + AssignedIn(s4)
  {
    ModuleAssigned([s1, s2, s3, s4]);
    assert AssignedInSeq([s4]) == AssignedIn(s4) by {
      assert [s4][1..] == [];
    }
    assert AssignedInSeq([s3, s4]) == AssignedIn(s3) + AssignedInSeq([s4]) by {
      assert [s3, s4][1..] == [s4];
    }
    assert AssignedInSeq([s2, s3, s4]) == AssignedIn(s2) + AssignedInSeq([s3, s4]) by {
      assert [s2, s3, s4][1..] == [s3, s4];
    }
    assert AssignedInSeq([s1, s2, s3, s4]) == AssignedIn(s1) + AssignedInSeq([s2, s3, s4]) by {
      assert [s1, s2, s3, s4][1..] == [s2, s3, s4];
    }
  }

  /** The tail of the walk below: what is left once both statements are dequeued. */
  lemma BreadthFirstWalkTail()
    ensures Walk([Name("c"), Assign([Name("x")], Other([]), 2), Name("x"), Other([])])
         == [Name("c"), Assign([Name("x")], Other([]), 2), Name("x"), Other([]), Name("x"), Other([])]
  {
    var a2 := Assign([Name("x")], Other([]), 2);
    var x, o, c := Name("x"), Other([]), Name("c");
    WalkLeaves([x, o, x, o]);
    assert Walk([a2, x, o]) == [a2, x, o, x, o] by {
      WalkStep(a2, [x, o]);
      assert [a2] + [x, o] == [a2, x, o] && [x, o] + Children(a2) == [x, o, x, o];
    }
    WalkStep(c, [a2, x, o]);
    assert [c] + [a2, x, o] == [c, a2, x, o] && [a2, x, o] + Children(c) == [a2, x, o];
  }

  /** The walk of `if c:` / `    x = 1` / `x = 2` below the module node. */
  lemma BreadthFirstWalkBody()
    ensures Walk([Other([Name("c"), Assign([Name("x")], Other([]), 2)]), Assign([Name("x")], Other([]), 3)])
         == [Other([Name("c"), Assign([Name("x")], Other([]), 2)]),
             Assign([Name("x")], Other([]), 3),
             Name("c"),
             Assign([Name("x")], Other([]), 2),
             Name("x"), Other([]), Name("x"), Other([])]
  {
    var a2 := Assign([Name("x")], Other([]), 2);
    var a3 := Assign([Name("x")], Other([]), 3);
    var iff := Other([Name("c"), a2]);
    var x, o, c := Name("x"), Other([]), Name("c");
    BreadthFirstWalkTail();
    assert Walk([a3, c, a2]) == [a3, c, a2, x, o, x, o] by {
      WalkStep(a3, [c, a2]);
      assert [a3] + [c, a2] == [a3, c, a2] && [c, a2] + Children(a3) == [c, a2, x, o];
    }
    WalkStep(iff, [a3]);
    assert [iff] + [a3] == [iff, a3] && [a3] + Children(iff) == [a3, c, a2];
  }

  /** The walk of `if c:` / `    x = 1` / `x = 2`: the `if` statement and the
      assignment on line 3 come before the assignment nested in the `if`. */
  lemma BreadthFirstWalkExample()
    ensures ModuleWalk([Other([Name("c"), Assign([Name("x")], Other([]), 2)]), Assign([Name("x")], Other([]), 3)])
         == [ModuleNode([Other([Name("c"), Assign([Name("x")], Other([]), 2)]), Assign([Name("x")], Other([]), 3)]),
             Other([Name("c"), Assign([Name("x")], Other([]), 2)]),
             Assign([Name("x")], Other([]), 3),
             Name("c"),
             Assign([Name("x")], Other([]), 2),
             Name("x"), Other([]), Name("x"), Other([])]
  {
    var body := [Other([Name("c"), Assign([Name("x")], Other([]), 2)]), Assign([Name("x")], Other([]), 3)];
    var m := ModuleNode(body);
    assert Walk([m]) == [m] + Walk(body) by {
      WalkStep(m, []);
      assert [m] + [] == [m];
      assert [] + Children(m) == body;
    }
    BreadthFirstWalkBody();
  }

  /** For that script the dictionary maps `x` to the nested line `x = 1`: the
      assignment met last in the walk wins, not the one last in the text. */
  lemma BreadthFirstOrderDecidesExample()
    ensures AssignmentsOf(["if c:", "    x = 1", "x = 2"],
              ModuleWalk([Other([Name("c"), Assign([Name("x")], Other([]), 2)]), Assign([Name("x")], Other([]), 3)]))
            == map["x" := "x = 1"]
  {
    BreadthFirstWalkExample();
    var a2 := Assign([Name("x")], Other([]), 2);
    var a3 := Assign([Name("x")], Other([]), 3);
    var iff := Other([Name("c"), a2]);
    ExampleAssignments(["if c:", "    x = 1", "x = 2"],
      [ModuleNode([iff, a3]), iff, a3, Name("c"), a2, Name("x"), Other([]), Name("x"), Other([])]);
  }

  /** The dictionary built from the walk of the example. */
  lemma ExampleAssignments(lines: seq<string>, nodes: seq<Node>)
    requires lines == ["if c:", "    x = 1", "x = 2"]
    requires nodes == [Other([Other([Name("c"), Assign([Name("x")], Other([]), 2)]), Assign([Name("x")], Other([]), 3)]),
                       Other([Name("c"), Assign([Name("x")], Other([]), 2)]),
                       Assign([Name("x")], Other([]), 3),
                       Name("c"),
                       Assign([Name("x")], Other([]), 2),
                       Name("x"), Other([]), Name("x"), Other([])]
    ensures AssignmentsOf(lines, nodes) == map["x" := "x = 1"]
  {
    ExampleAssignsAt(lines, nodes);
    LastAssignmentWins(lines, nodes, "x", 4);
    IndentedLineStrips();
    forall y ensures y in AssignmentsOf(lines, nodes) <==> y == "x" {
      AssignmentKeys(lines, nodes, y);
    }
  }

  /** Where the walk of the example assigns: the assignment on line 3 at
      position 2, the nested one on line 2 at position 4. */
  lemma ExampleAssignsAt(lines: seq<string>, nodes: seq<Node>)
    requires lines == ["if c:", "    x = 1", "x = 2"]
    requires nodes == [Other([Other([Name("c"), Assign([Name("x")], Other([]), 2)]), Assign([Name("x")], Other([]), 3)]),
                       Other([Name("c"), Assign([Name("x")], Other([]), 2)]),
                       Assign([Name("x")], Other([]), 3),
                       Name("c"),
                       Assign([Name("x")], Other([]), 2),
                       Name("x"), Other([]), Name("x"), Other([])]
    ensures forall j, y :: AssignsAt(lines, nodes, j, y) <==> (j == 2 || j == 4) && y == "x"
    ensures nodes[4].lineno == 2
  {
    forall j, y ensures AssignsAt(lines, nodes, j, y) <==> (j == 2 || j == 4) && y == "x" {
      if AssignsAt(lines, nodes, j, y) {
        assert j == 2 || j == 4;
        assert nodes[j].targets == [Name("x")];
      }
    }
  }

  lemma IndentedLineStrips()
    ensures Strip("    x = 1") == "x = 1"
  {
    assert LStrip("    x = 1") == "x = 1" by {
      assert "    x = 1"[1..] == "   x = 1";
      assert "   x = 1"[1..] == "  x = 1";
      assert "  x = 1"[1..] == " x = 1";
      assert " x = 1"[1..] == "x = 1";
    }
  }
}
