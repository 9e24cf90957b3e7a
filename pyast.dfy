/**
 * The part of Python's abstract syntax tree (module `ast`) that the debugger's
 * static analyses look at, and `ast.walk`, the breadth-first enumeration of a
 * tree's nodes that two of them loop over.
 *
 * Parsing is not modelled: a script reaches the model already parsed
 * (`ParseResult`), or as `SyntaxError` when `ast.parse` would raise.
 */
module PyAst {
  import opened Wrappers

  /** Source position of a scope-opening node: `lineno` and `end_lineno`, either
      of which may be missing (`None`). */
  datatype Span = Span(lineno: Option<int>, endLineno: Option<int>)

  /** The four comprehension node types. */
  datatype CompKind = ListComp | SetComp | DictComp | GeneratorExp

  /**
   * The node types the analyses treat specially. Every other node type (`If`,
   * `While`, `Return`, `Expr`, `Call`, `BinOp`, `Try`, `ExceptHandler`,
   * `AsyncFunctionDef`, `AsyncFor`, ...) is `Other`, holding its child nodes in
   * field order.
   *
   * - `params` of `FunctionDef`/`Lambda` are the names in `args.args` (the
   *   positional parameters); no analysis looks at any other parameter kind.
   * - `header` of `FunctionDef`/`ClassDef` holds the expressions outside the
   *   body (decorators, default values, annotations, base classes), and
   *   `defaults` of `Lambda` its default values: the scope analyzer never
   *   visits them, `ast.walk` does.
   * - `elts` of `Comp` is `[elt]`, or `[key, value]` for a dict comprehension.
   */
  datatype Node =
    | Name(id: string)
    | Tuple(elts: seq<Node>)
    | List(elts: seq<Node>)
    | Starred(value: Node)
    | Subscript(value: Node, slice: Node)
    | Attribute(value: Node, attr: string)
    | Lambda(params: seq<string>, defaults: seq<Node>, expr: Node, span: Span)
    | Comp(kind: CompKind, elts: seq<Node>, generators: seq<Generator>, span: Span)
    | FunctionDef(name: string, params: seq<string>, header: seq<Node>, body: seq<Node>, span: Span)
    | ClassDef(name: string, header: seq<Node>, body: seq<Node>, span: Span)
    | Assign(targets: seq<Node>, value: Node, lineno: int)
    | AugAssign(target: Node, value: Node, lineno: int)
    | For(target: Node, iter: Node, body: seq<Node>, orelse: seq<Node>, lineno: int)
    | With(items: seq<WithItem>, body: seq<Node>, lineno: int)
    | Other(children: seq<Node>)

  /** One `for target in iter if cond ...` clause of a comprehension. */
  datatype Generator = Generator(target: Node, iter: Node, ifs: seq<Node>)

  /** One item of a `with` statement: `context_expr`, or `context_expr as optional_vars`. */
  datatype WithItem = WithItem(contextExpr: Node) | WithItemAs(contextExpr: Node, optionalVars: Node)

  /** The result of `ast.parse`: a module body, or a `SyntaxError`. */
  datatype ParseResult = Parsed(body: seq<Node>) | SyntaxError

  /** The `ast.Module` node that `ast.parse` returns for `body`. */
  function ModuleNode(body: seq<Node>): Node {
    Other(body)
  }

  /** Number of nodes in a tree. */
  function Size(n: Node): (r: nat)
    ensures 1 <= r
  {
    match n
    case Name(_) => 1
    case Tuple(elts) => 1 + SeqSize(elts)
    case List(elts) => 1 + SeqSize(elts)
    case Starred(v) => 1 + Size(v)
    case Subscript(v, sl) => 1 + Size(v) + Size(sl)
    case Attribute(v, _) => 1 + Size(v)
    case Lambda(_, defaults, body, _) => 1 + SeqSize(defaults) + Size(body)
    case Comp(_, elts, gens, _) => 1 + SeqSize(elts) + GensSize(gens)
    case FunctionDef(_, _, header, body, _) => 1 + SeqSize(header) + SeqSize(body)
    case ClassDef(_, header, body, _) => 1 + SeqSize(header) + SeqSize(body)
    case Assign(targets, v, _) => 1 + SeqSize(targets) + Size(v)
    case AugAssign(t, v, _) => 1 + Size(t) + Size(v)
    case For(t, it, body, orelse, _) => 1 + Size(t) + Size(it) + SeqSize(body) + SeqSize(orelse)
    case With(items, body, _) => 1 + ItemsSize(items) + SeqSize(body)
    case Other(children) => 1 + SeqSize(children)
  }

  function SeqSize(ns: seq<Node>): nat {
    if ns == [] then 0 else Size(ns[0]) + SeqSize(ns[1..])
  }

  function GenSize(g: Generator): nat {
    Size(g.target) + Size(g.iter) + SeqSize(g.ifs)
  }

  function GensSize(gs: seq<Generator>): nat {
    if gs == [] then 0 else GenSize(gs[0]) + GensSize(gs[1..])
  }

  function ItemSize(item: WithItem): nat {
    match item
    case WithItem(e) => Size(e)
    case WithItemAs(e, v) => Size(e) + Size(v)
  }

  function ItemsSize(items: seq<WithItem>): nat {
    if items == [] then 0 else ItemSize(items[0]) + ItemsSize(items[1..])
  }

  /** The nodes of the comprehension clauses, each clause's target, iterable and conditions in turn. */
  function GensChildren(gs: seq<Generator>): seq<Node> {
    if gs == [] then [] else [gs[0].target, gs[0].iter] + gs[0].ifs + GensChildren(gs[1..])
  }

  /** The nodes of the `with` items, each item's context expression and target in turn. */
  function ItemsChildren(items: seq<WithItem>): seq<Node> {
    if items == [] then []
    else
      [items[0].contextExpr]
      + (if items[0].WithItemAs? then [items[0].optionalVars] else [])
      + ItemsChildren(items[1..])
  }

  /** `ast.iter_child_nodes`: the direct children of a node, in field order (the
      `comprehension`, `withitem` and `arguments` wrappers are flattened away),
      except that a definition's `header` comes before its body, where `ast`
      lists decorators and the return annotation after it. A header holds only
      expressions, never an assignment, so the order in which assignments are
      walked is the same. */
  function Children(n: Node): seq<Node> {
    match n
    case Name(_) => []
    case Tuple(elts) => elts
    case List(elts) => elts
    case Starred(v) => [v]
    case Subscript(v, sl) => [v, sl]
    case Attribute(v, _) => [v]
    case Lambda(_, defaults, body, _) => defaults + [body]
    case Comp(_, elts, gens, _) => elts + GensChildren(gens)
    case FunctionDef(_, _, header, body, _) => header + body
    case ClassDef(_, header, body, _) => header + body
    case Assign(targets, v, _) => targets + [v]
    case AugAssign(t, v, _) => [t, v]
    case For(t, it, body, orelse, _) => [t, it] + body + orelse
    case With(items, body, _) => ItemsChildren(items) + body
    case Other(children) => children
  }

  lemma {:induction false} SeqSizeConcat(a: seq<Node>, b: seq<Node>)
    ensures SeqSize(a + b) == SeqSize(a) + SeqSize(b)
  {
    if a == [] {
      assert a + b == b;
    } else {
      assert (a + b)[0] == a[0];
      assert (a + b)[1..] == a[1..] + b;
      SeqSizeConcat(a[1..], b);
    }
  }

  lemma {:induction false} GensChildrenSize(gs: seq<Generator>)
    ensures SeqSize(GensChildren(gs)) == GensSize(gs)
  {
    if gs != [] {
      var g := gs[0];
      SeqSizeConcat([g.target, g.iter] + g.ifs, GensChildren(gs[1..]));
      SeqSizeConcat([g.target, g.iter], g.ifs);
      assert [g.target, g.iter][1..] == [g.iter];
      GensChildrenSize(gs[1..]);
    }
  }

  lemma {:induction false} ItemsChildrenSize(items: seq<WithItem>)
    ensures SeqSize(ItemsChildren(items)) == ItemsSize(items)
  {
    if items != [] {
      var it := items[0];
      var vs := if it.WithItemAs? then [it.optionalVars] else [];
      SeqSizeConcat([it.contextExpr] + vs, ItemsChildren(items[1..]));
      SeqSizeConcat([it.contextExpr], vs);
      ItemsChildrenSize(items[1..]);
    }
  }

  lemma {:induction false} GensSizeConcat(a: seq<Generator>, b: seq<Generator>)
    ensures GensSize(a + b) == GensSize(a) + GensSize(b)
  {
    if a == [] {
      assert a + b == b;
    } else {
      assert (a + b)[0] == a[0];
      assert (a + b)[1..] == a[1..] + b;
      GensSizeConcat(a[1..], b);
    }
  }

  lemma {:induction false} ItemsSizeConcat(a: seq<WithItem>, b: seq<WithItem>)
    ensures ItemsSize(a + b) == ItemsSize(a) + ItemsSize(b)
  {
    if a == [] {
      assert a + b == b;
    } else {
      assert (a + b)[0] == a[0];
      assert (a + b)[1..] == a[1..] + b;
      ItemsSizeConcat(a[1..], b);
    }
  }

  /** Splitting off the last node of a sequence. */
  lemma SeqSizeLast(ns: seq<Node>)
    requires ns != []
    ensures SeqSize(ns) == SeqSize(ns[..|ns| - 1]) + Size(ns[|ns| - 1])
  {
    SeqSizeConcat(ns[..|ns| - 1], [ns[|ns| - 1]]);
    assert ns[..|ns| - 1] + [ns[|ns| - 1]] == ns;
  }

  lemma GensSizeLast(gs: seq<Generator>)
    requires gs != []
    ensures GensSize(gs) == GensSize(gs[..|gs| - 1]) + GenSize(gs[|gs| - 1])
  {
    GensSizeConcat(gs[..|gs| - 1], [gs[|gs| - 1]]);
    assert gs[..|gs| - 1] + [gs[|gs| - 1]] == gs;
  }

  lemma ItemsSizeLast(items: seq<WithItem>)
    requires items != []
    ensures ItemsSize(items) == ItemsSize(items[..|items| - 1]) + ItemSize(items[|items| - 1])
  {
    ItemsSizeConcat(items[..|items| - 1], [items[|items| - 1]]);
    assert items[..|items| - 1] + [items[|items| - 1]] == items;
  }

  /** Every element of a sequence is no bigger than the whole sequence. */
  lemma {:induction false} ElementSize(ns: seq<Node>, k: nat)
    requires k < |ns|
    ensures Size(ns[k]) <= SeqSize(ns[..k + 1]) <= SeqSize(ns)
  {
    SeqSizeConcat(ns[..k + 1], ns[k + 1..]);
    assert ns[..k + 1] + ns[k + 1..] == ns;
    SeqSizeLast(ns[..k + 1]);
    assert ns[..k + 1][..k] == ns[..k];
  }

  lemma {:induction false} GenElementSize(gs: seq<Generator>, k: nat)
    requires k < |gs|
    ensures GenSize(gs[k]) <= GensSize(gs)
  {
    GensSizeConcat(gs[..k + 1], gs[k + 1..]);
    assert gs[..k + 1] + gs[k + 1..] == gs;
    GensSizeLast(gs[..k + 1]);
  }

  lemma {:induction false} ItemElementSize(items: seq<WithItem>, k: nat)
    requires k < |items|
    ensures ItemSize(items[k]) <= ItemsSize(items)
  {
    ItemsSizeConcat(items[..k + 1], items[k + 1..]);
    assert items[..k + 1] + items[k + 1..] == items;
    ItemsSizeLast(items[..k + 1]);
  }

  /** The size of a node in terms of its fields. */
  lemma PartsSize(n: Node)
    ensures n.FunctionDef? ==> Size(n) == 1 + SeqSize(n.header) + SeqSize(n.body)
    ensures n.ClassDef? ==> Size(n) == 1 + SeqSize(n.header) + SeqSize(n.body)
    ensures n.Lambda? ==> Size(n) == 1 + SeqSize(n.defaults) + Size(n.expr)
    ensures n.Comp? ==> Size(n) == 1 + SeqSize(n.elts) + GensSize(n.generators)
    ensures n.Assign? ==> Size(n) == 1 + SeqSize(n.targets) + Size(n.value)
    ensures n.AugAssign? ==> Size(n) == 1 + Size(n.target) + Size(n.value)
    ensures n.For? ==> Size(n) == 1 + Size(n.target) + Size(n.iter) + SeqSize(n.body) + SeqSize(n.orelse)
    ensures n.With? ==> Size(n) == 1 + ItemsSize(n.items) + SeqSize(n.body)
  {
  }

  /** The parts of a comprehension's `i`-th clause, and its elements, are smaller than it. */
  lemma CompPartsSize(n: Node, i: nat)
    requires n.Comp? && i < |n.generators|
    ensures Size(n.generators[i].target) < Size(n) && Size(n.generators[i].iter) < Size(n)
    ensures SeqSize(n.generators[i].ifs) < Size(n) && SeqSize(n.elts) < Size(n)
  {
    GenElementSize(n.generators, i);
  }

  lemma SingleSize(a: Node)
    ensures SeqSize([a]) == Size(a)
  {
    assert [a][0] == a && [a][1..] == [];
  }

  lemma PairSize(a: Node, b: Node)
    ensures SeqSize([a, b]) == Size(a) + Size(b)
  {
    assert [a, b][0] == a && [a, b][1..] == [b];
    SingleSize(b);
  }

  /** A node is one more than its children. */
  lemma ChildrenSize(n: Node)
    ensures SeqSize(Children(n)) == Size(n) - 1
  {
    if n.Lambda? || n.Comp? || n.FunctionDef? || n.ClassDef? || n.Assign? || n.AugAssign? || n.For? || n.With? {
      CompoundChildrenSize(n);
    } else {
      SimpleChildrenSize(n);
    }
  }

  lemma SimpleChildrenSize(n: Node)
    requires !n.Lambda? && !n.Comp? && !n.FunctionDef? && !n.ClassDef?
    requires !n.Assign? && !n.AugAssign? && !n.For? && !n.With?
    ensures SeqSize(Children(n)) == Size(n) - 1
  {
    match n
    case Name(_) =>
    case Tuple(_) =>
    case List(_) =>
    case Starred(v) =>
      SingleSize(v);
    case Subscript(v, sl) =>
      PairSize(v, sl);
    case Attribute(v, _) =>
      SingleSize(v);
    case Other(_) =>
  }

  lemma CompoundChildrenSize(n: Node)
    requires n.Lambda? || n.Comp? || n.FunctionDef? || n.ClassDef? || n.Assign? || n.AugAssign? || n.For? || n.With?
    ensures SeqSize(Children(n)) == Size(n) - 1
  {
    match n
    case Lambda(_, defaults, body, _) =>
      SeqSizeConcat(defaults, [body]);
      SingleSize(body);
    case Comp(_, elts, gens, _) =>
      SeqSizeConcat(elts, GensChildren(gens));
      GensChildrenSize(gens);
    case FunctionDef(_, _, header, body, _) =>
      SeqSizeConcat(header, body);
    case ClassDef(_, header, body, _) =>
      SeqSizeConcat(header, body);
    case _ =>
      StatementChildrenSize(n);
  }

  lemma StatementChildrenSize(n: Node)
    requires n.Assign? || n.AugAssign? || n.For? || n.With?
    ensures SeqSize(Children(n)) == Size(n) - 1
  {
    PartsSize(n);
    match n
    case Assign(targets, v, _) =>
      SeqSizeConcat(targets, [v]);
      SingleSize(v);
    case AugAssign(t, v, _) =>
      PairSize(t, v);
    case For(_, _, _, _, _) =>
      ForChildrenSize(n);
    case With(items, body, _) =>
      SeqSizeConcat(ItemsChildren(items), body);
      ItemsChildrenSize(items);
  }

  lemma ForChildrenSize(n: Node)
    requires n.For?
    ensures SeqSize(Children(n)) == Size(n) - 1
  {
    PartsSize(n);
    SeqSizeConcat([n.target, n.iter] + n.body, n.orelse);
    SeqSizeConcat([n.target, n.iter], n.body);
    PairSize(n.target, n.iter);
  }

  /** `ast.walk(...)` started from the nodes in `queue`: breadth first, each node
      yielded when it leaves the queue, its children appended behind the rest. */
  function Walk(queue: seq<Node>): seq<Node>
    decreases SeqSize(queue)
  {
    if queue == [] then []
    else
      SeqSizeConcat([queue[0]], queue[1..]);
      assert [queue[0]] + queue[1..] == queue;
      SeqSizeConcat(queue[1..], Children(queue[0]));
      ChildrenSize(queue[0]);
      [queue[0]] + Walk(queue[1..] + Children(queue[0]))
  }

  /** One step of the walk: the front node is yielded, its children queued behind the rest. */
  lemma WalkStep(n: Node, rest: seq<Node>)
    ensures Walk([n] + rest) == [n] + Walk(rest + Children(n))
  {
    assert ([n] + rest)[1..] == rest;
  }

  /** The walk of nodes without children is those nodes. */
  lemma {:induction false} WalkLeaves(ns: seq<Node>)
    requires forall k :: 0 <= k < |ns| ==> Children(ns[k]) == []
    ensures Walk(ns) == ns
  {
    if ns != [] {
      WalkStep(ns[0], ns[1..]);
      assert [ns[0]] + ns[1..] == ns;
      assert ns[1..] + Children(ns[0]) == ns[1..];
      WalkLeaves(ns[1..]);
    }
  }

  /** All nodes of a tree, counted with multiplicity: the reference the walk is
      checked against. */
  function Subtrees(n: Node): multiset<Node>
    decreases Size(n), 0
  {
    ChildrenSize(n);
    multiset{n} + SeqSubtrees(Children(n))
  }

  function SeqSubtrees(ns: seq<Node>): multiset<Node>
    decreases SeqSize(ns), 1
  {
    if ns == [] then multiset{}
    else
      SeqSizeConcat([ns[0]], ns[1..]);
      assert [ns[0]] + ns[1..] == ns;
      Subtrees(ns[0]) + SeqSubtrees(ns[1..])
  }

  lemma {:induction false} SeqSubtreesConcat(a: seq<Node>, b: seq<Node>)
    ensures SeqSubtrees(a + b) == SeqSubtrees(a) + SeqSubtrees(b)
  {
    if a == [] {
      assert a + b == b;
    } else {
      assert (a + b)[0] == a[0];
      assert (a + b)[1..] == a[1..] + b;
      SeqSubtreesConcat(a[1..], b);
    }
  }

  /** `ast.walk` yields every node of the trees it starts from, each exactly once. */
  lemma {:induction false} WalkVisitsEveryNodeOnce(queue: seq<Node>)
    ensures multiset(Walk(queue)) == SeqSubtrees(queue)
    ensures |Walk(queue)| == SeqSize(queue)
    decreases SeqSize(queue)
  {
    if queue != [] {
      var q0, rest := queue[0], queue[1..];
      assert [q0] + rest == queue;
      SingleSize(q0);
      SeqSizeConcat([q0], rest);
      SeqSizeConcat(rest, Children(q0));
      ChildrenSize(q0);
      WalkVisitsEveryNodeOnce(rest + Children(q0));
      SeqSubtreesConcat(rest, Children(q0));
      var w := Walk(rest + Children(q0));
      assert Walk(queue) == [q0] + w;
      assert multiset(Walk(queue)) == multiset{q0} + multiset(w);
      assert SeqSubtrees(queue) == Subtrees(q0) + SeqSubtrees(rest);
    }
  }
}
