/**
 * `ScopeNode`: the tree of scopes (module, functions, classes, comprehensions,
 * lambdas) that the scope analyzer builds.
 *
 * The Python objects point at each other (`parent`, `children`); here the tree
 * lives in an arena, a sequence of `Scope` records in which a scope is known by
 * its index. The root is at index 0, and a scope is always created after its
 * parent, so a parent's index is smaller than its children's.
 */
module Scopes {
  import opened Wrappers
  import opened PyStr

  /** The `scope_type` of a scope. */
  datatype ScopeKind = Module | Function | Class | ListComp | DictComp | SetComp | Generator | Lambda

  /** The `scope_type` string; a comprehension scope also uses it as its name. */
  function KindName(k: ScopeKind): (r: string)
    ensures forall i :: 0 <= i < |r| ==> r[i] != '.'
  {
    match k
    case Module => "module"
    case Function => "function"
    case Class => "class"
    case ListComp => "list_comp"
    case DictComp => "dict_comp"
    case SetComp => "set_comp"
    case Generator => "generator"
    case Lambda => "lambda"
  }

  /** How a variable came to be defined: by an assignment-like target or as a parameter. */
  datatype VarSource = Assignment | Parameter

  /** The `(line_defined, source)` pair recorded for a variable. */
  datatype VarInfo = VarInfo(line: Option<int>, source: VarSource)

  /** One `ScopeNode`: `parent` and `children` are arena indices. */
  datatype Scope = Scope(
    name: string,
    kind: ScopeKind,
    lineno: Option<int>,
    endLineno: Option<int>,
    parent: Option<nat>,
    children: seq<nat>,
    variables: map<string, VarInfo>)

  type Arena = seq<Scope>

  /** `ScopeNode(name, scope_type, lineno, end_lineno)`: no parent, no children, no variables. */
  function NewScope(name: string, kind: ScopeKind, lineno: Option<int>, endLineno: Option<int>): Scope {
    Scope(name, kind, lineno, endLineno, None, [], map[])
  }

  /**
   * The arena holds one tree: the root, a module scope, at index 0 and without
   * a parent; every other scope has a parent created before it and is listed
   * among that parent's children; every listed child names its parent back.
   */
  ghost predicate WellFormed(a: Arena) {
    && |a| >= 1
    && a[0].parent.None?
    && a[0].kind == Module
    && (forall c :: 0 < c < |a| ==>
          a[c].parent.Some? && a[c].parent.value < c && c in a[a[c].parent.value].children)
    && (forall i, k :: 0 <= i < |a| && 0 <= k < |a[i].children| ==>
          i < a[i].children[k] < |a| && a[a[i].children[k]].parent == Some(i))
  }

  /** No scope name contains a dot (identifiers and the fixed scope-type names never do). */
  ghost predicate DotFree(a: Arena) {
    forall i, j :: 0 <= i < |a| && 0 <= j < |a[i].name| ==> a[i].name[j] != '.'
  }

  /** `add_child`: the child joins the arena at a fresh index, its parent's
      `children` grows by that index, and the child records its parent. */
  function AddChild(a: Arena, p: nat, child: Scope): (r: Arena)
    requires p < |a|
    ensures |r| == |a| + 1
    ensures r[|a|].parent == Some(p) && r[|a|].children == child.children
    ensures r[|a|].name == child.name && r[|a|].kind == child.kind
    ensures r[p].children == a[p].children + [|a|] && r[p].variables == a[p].variables
    ensures forall i :: 0 <= i < |a| && i != p ==> r[i] == a[i]
    ensures r[|a|] == child.(parent := Some(p))
    ensures r[p] == a[p].(children := a[p].children + [|a|])
  {
    a[p := a[p].(children := a[p].children + [|a|])] + [child.(parent := Some(p))]
  }

  /** `add_variable`: records (or overwrites) one variable of scope `s`. */
  function AddVariable(a: Arena, s: nat, name: string, info: VarInfo): (r: Arena)
    requires s < |a|
    ensures |r| == |a|
    ensures name in r[s].variables && r[s].variables[name] == info
    ensures r[s].variables.Keys == a[s].variables.Keys + {name}
    ensures forall v :: v in a[s].variables && v != name ==> v in r[s].variables && r[s].variables[v] == a[s].variables[v]
    ensures r[s] == a[s].(variables := r[s].variables)
    ensures forall i :: 0 <= i < |a| && i != s ==> r[i] == a[i]
  {
    a[s := a[s].(variables := a[s].variables[name := info])]
  }

  /** `contains_line`: `lineno <= line <= end_lineno`, false when either bound is missing. */
  predicate ContainsLine(s: Scope, line: int) {
    s.lineno.Some? && s.endLineno.Some? && s.lineno.value <= line <= s.endLineno.value
  }

  /** `_has_valid_line_range`: both bounds present and truthy (not `None`, not `0`). */
  predicate HasValidLineRange(s: Scope) {
    s.lineno.Some? && s.lineno.value != 0 && s.endLineno.Some? && s.endLineno.value != 0
  }

  /** `get_scope_path`: the root's scope type, then the names of the scopes
      below it down to `i`, joined by dots. */
  function ScopePath(a: Arena, i: nat): string
    requires WellFormed(a) && i < |a|
    decreases i
  {
    if a[i].parent.None? then KindName(a[i].kind)
    else
      assert i != 0;
      ScopePath(a, a[i].parent.value) + "." + a[i].name
  }

  /** 1 plus the number of ancestors of scope `i`. */
  function Depth(a: Arena, i: nat): (d: nat)
    requires WellFormed(a) && i < |a|
    ensures d >= 1
    ensures i == 0 <==> d == 1
    decreases i
  {
    if a[i].parent.None? then
      assert i == 0;
      1
    else
      assert i != 0;
      Depth(a, a[i].parent.value) + 1
  }

  /** The depth `_is_more_specific_scope` compares: the number of dot-separated
      parts of the scope path. */
  function PathDepth(a: Arena, i: nat): nat
    requires WellFormed(a) && i < |a|
  {
    |Split(ScopePath(a, i), '.')|
  }

  /** With dot-free names the path has one dot per ancestor. */
  lemma {:induction false} ScopePathDots(a: Arena, i: nat)
    requires WellFormed(a) && DotFree(a) && i < |a|
    ensures Count(ScopePath(a, i), '.') == Depth(a, i) - 1
    decreases i
  {
    if a[i].parent.None? {
      CountOfFree(KindName(a[i].kind), '.');
    } else {
      var p := a[i].parent.value;
      ScopePathDots(a, p);
      CountConcat(ScopePath(a, p) + ".", a[i].name, '.');
      CountConcat(ScopePath(a, p), ".", '.');
      CountOfFree(a[i].name, '.');
    }
  }

  /** Splitting the path on dots counts the scope and its ancestors: the depth
      `_is_more_specific_scope` computes is the depth in the tree. */
  lemma PathDepthIsDepth(a: Arena, i: nat)
    requires WellFormed(a) && DotFree(a) && i < |a|
    ensures PathDepth(a, i) == Depth(a, i)
  {
    ScopePathDots(a, i);
    SplitLength(ScopePath(a, i), '.');
  }

  /** The arena of a fresh analyzer: only the module scope, covering lines 1 to `lineCount`. */
  function RootArena(lineCount: nat): (r: Arena)
    ensures WellFormed(r) && DotFree(r)
    ensures ScopePath(r, 0) == "module"
  {
    [NewScope("module", Module, Some(1), Some(lineCount))]
  }

  /** Adding a fresh child keeps the arena one tree. */
  lemma {:induction false} AddChildWellFormed(a: Arena, p: nat, child: Scope)
    requires WellFormed(a) && p < |a| && child.children == []
    ensures WellFormed(AddChild(a, p, child))
  {
    var r := AddChild(a, p, child);
    forall c | 0 < c < |r|
      ensures r[c].parent.Some? && r[c].parent.value < c && c in r[r[c].parent.value].children
    {
      if c < |a| {
        var q := a[c].parent.value;
        assert c in a[q].children;
        if q == p {
          assert a[q].children <= r[q].children;
        }
      } else {
        assert r[p].children[|r[p].children| - 1] == c;
      }
    }
    forall i, k | 0 <= i < |r| && 0 <= k < |r[i].children|
      ensures i < r[i].children[k] < |r| && r[r[i].children[k]].parent == Some(i)
    {
      if i == p && k == |a[p].children| {
        assert r[i].children[k] == |a|;
      } else if i < |a| {
        assert r[i].children[k] == a[i].children[k];
      }
    }
  }

  /** The new scope's path extends its parent's, and every older scope keeps
      its path and depth. */
  lemma AddChildPaths(a: Arena, p: nat, child: Scope)
    requires WellFormed(a) && p < |a| && child.children == []
    ensures WellFormed(AddChild(a, p, child))
    ensures ScopePath(AddChild(a, p, child), |a|) == ScopePath(a, p) + "." + child.name
    ensures Depth(AddChild(a, p, child), |a|) == Depth(a, p) + 1
    ensures forall i :: 0 <= i < |a| ==>
              ScopePath(AddChild(a, p, child), i) == ScopePath(a, i) && Depth(AddChild(a, p, child), i) == Depth(a, i)
  {
    AddChildWellFormed(a, p, child);
    SamePathsBelow(a, AddChild(a, p, child), |a|);
  }

  /** Two arenas that agree on the first `n` scopes' names, kinds and parents
      give those scopes the same paths and depths. */
  lemma {:induction false} SamePathsBelow(a: Arena, b: Arena, n: nat)
    requires WellFormed(a) && WellFormed(b) && n <= |a| && n <= |b|
    requires forall i :: 0 <= i < n ==> a[i].name == b[i].name && a[i].kind == b[i].kind && a[i].parent == b[i].parent
    ensures forall i :: 0 <= i < n ==> ScopePath(a, i) == ScopePath(b, i) && Depth(a, i) == Depth(b, i)
  {
    forall i | 0 <= i < n ensures ScopePath(a, i) == ScopePath(b, i) && Depth(a, i) == Depth(b, i) {
      SamePathAt(a, b, n, i);
    }
  }

  lemma {:induction false} SamePathAt(a: Arena, b: Arena, n: nat, i: nat)
    requires WellFormed(a) && WellFormed(b) && i < n <= |a| && n <= |b|
    requires forall j :: 0 <= j < n ==> a[j].name == b[j].name && a[j].kind == b[j].kind && a[j].parent == b[j].parent
    ensures ScopePath(a, i) == ScopePath(b, i) && Depth(a, i) == Depth(b, i)
    decreases i
  {
    if a[i].parent.Some? {
      SamePathAt(a, b, n, a[i].parent.value);
    }
  }

  /** Recording a variable changes nothing about the tree's shape. */
  lemma AddVariableWellFormed(a: Arena, s: nat, name: string, info: VarInfo)
    requires WellFormed(a) && s < |a|
    ensures WellFormed(AddVariable(a, s, name, info))
    ensures DotFree(a) ==> DotFree(AddVariable(a, s, name, info))
  {
    var r := AddVariable(a, s, name, info);
    assert forall i :: 0 <= i < |a| ==> r[i].children == a[i].children && r[i].parent == a[i].parent && r[i].name == a[i].name;
  }

  /** Nor about any scope's path. */
  lemma AddVariablePaths(a: Arena, s: nat, name: string, info: VarInfo)
    requires WellFormed(a) && s < |a|
    ensures WellFormed(AddVariable(a, s, name, info))
    ensures forall i :: 0 <= i < |a| ==> ScopePath(AddVariable(a, s, name, info), i) == ScopePath(a, i)
  {
    var r := AddVariable(a, s, name, info);
    AddVariableWellFormed(a, s, name, info);
    assert forall i :: 0 <= i < |a| ==> a[i].name == r[i].name && a[i].kind == r[i].kind && a[i].parent == r[i].parent;
    SamePathsBelow(a, r, |a|);
  }
}
