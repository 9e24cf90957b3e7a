/**
 * The scope labels shown next to each variable: `'global'`, `'local (f)'`,
 * `'outer (f)'`, decided first from the scope tree and, failing that, from
 * the frame.
 */
module Labels {
  import opened Wrappers
  import opened PyStr
  import opened Scopes
  import opened Frames

  /** `_format_scope_name`. */
  function FormatScopeName(sc: Scope): string {
    if sc.kind == Module then "global" else "local (" + sc.name + ")"
  }

  /** `_format_parent_scope_name`. */
  function FormatParentScopeName(sc: Scope): string {
    if sc.kind == Module then "global" else "outer (" + sc.name + ")"
  }

  /** The name inside a `'local (...)'` or `'outer (...)'` label. */
  function LabelName(text: string): string
    requires |text| >= 8
  {
    text[7..|text| - 1]
  }

  /** A label is `'global'` exactly for the module scope, and otherwise gives
      back the scope's name: distinct non-module scopes with distinct names get
      distinct labels, and a current scope never reads like an enclosing one. */
  lemma FormatScopeNameDecodes(sc: Scope)
    ensures FormatScopeName(sc) == "global" <==> sc.kind == Module
    ensures FormatParentScopeName(sc) == "global" <==> sc.kind == Module
    ensures sc.kind != Module ==>
              |FormatScopeName(sc)| >= 8 && LabelName(FormatScopeName(sc)) == sc.name
              && |FormatParentScopeName(sc)| >= 8 && LabelName(FormatParentScopeName(sc)) == sc.name
    ensures sc.kind != Module ==> FormatScopeName(sc) != FormatParentScopeName(sc)
  {
    if sc.kind != Module {
      var l, o := FormatScopeName(sc), FormatParentScopeName(sc);
      assert l[0] == 'l' && o[0] == 'o';
      assert l != "global" by { assert |l| >= 8; }
      assert o != "global" by { assert |o| >= 8; }
    }
  }

  /** The scope `i`, then its parent, and so on up to the root: the order in
      which `_get_scope_from_ast` looks for a name. */
  function Chain(a: Arena, i: nat): (r: seq<nat>)
    requires WellFormed(a) && i < |a|
    ensures |r| >= 1 && r[0] == i && r[|r| - 1] == 0
    ensures forall k :: 0 <= k < |r| ==> r[k] < |a|
    ensures forall k :: 0 < k < |r| ==> a[r[k - 1]].parent == Some(r[k])
    decreases i
  {
    if a[i].parent.None? then
      assert i == 0;
      [i]
    else
      [i] + Chain(a, a[i].parent.value)
  }

  /** Whether scope `i` records the variable. */
  predicate Defines(a: Arena, i: nat, v: string)
    requires i < |a|
  {
    v in a[i].variables
  }

  /** `_get_scope_from_ast(var_name, current_scope)`: no label without a
      current scope; the current scope's own label if it defines the name;
      otherwise the nearest enclosing scope that defines it, as an outer scope. */
  function AstScopeLabel(a: Arena, cur: Option<nat>, v: string): Option<string>
    requires WellFormed(a) && (cur.Some? ==> cur.value < |a|)
  {
    if cur.None? then None
    else if Defines(a, cur.value, v) then Some(FormatScopeName(a[cur.value]))
    else if a[cur.value].parent.None? then None
    else EnclosingLabel(a, a[cur.value].parent.value, v)
  }

  /** The `while parent_scope:` loop, from scope `p` upwards. */
  function EnclosingLabel(a: Arena, p: nat, v: string): Option<string>
    requires WellFormed(a) && p < |a|
    decreases p
  {
    if Defines(a, p, v) then Some(FormatParentScopeName(a[p]))
    else if a[p].parent.None? then None
    else EnclosingLabel(a, a[p].parent.value, v)
  }

  /** The loop as it runs: `parent_scope` climbs the chain until it finds
      the name or runs off the root. */
  method GetScopeFromAst(a: Arena, cur: Option<nat>, v: string) returns (r: Option<string>)
    requires WellFormed(a) && (cur.Some? ==> cur.value < |a|)
    ensures r == AstScopeLabel(a, cur, v)
  {
    if cur.None? {
      return None;
    }
    var current := cur.value;
    if v in a[current].variables {
      return Some(FormatScopeName(a[current]));
    }
    var parent: Option<nat> := a[current].parent;
    while parent.Some?
      invariant parent.Some? ==> parent.value < |a|
      invariant AstScopeLabel(a, cur, v) == if parent.None? then None else EnclosingLabel(a, parent.value, v)
      decreases if parent.Some? then parent.value + 1 else 0
    {
      if v in a[parent.value].variables {
        return Some(FormatParentScopeName(a[parent.value]));
      }
      parent := a[parent.value].parent;
    }
    return None;
  }

  /** `ch[k]` is the first scope of `ch` that defines the variable. */
  predicate FirstDefiner(a: Arena, ch: seq<nat>, v: string, k: nat)
    requires forall j :: 0 <= j < |ch| ==> ch[j] < |a|
  {
    k < |ch| && Defines(a, ch[k], v) && forall j :: 0 <= j < k ==> !Defines(a, ch[j], v)
  }

  /** The enclosing search answers with the first scope of the chain from `p`
      that defines the name, or with nothing when none of them does. */
  lemma {:induction false} EnclosingLabelFirst(a: Arena, p: nat, v: string)
    requires WellFormed(a) && p < |a|
    ensures EnclosingLabel(a, p, v).None? <==> forall k :: 0 <= k < |Chain(a, p)| ==> !Defines(a, Chain(a, p)[k], v)
    ensures EnclosingLabel(a, p, v).Some? ==>
              exists k: nat :: FirstDefiner(a, Chain(a, p), v, k)
                && EnclosingLabel(a, p, v) == Some(FormatParentScopeName(a[Chain(a, p)[k]]))
    decreases p
  {
    var c := Chain(a, p);
    if Defines(a, p, v) {
      assert Defines(a, Chain(a, p)[0], v);
      assert FirstDefiner(a, c, v, 0);
    } else if a[p].parent.None? {
      assert c == [p];
    } else {
      var q := a[p].parent.value;
      EnclosingLabelFirst(a, q, v);
      var cq := Chain(a, q);
      assert c == [p] + cq;
      if EnclosingLabel(a, q, v).Some? {
        var k: nat :| FirstDefiner(a, cq, v, k) && EnclosingLabel(a, q, v) == Some(FormatParentScopeName(a[cq[k]]));
        ShiftFirstDefiner(a, p, cq, v, k);
      } else {
        assert forall k :: 0 <= k < |Chain(a, q)| ==> !Defines(a, Chain(a, q)[k], v);
        NoDefinerCons(a, p, cq, v);
      }
    }
  }

  /** A scope that does not define the name, put in front of a chain none of
      whose scopes defines it, gives a chain none of whose scopes defines it. */
  lemma NoDefinerCons(a: Arena, p: nat, cq: seq<nat>, v: string)
    requires p < |a| && !Defines(a, p, v)
    requires forall j :: 0 <= j < |cq| ==> cq[j] < |a|
    requires forall j :: 0 <= j < |cq| ==> !Defines(a, cq[j], v)
    ensures forall j :: 0 <= j < |[p] + cq| ==> !Defines(a, ([p] + cq)[j], v)
  {
    var c := [p] + cq;
    forall j | 0 <= j < |c| ensures !Defines(a, c[j], v) {
      if j > 0 { assert c[j] == cq[j - 1]; }
    }
  }

  /** A scope that does not define the name, put in front of a chain, moves
      the first definer one place on. */
  lemma ShiftFirstDefiner(a: Arena, p: nat, cq: seq<nat>, v: string, k: nat)
    requires p < |a| && !Defines(a, p, v)
    requires forall j :: 0 <= j < |cq| ==> cq[j] < |a|
    requires FirstDefiner(a, cq, v, k)
    ensures FirstDefiner(a, [p] + cq, v, k + 1) && ([p] + cq)[k + 1] == cq[k]
  {
    var c := [p] + cq;
    forall j | 0 <= j < k + 1 ensures !Defines(a, c[j], v) {
      if j > 0 { assert c[j] == cq[j - 1]; }
    }
  }

  /** `_get_scope_from_ast` finds nothing exactly when there is no current
      scope or no scope on its chain defines the name. */
  lemma AstScopeLabelNone(a: Arena, cur: Option<nat>, v: string)
    requires WellFormed(a) && (cur.Some? ==> cur.value < |a|)
    ensures AstScopeLabel(a, cur, v).None? <==>
              cur.None? || forall k :: 0 <= k < |Chain(a, cur.value)| ==> !Defines(a, Chain(a, cur.value)[k], v)
  {
    if cur.Some? {
      var c := cur.value;
      var ch := Chain(a, c);
      if Defines(a, c, v) {
        assert Defines(a, Chain(a, c)[0], v);
      } else if a[c].parent.Some? {
        var q := a[c].parent.value;
        EnclosingLabelFirst(a, q, v);
        assert ch == [c] + Chain(a, q);
        if EnclosingLabel(a, q, v).None? {
          NoDefinerCons(a, c, Chain(a, q), v);
        } else {
          var k: nat :| FirstDefiner(a, Chain(a, q), v, k) && true;
          assert ch[k + 1] == Chain(a, q)[k];
        }
      } else {
        assert ch == [c];
      }
    }
  }

  /** When the current scope defines the name the label is the current
      scope's; otherwise it is the nearest defining ancestor's, formatted as an
      enclosing scope. */
  lemma AstScopeLabelNearest(a: Arena, c: nat, v: string)
    requires WellFormed(a) && c < |a|
    ensures Defines(a, c, v) ==> AstScopeLabel(a, Some(c), v) == Some(FormatScopeName(a[c]))
    ensures !Defines(a, c, v) && AstScopeLabel(a, Some(c), v).Some? ==>
              exists k: nat :: 0 < k && FirstDefiner(a, Chain(a, c), v, k)
                && AstScopeLabel(a, Some(c), v) == Some(FormatParentScopeName(a[Chain(a, c)[k]]))
  {
    if !Defines(a, c, v) && a[c].parent.Some? {
      var q := a[c].parent.value;
      EnclosingLabelFirst(a, q, v);
      var cq := Chain(a, q);
      assert Chain(a, c) == [c] + cq;
      if EnclosingLabel(a, q, v).Some? {
        var k: nat :| FirstDefiner(a, cq, v, k) && EnclosingLabel(a, q, v) == Some(FormatParentScopeName(a[cq[k]]));
        ShiftFirstDefiner(a, c, cq, v, k);
      }
    }
  }

  /** `context_map.get(code_name, code_name)`: the readable name of the code
      object's kind. */
  function ContextName(codeName: string): (r: string)
    ensures codeName !in {"<module>", "<listcomp>", "<dictcomp>", "<setcomp>", "<genexpr>", "<lambda>"} ==> r == codeName
  {
    if codeName == "<module>" then "module"
    else if codeName == "<listcomp>" then "list comprehension"
    else if codeName == "<dictcomp>" then "dict comprehension"
    else if codeName == "<setcomp>" then "set comprehension"
    else if codeName == "<genexpr>" then "generator"
    else if codeName == "<lambda>" then "lambda"
    else codeName
  }

  /** `_get_scope_from_runtime`: local to the frame's code if the frame's
      locals hold the name, global otherwise. */
  function RuntimeScopeLabel(v: string, frame: Frame): string {
    if v in frame.locals then "local (" + ContextName(frame.codeName) + ")" else "global"
  }

  /** The frame's answer is global exactly when its locals lack the name, and
      otherwise names the kind of code the frame runs. */
  lemma RuntimeScopeLabelDecodes(v: string, frame: Frame)
    ensures RuntimeScopeLabel(v, frame) == "global" <==> v !in frame.locals
    ensures v in frame.locals ==>
              |RuntimeScopeLabel(v, frame)| >= 8 && LabelName(RuntimeScopeLabel(v, frame)) == ContextName(frame.codeName)
  {
    if v in frame.locals {
      var l := RuntimeScopeLabel(v, frame);
      assert l != "global" by { assert |l| >= 8 && l[0] == 'l'; }
    }
  }

  /** `_determine_variable_scope`: a module-level frame makes every variable
      global; otherwise the scope tree decides when it has an answer (a
      non-empty label), and the frame decides when it does not. */
  function DetermineVariableScope(a: Arena, v: string, frame: Frame, cur: Option<nat>): string
    requires WellFormed(a) && (cur.Some? ==> cur.value < |a|)
  {
    if frame.localsAreGlobals then "global"
    else
      var fromAst := AstScopeLabel(a, cur, v);
      if fromAst.Some? && fromAst.value != "" then fromAst.value
      else RuntimeScopeLabel(v, frame)
  }

  /** Every label the tree produces is non-empty, so the runtime fallback is
      taken exactly when the tree finds nothing. */
  lemma {:induction false} EnclosingLabelNonEmpty(a: Arena, p: nat, v: string)
    requires WellFormed(a) && p < |a|
    ensures EnclosingLabel(a, p, v).Some? ==> EnclosingLabel(a, p, v).value != ""
    decreases p
  {
    if !Defines(a, p, v) && a[p].parent.Some? {
      EnclosingLabelNonEmpty(a, a[p].parent.value, v);
    }
  }

  /** How a label is chosen: global for a module-level frame; the current
      scope's label when it defines the name; the frame's answer when no scope
      on the chain does (or there is no current scope). */
  lemma DetermineVariableScopeCases(a: Arena, v: string, frame: Frame, cur: Option<nat>)
    requires WellFormed(a) && (cur.Some? ==> cur.value < |a|)
    ensures frame.localsAreGlobals ==> DetermineVariableScope(a, v, frame, cur) == "global"
    ensures !frame.localsAreGlobals && cur.Some? && Defines(a, cur.value, v) ==>
              DetermineVariableScope(a, v, frame, cur) == FormatScopeName(a[cur.value])
    ensures !frame.localsAreGlobals && AstScopeLabel(a, cur, v).None? ==>
              DetermineVariableScope(a, v, frame, cur) == RuntimeScopeLabel(v, frame)
    ensures !frame.localsAreGlobals && AstScopeLabel(a, cur, v).Some? ==>
              DetermineVariableScope(a, v, frame, cur) == AstScopeLabel(a, cur, v).value
  {
    if cur.Some? && !Defines(a, cur.value, v) && a[cur.value].parent.Some? {
      EnclosingLabelNonEmpty(a, a[cur.value].parent.value, v);
    }
  }
}
