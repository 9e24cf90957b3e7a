/**
 * `ScopeAnalyzer._build_line_to_scope_map` as a specification: scopes are
 * visited in pre-order from the root (`_traverse_scope_tree`), and each
 * visited scope with a valid line range claims every line of its range
 * (`_map_lines_to_scope`) that is not yet mapped or is mapped to a scope with
 * a shorter path (`_is_more_specific_scope`).
 */
module LineMap {
  import opened Wrappers
  import opened PyStr
  import opened Scopes

  /** Every value of the map is a scope of the arena. */
  ghost predicate IndexMap(a: Arena, m: map<int, nat>) {
    forall l :: l in m ==> m[l] < |a|
  }

  /** Scope `sc` has a valid line range and `line` lies in it: the lines
      `_map_lines_to_scope` walks over. */
  predicate Covers(sc: Scope, line: int) {
    HasValidLineRange(sc) && ContainsLine(sc, line)
  }

  /** `_is_more_specific_scope`: the line is unmapped, or `s` has strictly more
      path parts than the scope the line is mapped to. */
  predicate MoreSpecific(a: Arena, m: map<int, nat>, s: nat, line: int)
    requires WellFormed(a) && s < |a| && IndexMap(a, m)
  {
    line !in m || PathDepth(a, s) > PathDepth(a, m[line])
  }

  /** The lines `lo <= l < hi` (Python's `range(lo, hi)`, as a set). */
  function LineRange(lo: int, hi: int): (r: set<int>)
    ensures forall l :: l in r <==> lo <= l < hi
    decreases hi - lo
  {
    if lo >= hi then {} else {lo} + LineRange(lo + 1, hi)
  }

  /** The map after `_map_lines_to_scope(s)` has handled the lines of its range below `upTo`. */
  function MapLinesUpTo(a: Arena, m: map<int, nat>, s: nat, upTo: int): (r: map<int, nat>)
    requires WellFormed(a) && s < |a| && HasValidLineRange(a[s]) && IndexMap(a, m)
    ensures IndexMap(a, r)
  {
    var lo := a[s].lineno.value;
    map l | l in m.Keys + LineRange(lo, upTo) ::
      if lo <= l < upTo && MoreSpecific(a, m, s, l) then s else m[l]
  }

  /** One more line of the range: it goes to `s` exactly when `s` is more
      specific than its holder in the map the loop started from, which is
      also its holder in the map built so far. */
  lemma MapLinesStep(a: Arena, m: map<int, nat>, s: nat, line: int, upTo: int)
    requires WellFormed(a) && s < |a| && HasValidLineRange(a[s]) && IndexMap(a, m)
    requires a[s].lineno.value <= line && upTo == line + 1
    ensures MoreSpecific(a, MapLinesUpTo(a, m, s, line), s, line) == MoreSpecific(a, m, s, line)
    ensures MoreSpecific(a, m, s, line) ==> MapLinesUpTo(a, m, s, upTo) == MapLinesUpTo(a, m, s, line)[line := s]
    ensures !MoreSpecific(a, m, s, line) ==> MapLinesUpTo(a, m, s, upTo) == MapLinesUpTo(a, m, s, line)
  {
    var r, q := MapLinesUpTo(a, m, s, line), MapLinesUpTo(a, m, s, upTo);
    assert line in r <==> line in m;
    assert line in m ==> r[line] == m[line];
    forall l
      ensures l in q <==> l in r || (l == line && MoreSpecific(a, m, s, line))
      ensures l in q && l != line ==> q[l] == r[l]
    {
    }
  }

  /** The same map built line by line, as the loop of `_map_lines_to_scope`
      builds it: each line from `lineno` below `upTo` in turn, compared with
      the map built so far. */
  function MapLinesInTurn(a: Arena, m: map<int, nat>, s: nat, upTo: int): (r: map<int, nat>)
    requires WellFormed(a) && s < |a| && HasValidLineRange(a[s]) && IndexMap(a, m)
    ensures IndexMap(a, r)
    decreases upTo - a[s].lineno.value
  {
    if upTo <= a[s].lineno.value then m
    else
      var r := MapLinesInTurn(a, m, s, upTo - 1);
      if MoreSpecific(a, r, s, upTo - 1) then r[upTo - 1 := s] else r
  }

  /** Comparing each line with the map built so far gives the map that
      compares every line with the map the loop started from. */
  lemma {:induction false} MapLinesInTurnUpTo(a: Arena, m: map<int, nat>, s: nat, upTo: int)
    requires WellFormed(a) && s < |a| && HasValidLineRange(a[s]) && IndexMap(a, m)
    ensures MapLinesInTurn(a, m, s, upTo) == MapLinesUpTo(a, m, s, upTo)
    decreases upTo - a[s].lineno.value
  {
    if upTo <= a[s].lineno.value {
      MapLinesEmpty(a, m, s, upTo);
    } else {
      MapLinesInTurnUpTo(a, m, s, upTo - 1);
      MapLinesStep(a, m, s, upTo - 1, upTo);
    }
  }

  /** A range that holds no line changes nothing. */
  lemma MapLinesEmpty(a: Arena, m: map<int, nat>, s: nat, upTo: int)
    requires WellFormed(a) && s < |a| && HasValidLineRange(a[s]) && IndexMap(a, m)
    requires upTo <= a[s].lineno.value
    ensures MapLinesUpTo(a, m, s, upTo) == m
  {
  }

  /** The per-scope step of `_traverse_scope_tree`: a scope with a valid
      range maps its lines, any other scope changes nothing. */
  function MapScope(a: Arena, m: map<int, nat>, s: nat): (r: map<int, nat>)
    requires WellFormed(a) && s < |a| && IndexMap(a, m)
    ensures IndexMap(a, r)
  {
    if HasValidLineRange(a[s]) then MapLinesUpTo(a, m, s, a[s].endLineno.value + 1) else m
  }

  /** What one scope does to one line: it takes the line exactly when it covers
      it and is more specific than the current holder; otherwise the line keeps
      its state. */
  lemma MapScopeAt(a: Arena, m: map<int, nat>, s: nat, l: int)
    requires WellFormed(a) && s < |a| && IndexMap(a, m)
    ensures Covers(a[s], l) && MoreSpecific(a, m, s, l) ==> l in MapScope(a, m, s) && MapScope(a, m, s)[l] == s
    ensures !(Covers(a[s], l) && MoreSpecific(a, m, s, l)) ==>
              (l in MapScope(a, m, s) <==> l in m) && (l in m ==> MapScope(a, m, s)[l] == m[l])
  {
  }

  /** Scopes visited in `order`, each mapping its lines in turn. */
  function MapInOrder(a: Arena, m: map<int, nat>, order: seq<nat>): (r: map<int, nat>)
    requires WellFormed(a) && IndexMap(a, m)
    requires forall k :: 0 <= k < |order| ==> order[k] < |a|
    ensures IndexMap(a, r)
  {
    if order == [] then m
    else MapScope(a, MapInOrder(a, m, order[..|order| - 1]), order[|order| - 1])
  }

  lemma {:induction false} MapInOrderConcat(a: Arena, m: map<int, nat>, x: seq<nat>, y: seq<nat>)
    requires WellFormed(a) && IndexMap(a, m)
    requires forall k :: 0 <= k < |x| ==> x[k] < |a|
    requires forall k :: 0 <= k < |y| ==> y[k] < |a|
    ensures forall k :: 0 <= k < |x + y| ==> (x + y)[k] < |a|
    ensures MapInOrder(a, m, x + y) == MapInOrder(a, MapInOrder(a, m, x), y)
    decreases |y|
  {
    if y == [] {
      assert x + y == x;
    } else {
      assert (x + y)[..|x + y| - 1] == x + y[..|y| - 1];
      MapInOrderConcat(a, m, x, y[..|y| - 1]);
    }
  }

  /** For one line, from the empty map: the line is mapped exactly when some
      scope in `order` covers it, and it is mapped to a scope that covers it. */
  lemma {:induction false} MapInOrderDomain(a: Arena, order: seq<nat>, l: int)
    requires WellFormed(a)
    requires forall k :: 0 <= k < |order| ==> order[k] < |a|
    ensures l in MapInOrder(a, map[], order) <==> exists k :: 0 <= k < |order| && Covers(a[order[k]], l)
    ensures l in MapInOrder(a, map[], order) ==> Covers(a[MapInOrder(a, map[], order)[l]], l)
  {
    if order != [] {
      var init, s := order[..|order| - 1], order[|order| - 1];
      var prev := MapInOrder(a, map[], init);
      var r := MapInOrder(a, map[], order);
      assert r == MapScope(a, prev, s);
      assert forall k :: 0 <= k < |init| ==> init[k] == order[k];
      MapInOrderDomain(a, init, l);
      MapScopeAt(a, prev, s, l);
      if l in r && !(Covers(a[s], l) && MoreSpecific(a, prev, s, l)) {
        var k :| 0 <= k < |init| && Covers(a[init[k]], l);
        assert Covers(a[order[k]], l);
      }
      if !(l in prev) && exists k :: 0 <= k < |order| && Covers(a[order[k]], l) {
        var k :| 0 <= k < |order| && Covers(a[order[k]], l);
        assert k == |order| - 1;
      }
    }
  }

  /** No scope of `order` covering the line has a longer path than the one the
      line is mapped to. */
  lemma {:induction false} MapInOrderDeepest(a: Arena, order: seq<nat>, l: int, k: nat)
    requires WellFormed(a)
    requires forall k :: 0 <= k < |order| ==> order[k] < |a|
    requires k < |order| && Covers(a[order[k]], l)
    ensures l in MapInOrder(a, map[], order)
    ensures PathDepth(a, order[k]) <= PathDepth(a, MapInOrder(a, map[], order)[l])
  {
    MapInOrderDomain(a, order, l);
    var init, s := order[..|order| - 1], order[|order| - 1];
    var prev := MapInOrder(a, map[], init);
    assert MapInOrder(a, map[], order) == MapScope(a, prev, s);
    if k < |init| {
      assert init[k] == order[k];
      MapInOrderDeepest(a, init, l, k);
      MapScopeKeepsDepth(a, prev, s, l, PathDepth(a, order[k]));
    } else {
      MapScopeCovering(a, prev, s, l);
    }
  }

  /** A scope never moves a line to a scope with a shorter path. */
  lemma MapScopeKeepsDepth(a: Arena, m: map<int, nat>, s: nat, l: int, d: nat)
    requires WellFormed(a) && s < |a| && IndexMap(a, m)
    requires l in m && d <= PathDepth(a, m[l])
    ensures l in MapScope(a, m, s) && d <= PathDepth(a, MapScope(a, m, s)[l])
  {
    MapScopeAt(a, m, s, l);
  }

  /** After a scope covering the line, the line's scope has a path at least as long. */
  lemma MapScopeCovering(a: Arena, m: map<int, nat>, s: nat, l: int)
    requires WellFormed(a) && s < |a| && IndexMap(a, m) && Covers(a[s], l)
    ensures l in MapScope(a, m, s) && PathDepth(a, s) <= PathDepth(a, MapScope(a, m, s)[l])
  {
    MapScopeAt(a, m, s, l);
  }

  /** Of the covering scopes with the longest path, the line goes to the first
      in `order`: a later one of equal length does not take it over. */
  lemma {:induction false} MapInOrderFirst(a: Arena, order: seq<nat>, l: int) returns (j: nat)
    requires WellFormed(a)
    requires forall k :: 0 <= k < |order| ==> order[k] < |a|
    requires l in MapInOrder(a, map[], order)
    ensures j < |order| && order[j] == MapInOrder(a, map[], order)[l]
    ensures forall k :: 0 <= k < j && Covers(a[order[k]], l) ==>
              PathDepth(a, order[k]) < PathDepth(a, order[j])
  {
    var init, s := order[..|order| - 1], order[|order| - 1];
    var prev := MapInOrder(a, map[], init);
    MapScopeAt(a, prev, s, l);
    if Covers(a[s], l) && MoreSpecific(a, prev, s, l) {
      j := |order| - 1;
      forall k | 0 <= k < j && Covers(a[order[k]], l) ensures PathDepth(a, order[k]) < PathDepth(a, order[j]) {
        assert init[k] == order[k];
        MapInOrderDeepest(a, init, l, k);
      }
    } else {
      j := MapInOrderFirst(a, init, l);
      assert order[j] == init[j];
      forall k | 0 <= k < j && Covers(a[order[k]], l) ensures PathDepth(a, order[k]) < PathDepth(a, order[j]) {
        assert init[k] == order[k];
      }
    }
  }

  /** `_traverse_scope_tree(i)`'s visiting order: `i`, then each child's subtree in turn. */
  function PreOrder(a: Arena, i: nat): (r: seq<nat>)
    requires WellFormed(a) && i < |a|
    ensures |r| >= 1 && r[0] == i
    ensures forall k :: 0 <= k < |r| ==> i <= r[k] < |a|
    decreases |a| - i, 1
  {
    [i] + PreOrderOf(a, i, a[i].children)
  }

  /** The subtrees of the children `cs` of `p`, one after the other. */
  function PreOrderOf(a: Arena, p: nat, cs: seq<nat>): (r: seq<nat>)
    requires WellFormed(a) && p < |a|
    requires forall k :: 0 <= k < |cs| ==> p < cs[k] < |a|
    ensures forall k :: 0 <= k < |r| ==> p < r[k] < |a|
    decreases |a| - p, 0, |cs|
  {
    if cs == [] then []
    else PreOrderOf(a, p, cs[..|cs| - 1]) + PreOrder(a, cs[|cs| - 1])
  }

  /** `j` is `i` or lies below it: climbing parents from `j` reaches `i`. */
  ghost predicate InSubtree(a: Arena, i: nat, j: nat)
    requires WellFormed(a) && j < |a|
    decreases j
  {
    j == i || (a[j].parent.Some? && InSubtree(a, i, a[j].parent.value))
  }

  /** A scope below a child of `p` lies below `p`. */
  lemma {:induction false} InSubtreeOfChild(a: Arena, p: nat, c: nat, x: nat)
    requires WellFormed(a) && c < |a| && x < |a| && a[c].parent == Some(p)
    requires InSubtree(a, c, x)
    ensures InSubtree(a, p, x)
    decreases x
  {
    if x != c {
      InSubtreeOfChild(a, p, c, a[x].parent.value);
    }
  }

  /** `_traverse_scope_tree(i)` visits only scopes of the subtree of `i`. */
  lemma {:induction false} PreOrderInSubtree(a: Arena, i: nat)
    requires WellFormed(a) && i < |a|
    ensures forall k :: 0 <= k < |PreOrder(a, i)| ==> InSubtree(a, i, PreOrder(a, i)[k])
    decreases |a| - i, 1
  {
    var r := PreOrder(a, i);
    var rest := PreOrderOf(a, i, a[i].children);
    PreOrderOfInSubtree(a, i, a[i].children);
    forall k | 0 <= k < |r| ensures InSubtree(a, i, r[k]) {
      if k > 0 { assert r[k] == rest[k - 1]; }
    }
  }

  /** The subtrees of children of `p`, one after the other, lie below `p`. */
  lemma {:induction false} PreOrderOfInSubtree(a: Arena, p: nat, cs: seq<nat>)
    requires WellFormed(a) && p < |a|
    requires forall k :: 0 <= k < |cs| ==> p < cs[k] < |a| && a[cs[k]].parent == Some(p)
    ensures forall k :: 0 <= k < |PreOrderOf(a, p, cs)| ==> InSubtree(a, p, PreOrderOf(a, p, cs)[k])
    decreases |a| - p, 0, |cs|
  {
    if cs != [] {
      var init, c := cs[..|cs| - 1], cs[|cs| - 1];
      var left, right := PreOrderOf(a, p, init), PreOrder(a, c);
      PreOrderOfInSubtree(a, p, init);
      PreOrderInSubtree(a, c);
      assert PreOrderOf(a, p, cs) == left + right;
      forall k | 0 <= k < |left + right| ensures InSubtree(a, p, (left + right)[k]) {
        if k >= |left| {
          assert (left + right)[k] == right[k - |left|];
          InSubtreeOfChild(a, p, c, right[k - |left|]);
        } else {
          assert (left + right)[k] == left[k];
        }
      }
    }
  }

  /** The map once `_traverse_scope_tree(s)` has done the scope's own lines
      and the subtrees of its first `k` children. */
  ghost function Traversed(a: Arena, m: map<int, nat>, s: nat, k: nat): (r: map<int, nat>)
    requires WellFormed(a) && IndexMap(a, m) && s < |a| && k <= |a[s].children|
    ensures IndexMap(a, r)
  {
    MapInOrder(a, m, [s] + PreOrderOf(a, s, a[s].children[..k]))
  }

  /** One more child: its whole subtree, in pre-order, after the ones before it. */
  lemma TraverseStep(a: Arena, m: map<int, nat>, s: nat, k: nat)
    requires WellFormed(a) && IndexMap(a, m) && s < |a| && k < |a[s].children|
    ensures s < a[s].children[k] < |a|
    ensures Traversed(a, m, s, k + 1) == MapInOrder(a, Traversed(a, m, s, k), PreOrder(a, a[s].children[k]))
  {
    var cs := a[s].children;
    assert cs[..k + 1][..k] == cs[..k];
    assert [s] + PreOrderOf(a, s, cs[..k + 1]) == [s] + PreOrderOf(a, s, cs[..k]) + PreOrder(a, cs[k]);
    MapInOrderConcat(a, m, [s] + PreOrderOf(a, s, cs[..k]), PreOrder(a, cs[k]));
  }

  /** Before the children only the scope's own lines are done; after all of
      them the whole subtree is, in pre-order. */
  lemma TraverseStart(a: Arena, m: map<int, nat>, s: nat)
    requires WellFormed(a) && IndexMap(a, m) && s < |a|
    ensures Traversed(a, m, s, 0) == MapScope(a, m, s)
    ensures Traversed(a, m, s, |a[s].children|) == MapInOrder(a, m, PreOrder(a, s))
  {
    var order := [s] + PreOrderOf(a, s, a[s].children[..0]);
    assert a[s].children[..0] == [];
    assert order == [s] && order[..0] == [];
    assert Traversed(a, m, s, 0) == MapInOrder(a, m, order) == MapScope(a, MapInOrder(a, m, []), s);
    assert a[s].children[..|a[s].children|] == a[s].children;
  }

  /** The line-to-scope map `analyze` leaves behind, from an empty map. */
  function LineToScope(a: Arena): (r: map<int, nat>)
    requires WellFormed(a)
    ensures IndexMap(a, r)
  {
    MapInOrder(a, map[], PreOrder(a, 0))
  }

  lemma {:induction false} InPreOrderOf(a: Arena, p: nat, cs: seq<nat>, k: nat, x: nat)
    requires WellFormed(a) && p < |a|
    requires forall k :: 0 <= k < |cs| ==> p < cs[k] < |a|
    requires k < |cs| && x in PreOrder(a, cs[k])
    ensures x in PreOrderOf(a, p, cs)
    decreases |cs|
  {
    if k < |cs| - 1 {
      InPreOrderOf(a, p, cs[..|cs| - 1], k, x);
    }
  }

  lemma {:induction false} PreOrderOfMember(a: Arena, p: nat, cs: seq<nat>, x: nat) returns (k: nat)
    requires WellFormed(a) && p < |a|
    requires forall k :: 0 <= k < |cs| ==> p < cs[k] < |a|
    requires x in PreOrderOf(a, p, cs)
    ensures k < |cs| && x in PreOrder(a, cs[k])
    decreases |cs|
  {
    var init := cs[..|cs| - 1];
    if x in PreOrderOf(a, p, init) {
      k := PreOrderOfMember(a, p, init, x);
    } else {
      k := |cs| - 1;
    }
  }

  /** A child of a visited scope is visited. */
  lemma {:induction false} ChildInPreOrder(a: Arena, r: nat, p: nat, c: nat)
    requires WellFormed(a) && r < |a| && p in PreOrder(a, r) && c in a[p].children
    ensures c in PreOrder(a, r)
    decreases |a| - r
  {
    var cs := a[r].children;
    assert forall k :: 0 <= k < |cs| ==> r < cs[k] < |a|;
    if p == r {
      var k :| 0 <= k < |cs| && cs[k] == c;
      InPreOrderOf(a, r, cs, k, c);
    } else {
      assert p in PreOrderOf(a, r, cs);
      var k := PreOrderOfMember(a, r, cs, p);
      ChildInPreOrder(a, cs[k], p, c);
      InPreOrderOf(a, r, cs, k, c);
    }
  }

  /** The traversal from the root visits every scope. */
  lemma {:induction false} PreOrderVisitsAll(a: Arena, i: nat)
    requires WellFormed(a) && i < |a|
    ensures i in PreOrder(a, 0)
    decreases i
  {
    if i != 0 {
      var p := a[i].parent.value;
      PreOrderVisitsAll(a, p);
      ChildInPreOrder(a, 0, p, i);
    }
  }

  /**
   * The line-to-scope map of a scope tree: a line is mapped exactly when some
   * scope with a valid range contains it; it maps to such a scope; no scope
   * containing the line is deeper; and of the deepest ones it is the first
   * in pre-order (a later scope of equal depth does not take the line over).
   */
  lemma LineToScopeDeepest(a: Arena, l: int)
    requires WellFormed(a) && DotFree(a)
    ensures l in LineToScope(a) <==> exists i :: 0 <= i < |a| && Covers(a[i], l)
    ensures l in LineToScope(a) ==> Covers(a[LineToScope(a)[l]], l)
    ensures forall i :: 0 <= i < |a| && Covers(a[i], l) ==> Depth(a, i) <= Depth(a, LineToScope(a)[l])
    ensures l in LineToScope(a) ==>
              var order := PreOrder(a, 0);
              exists j :: 0 <= j < |order| && order[j] == LineToScope(a)[l]
                && forall k :: 0 <= k < j && Covers(a[order[k]], l) ==> Depth(a, order[k]) < Depth(a, order[j])
  {
    var order := PreOrder(a, 0);
    MapInOrderDomain(a, order, l);
    forall i | 0 <= i < |a| && Covers(a[i], l)
      ensures l in LineToScope(a) && Depth(a, i) <= Depth(a, LineToScope(a)[l])
    {
      PreOrderVisitsAll(a, i);
      var k :| 0 <= k < |order| && order[k] == i;
      MapInOrderDeepest(a, order, l, k);
      PathDepthIsDepth(a, i);
      PathDepthIsDepth(a, LineToScope(a)[l]);
    }
    if l in LineToScope(a) {
      var j := MapInOrderFirst(a, order, l);
      forall k | 0 <= k < j && Covers(a[order[k]], l) ensures Depth(a, order[k]) < Depth(a, order[j]) {
        PathDepthIsDepth(a, order[k]);
        PathDepthIsDepth(a, order[j]);
      }
    }
  }
}
