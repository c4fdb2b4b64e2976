/** Product categories under their parent links, and the closure table the guard and the
    breadcrumb read. A parent id of None marks a root. */
module CategoryTree {
  import opened Common

  type Parents = map<int, Option<int>>

  /** The category reached from x by n parent links, if there is one. */
  function Up(p: Parents, x: int, n: nat): Option<int>
    decreases n
  {
    if x !in p then None
    else if n == 0 then Some(x)
    else if p[x].None? then None
    else Up(p, p[x].value, n - 1)
  }

  ghost predicate Closed(p: Parents) {
    forall x :: x in p && p[x].Some? ==> p[x].value in p
  }

  ghost predicate Acyclic(p: Parents) {
    forall x, n: nat :: n > 0 ==> Up(p, x, n) != Some(x)
  }

  ghost predicate Forest(p: Parents) {
    Closed(p) && Acyclic(p)
  }

  datatype ClosureRow = ClosureRow(ancestor: int, descendant: int, depth: nat)

  type Closure = set<ClosureRow>

  /** What the triggers should maintain: the reflexive-transitive closure of parent, with depths. */
  ghost predicate IsClosure(c: Closure, p: Parents) {
    forall r :: r in c <==> Up(p, r.descendant, r.depth) == Some(r.ancestor)
  }

  lemma {:induction false} UpAdds(p: Parents, x: int, m: nat, n: nat)
    requires Up(p, x, m).Some?
    ensures Up(p, x, m + n) == Up(p, Up(p, x, m).value, n)
    decreases m
  {
    if m > 0 { UpAdds(p, p[x].value, m - 1, n); }
  }

  lemma {:induction false} UpStaysInside(p: Parents, x: int, n: nat)
    ensures Up(p, x, n).Some? ==> Up(p, x, n).value in p
    decreases n
  {
    if n > 0 && x in p && p[x].Some? { UpStaysInside(p, p[x].value, n - 1); }
  }

  lemma {:induction false} UpDefinedBelow(p: Parents, x: int, m: nat, n: nat)
    requires m <= n && Up(p, x, n).Some?
    ensures Up(p, x, m).Some?
    decreases m
  {
    if m > 0 { UpDefinedBelow(p, p[x].value, m - 1, n - 1); }
  }

  // ----- Every category of a forest hangs from a root -----

  /** The categories met on the first n links up from x. */
  ghost function Chain(p: Parents, x: int, n: nat): set<int>
    requires n > 0 ==> Up(p, x, n - 1).Some?
  {
    if n == 0 then {} else
      (if n > 1 then UpDefinedBelow(p, x, n - 2, n - 1); Chain(p, x, n - 1) else {}) + {Up(p, x, n - 1).value}
  }

  lemma {:induction false} ChainMembers(p: Parents, x: int, n: nat, y: int)
    requires n > 0 ==> Up(p, x, n - 1).Some?
    ensures y in Chain(p, x, n) ==> exists m: nat :: m < n && Up(p, x, m) == Some(y)
  {
    if n > 1 {
      UpDefinedBelow(p, x, n - 2, n - 1);
      ChainMembers(p, x, n - 1, y);
    }
    if n > 0 && Up(p, x, n - 1) == Some(y) { assert n - 1 < n; }
  }

  lemma MovesOn(p: Parents, x: int, m: nat, n: nat)
    requires Acyclic(p) && Up(p, x, m).Some? && m < n
    ensures Up(p, x, m) != Up(p, x, n)
  {
    UpAdds(p, x, m, n - m);
  }

  /** The next category on the way up is a new one. */
  lemma NotYetMet(p: Parents, x: int, n: nat)
    requires Acyclic(p) && n > 0 && Up(p, x, n).Some? && Up(p, x, n - 1).Some?
    ensures Up(p, x, n).value !in Chain(p, x, n)
  {
    ChainMembers(p, x, n, Up(p, x, n).value);
    forall m: nat | m < n ensures Up(p, x, m) != Up(p, x, n) {
      UpDefinedBelow(p, x, m, n);
      MovesOn(p, x, m, n);
    }
  }

  lemma {:induction false} ChainSize(p: Parents, x: int, n: nat)
    requires Acyclic(p) && (n > 0 ==> Up(p, x, n - 1).Some?)
    ensures |Chain(p, x, n)| == n && Chain(p, x, n) <= p.Keys
  {
    if n > 0 {
      var y := Up(p, x, n - 1).value;
      UpStaysInside(p, x, n - 1);
      if n > 1 {
        UpDefinedBelow(p, x, n - 2, n - 1);
        ChainSize(p, x, n - 1);
        NotYetMet(p, x, n - 1);
      }
    }
  }

  /** A chain of parents is no longer than the number of categories. */
  lemma DepthBound(p: Parents, x: int, n: nat)
    requires Acyclic(p) && Up(p, x, n).Some?
    ensures n < |p|
  {
    ChainSize(p, x, n + 1);
    var chain := Chain(p, x, n + 1);
    assert p.Keys == chain + (p.Keys - chain);
  }

  /** The number of links from x to its root. */
  ghost function Depth(p: Parents, x: int): nat
    requires Forest(p) && x in p
  {
    DepthExists(p, x, 0);
    var n: nat :| Up(p, x, n).Some? && Up(p, x, n + 1).None?;
    n
  }

  lemma DepthExists(p: Parents, x: int, n: nat)
    requires Forest(p) && x in p && Up(p, x, n).Some?
    ensures exists m: nat :: Up(p, x, m).Some? && Up(p, x, m + 1).None?
    decreases |p| - n
  {
    DepthBound(p, x, n);
    if Up(p, x, n + 1).Some? { DepthExists(p, x, n + 1); }
  }

  lemma DepthIs(p: Parents, x: int, n: nat)
    requires Forest(p) && x in p
    ensures Up(p, x, n).Some? <==> n <= Depth(p, x)
  {
    var d := Depth(p, x);
    assert Up(p, x, d).Some? && Up(p, x, d + 1).None?;
    if n <= d { UpDefinedBelow(p, x, n, d); }
    else if Up(p, x, n).Some? { UpDefinedBelow(p, x, d + 1, n); }
  }

  // ----- The cycle guard -----

  /** IsAncestor(id, potentialAncestor) of the repository. */
  predicate IsAncestor(c: Closure, id: int, potentialAncestor: int) {
    id == potentialAncestor ||
    exists r :: r in c && r.ancestor == potentialAncestor && r.descendant == id && r.depth > 0
  }

  /** Above a category that is not a descendant of id, moving id changes nothing. */
  lemma {:induction false} UpUnmoved(p: Parents, id: int, q: Option<int>, x: int, n: nat)
    requires id in p && forall m: nat :: m <= n ==> Up(p, x, m) != Some(id)
    ensures Up(p[id := q], x, n) == Up(p, x, n)
    decreases n
  {
    assert Up(p, x, 0) != Some(id);
    if n > 0 && x in p && p[x].Some? {
      forall m: nat | m <= n - 1 ensures Up(p, p[x].value, m) != Some(id) {
        assert Up(p, x, m + 1) != Some(id);
      }
      UpUnmoved(p, id, q, p[x].value, n - 1);
    }
  }

  /** The first k links of a walk from x under either link of id agree until they meet id. */
  lemma {:induction false} FirstMeeting(p: Parents, id: int, x: int, n: nat) returns (k: nat)
    requires Up(p, x, n) == Some(id)
    ensures k <= n && Up(p, x, k) == Some(id) && forall m: nat :: m < k ==> Up(p, x, m) != Some(id)
  {
    k := 0;
    while Up(p, x, k) != Some(id)
      invariant k <= n && forall m: nat :: m < k ==> Up(p, x, m) != Some(id)
      decreases n - k
    {
      if k == n { assert false; }
      k := k + 1;
    }
  }

  /** If id is not at or above the new parent, the move keeps the forest. */
  lemma MoveKeepsForest(p: Parents, id: int, parent: int)
    requires Forest(p) && id in p && parent in p
    requires forall n: nat :: Up(p, parent, n) != Some(id)
    ensures Forest(p[id := Some(parent)])
  {
    var p' := p[id := Some(parent)];
    forall n: nat ensures Up(p', parent, n) != Some(id) { UpUnmoved(p, id, Some(parent), parent, n); }
    assert p'[id := p[id]] == p;
    forall x, n: nat | n > 0 ensures Up(p', x, n) != Some(x) {
      if m: nat :| m <= n && Up(p', x, m) == Some(id) {
        if Up(p', x, n) == Some(x) {
          // A cycle through id would lead from the new parent back to id.
          UpAdds(p', x, m, n - m);
          UpAdds(p', id, n - m, m);
        }
      } else {
        UpUnmoved(p', id, p[id], x, n);
      }
    }
  }

  lemma OneUp(p: Parents, x: int)
    requires x in p
    ensures p[x].None? ==> Up(p, x, 1).None?
    ensures p[x].Some? ==> Up(p, x, 1) == if p[x].value in p then Some(p[x].value) else None
  {
    if p[x].Some? { assert Up(p, x, 1) == Up(p, p[x].value, 0); }
  }

  /** If id is at or above the new parent, the move closes a cycle. */
  lemma MoveMakesCycle(p: Parents, id: int, parent: int, n: nat)
    requires id in p && Up(p, parent, n) == Some(id)
    ensures !Acyclic(p[id := Some(parent)])
  {
    var p' := p[id := Some(parent)];
    var k := FirstMeeting(p, id, parent, n);
    if k > 0 {
      UpDefinedBelow(p, parent, k - 1, k);
      UpUnmoved(p, id, Some(parent), parent, k - 1);
      UpAdds(p, parent, k - 1, 1);
      var y := Up(p, parent, k - 1).value;
      UpStaysInside(p, parent, k - 1);
      OneUp(p, y);
      OneUp(p', y);
      UpAdds(p', parent, k - 1, 1);
    }
    assert Up(p', parent, k) == Some(id);
    assert Up(p', id, k + 1) == Some(id);
  }

  /** The guard refuses a move exactly when it would make a cycle. */
  lemma GuardIsExact(p: Parents, c: Closure, id: int, parent: int)
    requires Forest(p) && IsClosure(c, p) && id in p && parent in p
    ensures IsAncestor(c, parent, id) <==> !Forest(p[id := Some(parent)])
  {
    if IsAncestor(c, parent, id) {
      var n: nat := 0;
      if parent != id {
        var r :| r in c && r.ancestor == id && r.descendant == parent && r.depth > 0;
        n := r.depth;
      }
      MoveMakesCycle(p, id, parent, n);
    } else {
      forall n: nat ensures Up(p, parent, n) != Some(id) {
        assert ClosureRow(id, parent, n) in c <==> Up(p, parent, n) == Some(id);
      }
      MoveKeepsForest(p, id, parent);
    }
  }

  /** Clearing a parent, or adding a new leaf under an existing parent, keeps the forest. */
  lemma ClearKeepsForest(p: Parents, id: int)
    requires Forest(p) && id in p
    ensures Forest(p[id := None])
  {
    var p' := p[id := None];
    forall x, n: nat | n > 0 ensures Up(p', x, n) != Some(x) {
      UpOnlyShorter(p, id, x, n);
    }
  }

  lemma {:induction false} UpOnlyShorter(p: Parents, id: int, x: int, n: nat)
    requires id in p
    ensures Up(p[id := None], x, n).Some? ==> Up(p[id := None], x, n) == Up(p, x, n)
    decreases n
  {
    if n > 0 && x in p && x != id && p[x].Some? { UpOnlyShorter(p, id, p[x].value, n - 1); }
  }

  lemma AddKeepsForest(p: Parents, id: int, parent: Option<int>)
    requires Forest(p) && id !in p && (parent.Some? ==> parent.value in p)
    ensures Forest(p[id := parent])
  {
    var p' := p[id := parent];
    forall x, n: nat | n > 0 ensures Up(p', x, n) != Some(x) {
      if x != id {
        UpBeforeAdd(p, id, parent, x, n);
      } else if parent.Some? {
        UpBeforeAdd(p, id, parent, parent.value, n - 1);
        UpStaysInside(p, parent.value, n - 1);
      }
    }
  }

  lemma {:induction false} UpBeforeAdd(p: Parents, id: int, parent: Option<int>, x: int, n: nat)
    requires Closed(p) && id !in p && x != id
    ensures Up(p[id := parent], x, n) == Up(p, x, n)
    decreases n
  {
    if n > 0 && x in p && p[x].Some? { UpBeforeAdd(p, id, parent, p[x].value, n - 1); }
  }

  // ----- The breadcrumb -----

  /** SELECT ... WHERE descendant_id = id AND ancestor_id <> id ORDER BY depth DESC. */
  ghost predicate IsAncestorList(c: Closure, id: int, out: seq<ClosureRow>) {
    && (forall r :: r in out <==> r in c && r.descendant == id && r.ancestor != id)
    && (forall i, j :: 0 <= i < j < |out| ==> out[i].depth >= out[j].depth && out[i] != out[j])
  }

  /** The path from the root of x down to its direct parent. */
  ghost predicate IsPath(p: Parents, x: int, out: seq<ClosureRow>)
    requires x in p
  {
    && (out == [] <==> p[x].None?)
    && (out != [] ==> p[x] == Some(out[|out| - 1].ancestor) && out[0].ancestor in p && p[out[0].ancestor].None?)
    && (forall i :: 0 <= i < |out| ==> out[i].descendant == x && out[i].depth == |out| - i)
    && (forall i :: 0 < i < |out| ==> out[i].ancestor in p && p[out[i].ancestor] == Some(out[i - 1].ancestor))
  }

  predicate HasDepth(out: seq<ClosureRow>, d: int) {
    exists i :: 0 <= i < |out| && out[i].depth == d
  }

  /** Distinct depths in descending order from 1 to n leave no choice. */
  lemma {:induction false} DepthsForced(out: seq<ClosureRow>, n: nat)
    requires forall i, j :: 0 <= i < j < |out| ==> out[i].depth > out[j].depth
    requires forall i :: 0 <= i < |out| ==> 1 <= out[i].depth <= n
    requires forall d :: 1 <= d <= n ==> HasDepth(out, d)
    ensures |out| == n && forall i :: 0 <= i < n ==> out[i].depth == n - i
    decreases |out|
  {
    if out == [] {
      assert n >= 1 ==> HasDepth(out, n);
    } else {
      assert 1 <= out[0].depth <= n;
      assert HasDepth(out, n);
      var i :| 0 <= i < |out| && out[i].depth == n;
      assert out[0].depth >= n;
      var rest := out[1..];
      forall d | 1 <= d <= n - 1 ensures HasDepth(rest, d) {
        assert HasDepth(out, d);
        var k :| 0 <= k < |out| && out[k].depth == d;
        assert rest[k - 1].depth == d;
      }
      DepthsForced(rest, n - 1);
      forall k | 0 <= k < n ensures out[k].depth == n - k {
        if k > 0 { assert rest[k - 1] == out[k]; }
      }
    }
  }

  lemma AncestorDepths(p: Parents, c: Closure, x: int, out: seq<ClosureRow>)
    requires Forest(p) && x in p && IsClosure(c, p) && IsAncestorList(c, x, out)
    ensures |out| == Depth(p, x)
    ensures forall i :: 0 <= i < |out| ==>
      out[i].descendant == x && out[i].depth == |out| - i && Up(p, x, |out| - i) == Some(out[i].ancestor)
  {
    var n := Depth(p, x);
    forall i | 0 <= i < |out| ensures 1 <= out[i].depth <= n {
      assert out[i] in out;
      DepthIs(p, x, out[i].depth);
      assert Up(p, x, 0) == Some(x);
    }
    forall i, j | 0 <= i < j < |out| ensures out[i].depth > out[j].depth {
      assert out[i] in out && out[j] in out;
      assert out[i] == ClosureRow(out[i].ancestor, x, out[i].depth);
      assert out[j] == ClosureRow(out[j].ancestor, x, out[j].depth);
    }
    forall d | 1 <= d <= n ensures HasDepth(out, d) {
      DepthIs(p, x, d);
      var r := ClosureRow(Up(p, x, d).value, x, d);
      assert r in c && r.ancestor != x;
      assert r in out;
    }
    DepthsForced(out, n);
    forall i | 0 <= i < |out| ensures out[i].descendant == x && Up(p, x, |out| - i) == Some(out[i].ancestor) {
      assert out[i] in out;
    }
  }

  /** Whatever order the database breaks ties in, the ancestor list is the one path from the
      root to the direct parent. */
  lemma AncestorListIsPath(p: Parents, c: Closure, x: int, out: seq<ClosureRow>)
    requires Forest(p) && x in p && IsClosure(c, p) && IsAncestorList(c, x, out)
    ensures IsPath(p, x, out)
  {
    AncestorDepths(p, c, x, out);
    var n := |out|;
    DepthIs(p, x, 1);
    OneUp(p, x);
    if n > 0 {
      assert out[n - 1].depth == 1;
      var root := out[0].ancestor;
      UpStaysInside(p, x, n);
      UpAdds(p, x, n, 1);
      OneUp(p, root);
      DepthIs(p, x, n + 1);
      forall i | 0 < i < n ensures out[i].ancestor in p && p[out[i].ancestor] == Some(out[i - 1].ancestor) {
        assert Up(p, x, n - i) == Some(out[i].ancestor);
        UpStaysInside(p, x, n - i);
        UpAdds(p, x, n - i, 1);
        assert Up(p, x, n - i + 1) == Some(out[i - 1].ancestor);
        OneUp(p, out[i].ancestor);
      }
    }
  }

  /** Reading a path upwards follows the parent links, and it ends at the root. */
  lemma {:induction false} PathClimbs(p: Parents, x: int, a: seq<ClosureRow>, k: nat)
    requires Closed(p) && x in p && IsPath(p, x, a) && 1 <= k <= |a|
    ensures Up(p, x, k) == Some(a[|a| - k].ancestor)
  {
    OneUp(p, x);
    if k > 1 {
      PathClimbs(p, x, a, k - 1);
      UpAdds(p, x, k - 1, 1);
      OneUp(p, a[|a| - (k - 1)].ancestor);
    }
  }

  lemma PathLength(p: Parents, x: int, a: seq<ClosureRow>)
    requires Forest(p) && x in p && IsPath(p, x, a)
    ensures |a| == Depth(p, x)
  {
    OneUp(p, x);
    if a != [] {
      PathClimbs(p, x, a, |a|);
      UpAdds(p, x, |a|, 1);
      OneUp(p, a[0].ancestor);
    }
    DepthIs(p, x, |a|);
    DepthIs(p, x, |a| + 1);
  }

  lemma PathUnique(p: Parents, x: int, a: seq<ClosureRow>, b: seq<ClosureRow>)
    requires Forest(p) && x in p && IsPath(p, x, a) && IsPath(p, x, b)
    ensures a == b
  {
    PathLength(p, x, a);
    PathLength(p, x, b);
    forall i | 0 <= i < |a| ensures a[i] == b[i] {
      PathClimbs(p, x, a, |a| - i);
      PathClimbs(p, x, b, |b| - i);
      assert a[i] == ClosureRow(a[i].ancestor, x, |a| - i);
    }
  }
}
