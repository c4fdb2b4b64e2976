/** fn_maintain_category_closure: the trigger that keeps category_closure up to date, one
    INSERT, re-parenting UPDATE or DELETE at a time. */
module CategoryTriggers {
  import opened Common
  import opened CategoryTree

  /** AFTER INSERT: the row for the category itself, and one below each ancestor of its parent. */
  function AfterInsert(c: Closure, id: int, parent: Option<int>): Closure {
    c + {ClosureRow(id, id, 0)}
    + (if parent.None? then {}
       else set r | r in c && r.descendant == parent.value :: ClosureRow(r.ancestor, id, r.depth + 1))
  }

  /** SELECT descendant_id FROM category_closure WHERE ancestor_id = id. */
  function Subtree(c: Closure, id: int): set<int> {
    set r | r in c && r.ancestor == id :: r.descendant
  }

  /** The DELETE: links from outside the subtree into it go. */
  function CutOff(c: Closure, id: int): Closure {
    set r | r in c && !(r.descendant in Subtree(c, id) && r.ancestor !in Subtree(c, id))
  }

  /** The second INSERT: every ancestor of the new parent above every member of the subtree. */
  function Grafted(c: Closure, id: int, parent: int): Closure {
    set p, s | p in c && s in c && p.descendant == parent && s.ancestor == id ::
      ClosureRow(p.ancestor, s.descendant, p.depth + s.depth + 1)
  }

  /** AFTER UPDATE OF parent_id, when the parent changed. */
  function AfterMove(c: Closure, id: int, parent: Option<int>): Closure {
    var kept := CutOff(c, id);
    kept + (if parent.None? then {} else Grafted(kept, id, parent.value))
  }

  /** AFTER DELETE: the rows that name the category go, as the cascade of the foreign keys makes them. */
  function AfterDelete(c: Closure, id: int): Closure {
    set r | r in c && r.ancestor != id && r.descendant != id
  }

  // ----- Insertion -----

  lemma InsertedRow(p: Parents, c: Closure, id: int, parent: Option<int>, r: ClosureRow)
    requires Forest(p) && IsClosure(c, p) && id !in p && (parent.Some? ==> parent.value in p)
    ensures r in AfterInsert(c, id, parent) <==> Up(p[id := parent], r.descendant, r.depth) == Some(r.ancestor)
  {
    assert r in c <==> Up(p, r.descendant, r.depth) == Some(r.ancestor);
    if r.descendant != id {
      UpBeforeAdd(p, id, parent, r.descendant, r.depth);
    } else if r.depth > 0 && parent.Some? {
      UpBeforeAdd(p, id, parent, parent.value, r.depth - 1);
      var above := ClosureRow(r.ancestor, parent.value, r.depth - 1);
      assert above in c <==> Up(p, parent.value, r.depth - 1) == Some(r.ancestor);
    }
  }

  /** Adding a leaf keeps the closure exact. */
  lemma InsertKeepsClosure(p: Parents, c: Closure, id: int, parent: Option<int>)
    requires Forest(p) && IsClosure(c, p) && id !in p && (parent.Some? ==> parent.value in p)
    ensures IsClosure(AfterInsert(c, id, parent), p[id := parent])
  {
    forall r ensures r in AfterInsert(c, id, parent) <==>
      Up(p[id := parent], r.descendant, r.depth) == Some(r.ancestor) {
      InsertedRow(p, c, id, parent, r);
    }
  }

  // ----- Moving a subtree -----

  /** No category is met twice on the way up. */
  lemma MetOnce(p: Parents, x: int, m: nat, n: nat)
    requires Acyclic(p) && Up(p, x, m).Some? && Up(p, x, m) == Up(p, x, n)
    ensures m == n
  {
    if m < n { MovesOn(p, x, m, n); } else if n < m { MovesOn(p, x, n, m); }
  }

  /** x hangs below id, or is it. */
  ghost predicate Below(p: Parents, x: int, id: int) {
    exists k: nat :: Up(p, x, k) == Some(id)
  }

  lemma SubtreeMembers(p: Parents, c: Closure, id: int, x: int)
    requires IsClosure(c, p)
    ensures x in Subtree(c, id) <==> Below(p, x, id)
  {
    if x in Subtree(c, id) {
      var r :| r in c && r.ancestor == id && r.descendant == x;
      assert Up(p, x, r.depth) == Some(id);
    }
    if Below(p, x, id) {
      var k: nat :| Up(p, x, k) == Some(id);
      var r := ClosureRow(id, x, k);
      assert r in c;
      DescendantOf(c, id, r);
    }
  }

  lemma DescendantOf(c: Closure, id: int, r: ClosureRow)
    requires r in c && r.ancestor == id
    ensures r.descendant in Subtree(c, id)
  {
  }

  /** From inside the subtree, exactly the first steps up to id stay inside it. */
  lemma InsideUpTo(p: Parents, c: Closure, id: int, x: int, k: nat, n: nat)
    requires Forest(p) && IsClosure(c, p) && Up(p, x, k) == Some(id) && Up(p, x, n).Some?
    ensures Up(p, x, n).value in Subtree(c, id) <==> n <= k
  {
    var y := Up(p, x, n).value;
    SubtreeMembers(p, c, id, y);
    if n <= k {
      UpAdds(p, x, n, k - n);
    } else if j: nat :| Up(p, y, j) == Some(id) {
      UpAdds(p, x, n, j);
      MetOnce(p, x, k, n + j);
    }
  }

  /** Where x in the subtree climbs to after the move. */
  lemma ClimbAfterMove(p: Parents, id: int, parent: Option<int>, x: int, k: nat, n: nat)
    requires Forest(p) && id in p && Up(p, x, k) == Some(id)
    requires parent.Some? ==> forall m: nat :: Up(p, parent.value, m) != Some(id)
    ensures Up(p[id := parent], x, n) ==
      if n <= k then Up(p, x, n) else if parent.None? then None else Up(p, parent.value, n - k - 1)
  {
    var p' := p[id := parent];
    forall m: nat | m < k ensures Up(p, x, m) != Some(id) {
      if Up(p, x, m) == Some(id) { MetOnce(p, x, m, k); }
    }
    if n < k {
      UpUnmoved(p, id, parent, x, n);
    } else {
      ReachesMoved(p, id, parent, x, k);
      UpAdds(p', x, k, n - k);
      if n > k && parent.Some? { UpUnmoved(p, id, parent, parent.value, n - k - 1); }
    }
  }

  lemma ReachesMoved(p: Parents, id: int, parent: Option<int>, x: int, k: nat)
    requires id in p && Up(p, x, k) == Some(id) && forall m: nat :: m < k ==> Up(p, x, m) != Some(id)
    ensures Up(p[id := parent], x, k) == Some(id)
  {
    if k > 0 {
      var p' := p[id := parent];
      UpDefinedBelow(p, x, k - 1, k);
      UpUnmoved(p, id, parent, x, k - 1);
      UpAdds(p, x, k - 1, 1);
      UpAdds(p', x, k - 1, 1);
      var y := Up(p, x, k - 1).value;
      UpStaysInside(p, x, k - 1);
      OneUp(p, y);
      OneUp(p', y);
    }
  }

  lemma CutOffRow(p: Parents, c: Closure, id: int, r: ClosureRow)
    requires IsClosure(c, p)
    ensures r in CutOff(c, id) <==>
      Up(p, r.descendant, r.depth) == Some(r.ancestor) &&
      !(r.descendant in Subtree(c, id) && r.ancestor !in Subtree(c, id))
  {
    assert r in c <==> Up(p, r.descendant, r.depth) == Some(r.ancestor);
  }

  /** A row is grafted exactly for an ancestor of the new parent and a member of the subtree. */
  lemma GraftedRow(p: Parents, c: Closure, id: int, parent: int, r: ClosureRow, k: nat)
    requires Forest(p) && IsClosure(c, p) && id in p
    requires forall m: nat :: Up(p, parent, m) != Some(id)
    requires Up(p, r.descendant, k) == Some(id)
    ensures r in Grafted(CutOff(c, id), id, parent) <==>
      r.depth > k && Up(p, parent, r.depth - k - 1) == Some(r.ancestor)
  {
    var kept := CutOff(c, id);
    var below := ClosureRow(id, r.descendant, k);
    assert below in kept by {
      CutOffRow(p, c, id, below);
      SubtreeMembers(p, c, id, id);
      assert Up(p, id, 0) == Some(id);
    }
    SubtreeMembers(p, c, id, parent);
    if r.depth > k && Up(p, parent, r.depth - k - 1) == Some(r.ancestor) {
      var above := ClosureRow(r.ancestor, parent, r.depth - k - 1);
      CutOffRow(p, c, id, above);
      assert above in kept && r == ClosureRow(above.ancestor, below.descendant, above.depth + below.depth + 1);
    }
    if r in Grafted(kept, id, parent) {
      var a, s :| a in kept && s in kept && a.descendant == parent && s.ancestor == id
        && r == ClosureRow(a.ancestor, s.descendant, a.depth + s.depth + 1);
      CutOffRow(p, c, id, a);
      CutOffRow(p, c, id, s);
      MetOnce(p, r.descendant, k, s.depth);
    }
  }

  lemma GraftsOnlySubtree(p: Parents, c: Closure, id: int, parent: int, r: ClosureRow)
    requires IsClosure(c, p) && r in Grafted(CutOff(c, id), id, parent)
    ensures r.descendant in Subtree(c, id)
  {
  }

  lemma MovedRow(p: Parents, c: Closure, id: int, parent: Option<int>, r: ClosureRow)
    requires Forest(p) && IsClosure(c, p) && id in p
    requires parent.Some? ==> forall m: nat :: Up(p, parent.value, m) != Some(id)
    ensures r in AfterMove(c, id, parent) <==> Up(p[id := parent], r.descendant, r.depth) == Some(r.ancestor)
  {
    var x, n := r.descendant, r.depth;
    CutOffRow(p, c, id, r);
    SubtreeMembers(p, c, id, x);
    if k: nat :| Up(p, x, k) == Some(id) {
      ClimbAfterMove(p, id, parent, x, k, n);
      if Up(p, x, n) == Some(r.ancestor) { InsideUpTo(p, c, id, x, k, n); }
      if parent.Some? { GraftedRow(p, c, id, parent.value, r, k); }
    } else {
      UpUnmoved(p, id, parent, x, n);
      if parent.Some? && r in Grafted(CutOff(c, id), id, parent.value) { GraftsOnlySubtree(p, c, id, parent.value, r); }
    }
  }

  /** Moving a subtree under a category outside it, or to the top, keeps the closure exact. */
  lemma MoveKeepsClosure(p: Parents, c: Closure, id: int, parent: Option<int>)
    requires Forest(p) && IsClosure(c, p) && id in p
    requires parent.Some? ==> forall m: nat :: Up(p, parent.value, m) != Some(id)
    ensures IsClosure(AfterMove(c, id, parent), p[id := parent])
  {
    forall r ensures r in AfterMove(c, id, parent) <==> Up(p[id := parent], r.descendant, r.depth) == Some(r.ancestor) {
      MovedRow(p, c, id, parent, r);
    }
  }

  // ----- Deletion -----

  /** The foreign key on parent_id refuses to delete such a category. */
  ghost predicate HasChild(p: Parents, id: int) {
    exists x :: x in p && p[x] == Some(id)
  }

  /** Without a leaf every other category climbs as before, and none to the leaf. */
  lemma {:induction false} UpWithoutLeaf(p: Parents, id: int, x: int, n: nat)
    requires !HasChild(p, id)
    ensures Up(p - {id}, x, n) == if x == id then None else Up(p, x, n)
    ensures x != id ==> Up(p, x, n) != Some(id)
    decreases n
  {
    if x in p && x != id {
      assert p[x] != Some(id) && (p - {id})[x] == p[x];
      if n > 0 && p[x].Some? { UpWithoutLeaf(p, id, p[x].value, n - 1); }
    }
  }

  /** The forest stays one exactly if the category is a leaf: otherwise a link to nothing remains. */
  lemma DeleteKeepsForest(p: Parents, id: int)
    requires Forest(p) && id in p
    ensures Forest(p - {id}) <==> !HasChild(p, id)
  {
    if x :| x in p && p[x] == Some(id) {
      OneUp(p, x);
      assert x != id && (p - {id})[x] == Some(id);
    } else {
      forall x, n: nat | n > 0 ensures Up(p - {id}, x, n) != Some(x) {
        UpWithoutLeaf(p, id, x, n);
      }
    }
  }

  /** Deleting a leaf keeps the closure exact. */
  lemma DeleteKeepsClosure(p: Parents, c: Closure, id: int)
    requires IsClosure(c, p) && !HasChild(p, id)
    ensures IsClosure(AfterDelete(c, id), p - {id})
  {
    forall r ensures r in AfterDelete(c, id) <==> Up(p - {id}, r.descendant, r.depth) == Some(r.ancestor) {
      UpWithoutLeaf(p, id, r.descendant, r.depth);
      assert r in c <==> Up(p, r.descendant, r.depth) == Some(r.ancestor);
    }
  }

  // ----- The primary key (ancestor_id, descendant_id) -----

  ghost predicate OneRowPerPair(c: Closure) {
    forall r, s :: r in c && s in c && r.ancestor == s.ancestor && r.descendant == s.descendant ==> r == s
  }

  lemma ClosureHasKeys(p: Parents, c: Closure)
    requires Forest(p) && IsClosure(c, p)
    ensures OneRowPerPair(c)
  {
    forall r, s | r in c && s in c && r.ancestor == s.ancestor && r.descendant == s.descendant ensures r == s {
      MetOnce(p, r.descendant, r.depth, s.depth);
    }
  }

  /** The move's INSERT adds no pair that the DELETE left in place. */
  lemma GraftsNewPairs(p: Parents, c: Closure, id: int, parent: int, r: ClosureRow, s: ClosureRow)
    requires Forest(p) && IsClosure(c, p) && id in p && parent in p
    requires forall m: nat :: Up(p, parent, m) != Some(id)
    requires r in Grafted(CutOff(c, id), id, parent) && s in CutOff(c, id)
    ensures r.ancestor != s.ancestor || r.descendant != s.descendant
  {
    GraftsOnlySubtree(p, c, id, parent, r);
    var kept := CutOff(c, id);
    var a, d :| a in kept && d in kept && a.descendant == parent && d.ancestor == id
      && r == ClosureRow(a.ancestor, d.descendant, a.depth + d.depth + 1);
    CutOffRow(p, c, id, a);
    SubtreeMembers(p, c, id, r.ancestor);
    if j: nat :| Up(p, r.ancestor, j) == Some(id) { UpAdds(p, parent, a.depth, j); }
  }

  /** The pairs the move's INSERT builds its rows from are distinct (ancestor, descendant) pairs. */
  lemma GraftsDistinctPairs(p: Parents, c: Closure, id: int, parent: int,
                            a: ClosureRow, s: ClosureRow, b: ClosureRow, t: ClosureRow)
    requires Forest(p) && IsClosure(c, p)
    requires a in CutOff(c, id) && s in CutOff(c, id) && a.descendant == parent && s.ancestor == id
    requires b in CutOff(c, id) && t in CutOff(c, id) && b.descendant == parent && t.ancestor == id
    requires a.ancestor == b.ancestor && s.descendant == t.descendant
    ensures a == b && s == t
  {
    ClosureHasKeys(p, c);
  }

  /** The rows of a new category repeat no pair of the table, nor each other's. */
  lemma InsertsNewPairs(p: Parents, c: Closure, id: int, parent: Option<int>, r: ClosureRow, s: ClosureRow)
    requires Forest(p) && IsClosure(c, p) && id !in p && (parent.Some? ==> parent.value in p)
    requires r in AfterInsert(c, id, parent) && s in AfterInsert(c, id, parent)
    requires r.ancestor == s.ancestor && r.descendant == s.descendant
    ensures r == s && (r.descendant == id ==> r !in c)
  {
    InsertKeepsClosure(p, c, id, parent);
    AddKeepsForest(p, id, parent);
    ClosureHasKeys(p[id := parent], AfterInsert(c, id, parent));
  }

  // ----- Whole runs -----

  datatype Change =
    | Create(newId: int, under: Option<int>)
    | Reparent(id: int, parent: int)
    | Delete(id: int)

  /** The categories and the closure table beside them. */
  datatype Tree = Tree(parents: Parents, closure: Closure)

  ghost predicate Consistent(t: Tree) {
    Forest(t.parents) && IsClosure(t.closure, t.parents)
  }

  /** The checks of CreateCategory and UpdateCategory on one request, read from the tables, and the foreign
      key that a deletion meets. */
  ghost predicate Accepted(t: Tree, ch: Change) {
    match ch
    case Create(id, under) => id !in t.parents && (under.Some? ==> under.value in t.parents)
    case Reparent(id, parent) =>
      id in t.parents &&
      (parent == 0 || (parent != id && parent in t.parents && !IsAncestor(t.closure, parent, id)))
    case Delete(id) => id in t.parents && !HasChild(t.parents, id)
  }

  function ParentOf(parent: int): Option<int> {
    if parent == 0 then None else Some(parent)
  }

  /** A request that is refused changes nothing; the trigger skips an unchanged parent. */
  ghost function Apply(t: Tree, ch: Change): Tree {
    if !Accepted(t, ch) then t
    else match ch
      case Create(id, under) => Tree(t.parents[id := under], AfterInsert(t.closure, id, under))
      case Reparent(id, parent) =>
        if t.parents[id] == ParentOf(parent) then t
        else Tree(t.parents[id := ParentOf(parent)], AfterMove(t.closure, id, ParentOf(parent)))
      case Delete(id) => Tree(t.parents - {id}, AfterDelete(t.closure, id))
  }

  ghost function ApplyAll(t: Tree, changes: seq<Change>): Tree {
    if changes == [] then t else Apply(ApplyAll(t, changes[..|changes| - 1]), changes[|changes| - 1])
  }

  /** A move the guard lets through keeps the forest, and the trigger keeps its closure. */
  lemma MoveKeepsTree(t: Tree, id: int, parent: Option<int>)
    requires Consistent(t) && id in t.parents
    requires parent.Some? ==> parent.value in t.parents && !IsAncestor(t.closure, parent.value, id)
    ensures Consistent(Tree(t.parents[id := parent], AfterMove(t.closure, id, parent)))
  {
    if parent.None? {
      ClearKeepsForest(t.parents, id);
    } else {
      NotAbove(t.parents, t.closure, id, parent.value);
      GuardIsExact(t.parents, t.closure, id, parent.value);
    }
    MoveKeepsClosure(t.parents, t.closure, id, parent);
  }

  lemma NotAbove(p: Parents, c: Closure, id: int, parent: int)
    requires IsClosure(c, p) && parent in p && !IsAncestor(c, parent, id)
    ensures forall m: nat :: Up(p, parent, m) != Some(id)
  {
    forall m: nat ensures Up(p, parent, m) != Some(id) {
      assert ClosureRow(id, parent, m) in c <==> Up(p, parent, m) == Some(id);
    }
  }

  /** A change is accepted exactly when its categories exist, or do not yet, and a forest results; then it is
      made, and otherwise nothing is. */
  lemma AcceptedExactly(t: Tree, ch: Change)
    requires Consistent(t)
    ensures ch.Create? ==>
      (Accepted(t, ch) <==> ch.newId !in t.parents && (ch.under.Some? ==> ch.under.value in t.parents))
    ensures ch.Reparent? ==>
      (Accepted(t, ch) <==>
        && ch.id in t.parents && (ch.parent != 0 ==> ch.parent in t.parents)
        && Forest(t.parents[ch.id := if ch.parent == 0 then None else Some(ch.parent)]))
    ensures ch.Delete? ==> (Accepted(t, ch) <==> ch.id in t.parents && Forest(t.parents - {ch.id}))
    ensures !Accepted(t, ch) ==> Apply(t, ch) == t
    ensures Accepted(t, ch) ==>
      Apply(t, ch).parents ==
        match ch
        case Create(id, under) => t.parents[id := under]
        case Reparent(id, parent) => t.parents[id := if parent == 0 then None else Some(parent)]
        case Delete(id) => t.parents - {id}
  {
    match ch
    case Create(_, _) =>
    case Reparent(id, parent) =>
      if id in t.parents && parent == 0 { ClearKeepsForest(t.parents, id); }
      if id in t.parents && parent != 0 && parent in t.parents { GuardIsExact(t.parents, t.closure, id, parent); }
      if id in t.parents && t.parents[id] == ParentOf(parent) { assert t.parents[id := ParentOf(parent)] == t.parents; }
    case Delete(id) => if id in t.parents { DeleteKeepsForest(t.parents, id); }
  }

  /** Any sequence of creations, moves and deletions, refused ones included, leaves a forest and its exact
      closure. */
  lemma {:induction false} RunsKeepTree(t: Tree, changes: seq<Change>)
    requires Consistent(t)
    ensures Consistent(ApplyAll(t, changes))
  {
    if changes != [] {
      var before := ApplyAll(t, changes[..|changes| - 1]);
      RunsKeepTree(t, changes[..|changes| - 1]);
      var ch := changes[|changes| - 1];
      if Accepted(before, ch) {
        match ch
        case Create(id, under) =>
          AddKeepsForest(before.parents, id, under);
          InsertKeepsClosure(before.parents, before.closure, id, under);
        case Reparent(id, parent) => MoveKeepsTree(before, id, ParentOf(parent));
        case Delete(id) =>
          DeleteKeepsForest(before.parents, id);
          DeleteKeepsClosure(before.parents, before.closure, id);
      }
    }
  }
}
