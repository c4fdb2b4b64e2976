/** CreateCategory, UpdateCategory and DeleteCategory over product_categories. Slugs and images are left
    out; `stored` says whether the statement itself can succeed. */
module CategoryService {
  import opened Common
  import opened CategoryTree
  import opened CategoryTriggers
  import opened Text

  datatype Category = Category(name: string, parentId: Option<int>, isActive: bool)

  datatype CreateRequest = CreateRequest(name: string, parentId: Option<int>, isActive: Option<bool>)

  /** None leaves a field alone; a parent id of 0 clears the parent. */
  datatype UpdateRequest = UpdateRequest(name: Option<string>, parentId: Option<int>, isActive: Option<bool>)

  datatype Error = InvalidName | InvalidParent | NotFound | CircularParent | NotStored

  predicate ValidName(name: string) {
    1 <= |TrimSpace(name)| <= 255
  }

  ghost function Links(rows: map<int, Category>): Parents {
    map id | id in rows :: rows[id].parentId
  }

  class Service {
    var rows: map<int, Category>
    /** category_closure, which only the trigger writes. */
    var closure: Closure

    ghost predicate Valid()
      reads this
    {
      Forest(Links(rows)) && IsClosure(closure, Links(rows))
    }

    constructor ()
      ensures Valid() && rows == map[]
    {
      rows := map[];
      closure := {};
    }

    /** `newId` is the value the database sequence hands out next. */
    method CreateCategory(req: CreateRequest, newId: int, stored: bool) returns (r: Result<int, Error>)
      requires Valid() && newId > 0 && newId !in rows
      modifies this
      ensures Valid()
      ensures r.Ok? <==>
        && ValidName(req.name) && stored
        && (req.parentId.Some? ==> req.parentId.value > 0 && req.parentId.value in old(rows))
      ensures r.Ok? ==> r.value == newId && rows == old(rows)[newId :=
        Category(TrimSpace(req.name), req.parentId, req.isActive.None? || req.isActive.value)]
      ensures r.Err? ==> rows == old(rows)
      ensures r == Err(InvalidName) <==> !(1 <= |TrimSpace(req.name)| <= 255)
      ensures r == Err(InvalidParent) <==>
        1 <= |TrimSpace(req.name)| <= 255 && req.parentId.Some? && req.parentId.value <= 0
      ensures r == Err(NotFound) <==>
        && 1 <= |TrimSpace(req.name)| <= 255
        && req.parentId.Some? && req.parentId.value > 0 && req.parentId.value !in old(rows)
    {
      var name := TrimSpace(req.name);
      if name == "" || |name| > 255 { return Err(InvalidName); }
      if req.parentId.Some? && req.parentId.value <= 0 { return Err(InvalidParent); }
      if req.parentId.Some? && req.parentId.value !in rows { return Err(NotFound); }
      var c := Category(name, req.parentId, true);
      if req.isActive.Some? { c := c.(isActive := req.isActive.value); }
      if !stored { return Err(NotStored); }
      AddKeepsForest(Links(rows), newId, req.parentId);
      InsertKeepsClosure(Links(rows), closure, newId, req.parentId);
      assert Links(rows[newId := c]) == Links(rows)[newId := req.parentId];
      rows := rows[newId := c];
      closure := AfterInsert(closure, newId, req.parentId);
      return Ok(newId);
    }

    /** An update is accepted exactly when the category exists and the links stay a forest; a move is
        refused as circular exactly when it would leave a cycle. A parent id of 0 clears the parent. */
    method UpdateCategory(id: int, req: UpdateRequest, stored: bool) returns (r: Result<Category, Error>)
      requires Valid()
      modifies this
      ensures Valid()
      ensures r.Ok? <==>
        && (req.name.Some? ==> 1 <= |TrimSpace(req.name.value)| <= 255)
        && id in old(rows) && stored
        && (req.parentId.Some? && req.parentId.value != 0 ==>
              && req.parentId.value > 0 && req.parentId.value != id && req.parentId.value in old(rows)
              && Forest(Links(old(rows))[id := req.parentId]))
      ensures r.Ok? ==> r.value == Category(
        if req.name.Some? then TrimSpace(req.name.value) else old(rows)[id].name,
        if req.parentId.None? then old(rows)[id].parentId
        else if req.parentId.value == 0 then None else req.parentId,
        if req.isActive.Some? then req.isActive.value else old(rows)[id].isActive)
      ensures rows == if r.Ok? then old(rows)[id := r.value] else old(rows)
      ensures r == Err(InvalidName) <==> req.name.Some? && !(1 <= |TrimSpace(req.name.value)| <= 255)
      ensures r == Err(InvalidParent) <==>
        && (req.name.Some? ==> 1 <= |TrimSpace(req.name.value)| <= 255)
        && req.parentId.Some? && req.parentId.value < 0
      ensures r == Err(NotFound) <==>
        && (req.name.Some? ==> 1 <= |TrimSpace(req.name.value)| <= 255)
        && (req.parentId.Some? ==> req.parentId.value >= 0)
        && (|| id !in old(rows)
            || (req.parentId.Some? && req.parentId.value > 0 && req.parentId.value != id
                && req.parentId.value !in old(rows)))
      ensures r == Err(CircularParent) <==>
        && (req.name.Some? ==> 1 <= |TrimSpace(req.name.value)| <= 255)
        && id in old(rows) && req.parentId.Some? && req.parentId.value > 0
        && (req.parentId.value == id || req.parentId.value in old(rows))
        && !Forest(Links(old(rows))[id := req.parentId])
      ensures r == Err(NotStored) <==>
        && !stored && (req.name.Some? ==> 1 <= |TrimSpace(req.name.value)| <= 255) && id in old(rows)
        && (req.parentId.Some? && req.parentId.value != 0 ==>
              && req.parentId.value > 0 && req.parentId.value != id && req.parentId.value in old(rows)
              && Forest(Links(old(rows))[id := req.parentId]))
    {
      if req.name.Some? && (TrimSpace(req.name.value) == "" || |TrimSpace(req.name.value)| > 255) {
        return Err(InvalidName);
      }
      if req.parentId.Some? && req.parentId.value < 0 { return Err(InvalidParent); }
      if id !in rows { return Err(NotFound); }
      var c := rows[id];
      if req.name.Some? && TrimSpace(req.name.value) != c.name { c := c.(name := TrimSpace(req.name.value)); }

      ghost var p := Links(rows);
      if req.parentId.Some? {
        var parent := req.parentId.value;
        if parent == 0 {
          c := c.(parentId := None);
        } else if parent == id {
          GuardIsExact(p, closure, id, parent);
          return Err(CircularParent);
        } else {
          if parent !in rows { return Err(NotFound); }
          GuardIsExact(p, closure, id, parent);
          if IsAncestor(closure, parent, id) { return Err(CircularParent); }
          c := c.(parentId := Some(parent));
        }
      }
      if req.isActive.Some? { c := c.(isActive := req.isActive.value); }
      if !stored { return Err(NotStored); }
      assert Links(rows[id := c]) == p[id := c.parentId];
      if c.parentId == rows[id].parentId {
        assert p[id := c.parentId] == p;
      } else {
        MoveKeepsTree(Tree(p, closure), id, c.parentId);
        closure := AfterMove(closure, id, c.parentId);
      }
      rows := rows[id := c];
      return Ok(c);
    }

    /** The foreign key on parent_id refuses a category with children, and exactly those: the others leave
        a forest behind. */
    method DeleteCategory(id: int, stored: bool) returns (err: Option<Error>)
      requires Valid()
      modifies this
      ensures Valid()
      ensures err == if !stored then Some(NotStored)
                     else if id !in old(rows) then Some(NotFound)
                     else if !Forest(Links(old(rows)) - {id}) then Some(NotStored) else None
      ensures rows == if err.None? then old(rows) - {id} else old(rows)
    {
      if !stored { return Some(NotStored); }
      if id !in rows { return Some(NotFound); }
      ghost var p := Links(rows);
      DeleteKeepsForest(p, id);
      if x :| x in rows && rows[x].parentId == Some(id) {
        assert p[x] == Some(id);
        return Some(NotStored);
      }
      assert forall x :: x in rows ==> p[x] == rows[x].parentId;
      DeleteKeepsClosure(p, closure, id);
      assert Links(rows - {id}) == p - {id};
      rows := rows - {id};
      closure := AfterDelete(closure, id);
      return None;
    }
  }
}
