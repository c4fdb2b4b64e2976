/** What the query builders share: bound arguments, numbered placeholders, and LIMIT/OFFSET. */
module Sql {
  import opened Common

  /** A bound argument. Lists bind as SQL arrays; an absent value binds as NULL. */
  datatype Value =
    | Null
    | Int(i: int)
    | Real(x: real)
    | Bool(b: bool)
    | Text(s: string)
    | Ints(ints: seq<int>)
    | Texts(texts: seq<string>)

  /** The value of placeholder $n; placeholders count from 1. */
  function Arg(args: seq<Value>, n: int): Value {
    if 1 <= n <= |args| then args[n - 1] else Null
  }

  /** LIMIT and OFFSET over an ordered result. */
  function Page<T>(rows: seq<T>, limit: nat, offset: nat): (page: seq<T>)
    ensures |page| <= limit
  {
    if offset >= |rows| then []
    else if offset + limit >= |rows| then rows[offset..]
    else rows[offset..offset + limit]
  }

  /** The first n pages, one after another. */
  function Pages<T>(rows: seq<T>, limit: nat, n: nat): seq<T> {
    if n == 0 then [] else Pages(rows, limit, n - 1) + Page(rows, limit, (n - 1) * limit)
  }

  /** Reading pages in order reads the rows in order; enough pages read each row exactly once. */
  lemma {:induction false} PagesReadEverything<T>(rows: seq<T>, limit: nat, n: nat)
    ensures Pages(rows, limit, n) == if n * limit >= |rows| then rows else rows[..n * limit]
  {
    if n > 0 {
      PagesReadEverything(rows, limit, n - 1);
      var m := (n - 1) * limit;
      assert n * limit == m + limit;
      if m < |rows| {
        if m + limit < |rows| { assert rows[..m] + rows[m..m + limit] == rows[..m + limit]; }
        else { assert rows[..m] + rows[m..] == rows; }
      }
    }
  }

  /** WHERE over a table. */
  function Select<T>(rows: seq<T>, keep: T -> bool): (r: seq<T>)
    ensures |r| <= |rows|
  {
    if rows == [] then []
    else Select(rows[..|rows| - 1], keep) + (if keep(rows[|rows| - 1]) then [rows[|rows| - 1]] else [])
  }

  lemma {:induction false} SelectMembers<T(!new)>(rows: seq<T>, keep: T -> bool)
    ensures forall x :: x in Select(rows, keep) <==> x in rows && keep(x)
  {
    if rows != [] {
      SelectMembers(rows[..|rows| - 1], keep);
      assert rows == rows[..|rows| - 1] + [rows[|rows| - 1]];
    }
  }

  lemma {:induction false} SelectSame<T(!new)>(rows: seq<T>, p: T -> bool, q: T -> bool)
    requires forall x :: x in rows ==> p(x) == q(x)
    ensures Select(rows, p) == Select(rows, q)
  {
    if rows != [] {
      SelectSame(rows[..|rows| - 1], p, q);
      assert rows[|rows| - 1] in rows;
    }
  }
}
