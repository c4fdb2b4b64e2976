/** Open transactions over inventory_items, interleaved statement by statement under row locks.
    A statement that changes a row locks it until its transaction commits or rolls back; other
    transactions wait for it and then read the committed row. */
module StockTransactions {
  import opened Common
  import opened Inventory

  /** One successful statement, kept in the order its transaction ran it. */
  datatype Entry = Entry(id: RowId, op: Op)

  /** An open transaction: its own view of the rows it has locked, and what it did. */
  datatype Tx = Tx(view: map<RowId, Option<Item>>, done: seq<Entry>)

  /** `log` is the history of all committed statements, in commit order. */
  datatype State = State(committed: Table, open: map<nat, Tx>, log: seq<Entry>)

  datatype Step =
    | Begin(tx: nat)
    | Statement(tx: nat, id: RowId, op: Op)
    | Commit(tx: nat)
    | Rollback(tx: nat)

  ghost predicate LockedByOther(s: State, tx: nat, id: RowId) {
    exists u :: u in s.open && u != tx && id in s.open[u].view
  }

  ghost predicate Enabled(s: State, st: Step) {
    match st
    case Begin(tx) => tx !in s.open
    case Statement(tx, id, op) => tx in s.open && !LockedByOther(s, tx, id) && Guarded(op)
    case Commit(tx) => tx in s.open
    case Rollback(tx) => tx in s.open
  }

  /** The row a transaction sees: its own version if it holds the lock, else the committed one. */
  function Seen(s: State, tx: nat, id: RowId): Option<Item>
    requires tx in s.open
  {
    if id in s.open[tx].view then s.open[tx].view[id] else RowOf(s.committed, id)
  }

  function Overlay(t: Table, view: map<RowId, Option<Item>>): Table {
    map id | id in t.Keys + view.Keys && (if id in view then view[id].Some? else true)
      :: if id in view then view[id].value else t[id]
  }

  function Do(s: State, st: Step): State
    requires Enabled(s, st)
  {
    match st
    case Begin(tx) => s.(open := s.open[tx := Tx(map[], [])])
    case Statement(tx, id, op) =>
      var t := s.open[tx];
      var r := Exec(Seen(s, tx, id), op);
      if r.Err? then s
      else s.(open := s.open[tx := Tx(t.view[id := r.value], t.done + [Entry(id, op)])])
    case Commit(tx) =>
      var t := s.open[tx];
      State(Overlay(s.committed, t.view), s.open - {tx}, s.log + t.done)
    case Rollback(tx) => s.(open := s.open - {tx})
  }

  // ----- Replaying a history one statement at a time, with no concurrency -----

  /** Run the logged statements one after another on a table; None if one of them fails. */
  function Replay(t: Table, log: seq<Entry>): Option<Table> {
    if log == [] then Some(t)
    else
      var before := Replay(t, log[..|log| - 1]);
      var e := log[|log| - 1];
      if before.None? then None
      else
        var r := Exec(RowOf(before.value, e.id), e.op);
        if r.Err? then None else Some(Put(before.value, e.id, r.value))
  }

  lemma {:induction false} ReplayAppend(t: Table, a: seq<Entry>, b: seq<Entry>)
    requires Replay(t, a).Some?
    ensures Replay(t, a + b) == Replay(Replay(t, a).value, b)
  {
    if b == [] {
      assert a + b == a;
    } else {
      assert (a + b)[..|a + b| - 1] == a + b[..|b| - 1];
      ReplayAppend(t, a, b[..|b| - 1]);
    }
  }

  /** The open transaction is what its statements make of the committed table, and the rows
      they touch are exactly the rows it has locked. */
  ghost predicate TxInv(s: State, t: Tx) {
    && Replay(s.committed, t.done) == Some(Overlay(s.committed, t.view))
    && (forall k :: 0 <= k < |t.done| ==> t.done[k].id in t.view && Guarded(t.done[k].op))
  }

  ghost predicate Touched(t: Tx, id: RowId) {
    exists k :: 0 <= k < |t.done| && t.done[k].id == id
  }

  /** What one step does: a statement that succeeds is seen and kept by its transaction alone, one that fails
      changes nothing; a commit makes what the transaction saw of every row the committed version; a
      rollback leaves no trace. */
  lemma StepEffect(s: State, st: Step)
    requires Enabled(s, st)
    ensures var s' := Do(s, st);
            && (!st.Begin? ==> forall u :: u in s.open && u != st.tx ==> u in s'.open && s'.open[u] == s.open[u])
            && (!st.Commit? ==> s'.committed == s.committed && s'.log == s.log)
            && (st.Begin? ==> s'.open == s.open[st.tx := Tx(map[], [])])
            && (st.Rollback? || st.Commit? ==> s'.open.Keys == s.open.Keys - {st.tx})
    ensures st.Statement? ==>
      var r, s' := Exec(Seen(s, st.tx, st.id), st.op), Do(s, st);
      if r.Err? then s' == s
      else
        && st.tx in s'.open && Seen(s', st.tx, st.id) == r.value
        && s'.open[st.tx].done == s.open[st.tx].done + [Entry(st.id, st.op)]
        && forall id :: id != st.id ==> Seen(s', st.tx, id) == Seen(s, st.tx, id)
    ensures st.Commit? ==>
      var s' := Do(s, st);
      s'.log == s.log + s.open[st.tx].done && forall id :: RowOf(s'.committed, id) == Seen(s, st.tx, id)
  {
  }

  ghost predicate Inv(start: Table, s: State) {
    && Replay(start, s.log) == Some(s.committed)
    && (forall k :: 0 <= k < |s.log| ==> Guarded(s.log[k].op))
    && (forall x :: x in s.open ==> TxInv(s, s.open[x]))
    && (forall x, y :: x in s.open && y in s.open && x != y ==> s.open[x].view.Keys !! s.open[y].view.Keys)
  }

  /** Statements on rows disjoint from another transaction's rows commute with its commit. */
  lemma {:induction false} ReplayDisjoint(t: Table, view: map<RowId, Option<Item>>, done: seq<Entry>)
    requires Replay(t, done).Some?
    requires forall k :: 0 <= k < |done| ==> done[k].id !in view
    ensures Replay(Overlay(t, view), done) == Some(Overlay(Replay(t, done).value, view))
  {
    if done == [] {
    } else {
      var n := |done| - 1;
      ReplayDisjoint(t, view, done[..n]);
      var before := Replay(t, done[..n]).value;
      var e := done[n];
      assert RowOf(Overlay(before, view), e.id) == RowOf(before, e.id);
      var r := Exec(RowOf(before, e.id), e.op).value;
      assert Overlay(Put(before, e.id, r), view) == Put(Overlay(before, view), e.id, r);
    }
  }

  lemma TxInvStatement(s: State, t: Tx, id: RowId, op: Op, row: Option<Item>)
    requires TxInv(s, t) && Guarded(op)
    requires Exec(RowOf(Overlay(s.committed, t.view), id), op) == Ok(row)
    ensures TxInv(s, Tx(t.view[id := row], t.done + [Entry(id, op)]))
  {
    var t' := Tx(t.view[id := row], t.done + [Entry(id, op)]);
    assert t'.done[..|t'.done| - 1] == t.done;
    assert Overlay(s.committed, t'.view) == Put(Overlay(s.committed, t.view), id, row);
  }

  lemma InvStatement(start: Table, s: State, tx: nat, id: RowId, op: Op)
    requires Inv(start, s) && Enabled(s, Statement(tx, id, op))
    ensures Inv(start, Do(s, Statement(tx, id, op)))
  {
    var t := s.open[tx];
    var r := Exec(Seen(s, tx, id), op);
    if r.Ok? {
      var s' := Do(s, Statement(tx, id, op));
      assert RowOf(Overlay(s.committed, t.view), id) == Seen(s, tx, id);
      TxInvStatement(s, t, id, op, r.value);
      assert s'.open == s.open[tx := Tx(t.view[id := r.value], t.done + [Entry(id, op)])];
      forall x | x in s'.open ensures TxInv(s', s'.open[x]) {
        assert TxInv(s, s'.open[x]);
      }
      assert forall y :: y in s.open && y != tx ==> id !in s.open[y].view;
    }
  }

  /** Another open transaction is not disturbed by a commit. */
  lemma BesideCommit(s: State, t: Tx, u: Tx)
    requires TxInv(s, t) && TxInv(s, u) && t.view.Keys !! u.view.Keys
    ensures TxInv(s.(committed := Overlay(s.committed, t.view)), u)
  {
    ReplayDisjoint(s.committed, t.view, u.done);
    assert Overlay(Overlay(s.committed, u.view), t.view) == Overlay(Overlay(s.committed, t.view), u.view);
  }

  lemma InvCommit(start: Table, s: State, tx: nat)
    requires Inv(start, s) && Enabled(s, Commit(tx))
    ensures Inv(start, Do(s, Commit(tx)))
  {
    var t := s.open[tx];
    var s' := Do(s, Commit(tx));
    assert TxInv(s, t);
    ReplayAppend(start, s.log, t.done);
    forall x | x in s'.open ensures TxInv(s', s'.open[x]) {
      BesideCommit(s, t, s.open[x]);
    }
  }

  lemma InvStep(start: Table, s: State, st: Step)
    requires Inv(start, s) && Enabled(s, st)
    ensures Inv(start, Do(s, st))
  {
    match st
    case Statement(tx, id, op) => InvStatement(start, s, tx, id, op);
    case Commit(tx) => InvCommit(start, s, tx);
    case Rollback(tx) =>
      forall x | x in Do(s, st).open ensures TxInv(Do(s, st), Do(s, st).open[x]) {
        assert TxInv(s, s.open[x]);
      }
    case Begin(tx) =>
      var s' := Do(s, st);
      assert Overlay(s.committed, map[]) == s.committed;
      forall x | x in s'.open ensures TxInv(s', s'.open[x]) {
        if x != tx { assert TxInv(s, s.open[x]); }
      }
  }

  ghost predicate IsRun(s: State, steps: seq<Step>)
    decreases |steps|
  {
    steps == [] || (Enabled(s, steps[0]) && IsRun(Do(s, steps[0]), steps[1..]))
  }

  ghost function After(s: State, steps: seq<Step>): State
    requires IsRun(s, steps)
    decreases |steps|
  {
    if steps == [] then s else After(Do(s, steps[0]), steps[1..])
  }

  lemma {:induction false} InvRun(start: Table, s: State, steps: seq<Step>)
    requires Inv(start, s) && IsRun(s, steps)
    ensures Inv(start, After(s, steps))
    decreases |steps|
  {
    if steps != [] {
      InvStep(start, s, steps[0]);
      InvRun(start, Do(s, steps[0]), steps[1..]);
    }
  }

  /** Every row an open transaction has locked is one it has changed. */
  ghost predicate LocksAreTouched(s: State) {
    forall x, id :: x in s.open && id in s.open[x].view ==> Touched(s.open[x], id)
  }

  lemma {:induction false} LocksRun(s: State, steps: seq<Step>)
    requires LocksAreTouched(s) && IsRun(s, steps)
    ensures LocksAreTouched(After(s, steps))
    decreases |steps|
  {
    if steps != [] {
      var st, s' := steps[0], Do(s, steps[0]);
      forall x, id | x in s'.open && id in s'.open[x].view ensures Touched(s'.open[x], id) {
        if x in s.open && id in s.open[x].view {
          assert Touched(s.open[x], id);
          var k :| 0 <= k < |s.open[x].done| && s.open[x].done[k].id == id;
          assert s'.open[x].done[k].id == id;
        } else {
          assert s'.open[x].done[|s.open[x].done|].id == id;
        }
      }
      LocksRun(s', steps[1..]);
    }
  }

  /** In every run a statement waits exactly while another open transaction has changed its row. */
  lemma WaitsExactly(start: Table, steps: seq<Step>, tx: nat, id: RowId)
    requires IsRun(State(start, map[], []), steps)
    ensures var s := After(State(start, map[], []), steps);
            LockedByOther(s, tx, id) <==> exists u :: u in s.open && u != tx && Touched(s.open[u], id)
  {
    var s0 := State(start, map[], []);
    InvRun(start, s0, steps);
    LocksRun(s0, steps);
    var s := After(s0, steps);
    forall u | u in s.open ensures id in s.open[u].view <==> Touched(s.open[u], id) {
      assert TxInv(s, s.open[u]);
    }
  }

  /** Every interleaving is serializable: the committed table is what the committed statements
      give when the transactions run one after another in commit order. */
  lemma Serializable(start: Table, steps: seq<Step>)
    requires IsRun(State(start, map[], []), steps)
    ensures var s := After(State(start, map[], []), steps);
            Replay(start, s.log) == Some(s.committed)
  {
    InvRun(start, State(start, map[], []), steps);
  }

  // ----- What the statements conserve -----

  /** Where the row's quantities start: its last upsert in the log, or its first version. */
  datatype Account = Account(present: bool, base: Item, reserves: int, releases: int, adjusts: int)

  function Open(row: Option<Item>): Account {
    match row
    case None => Account(false, Item(0, 0, 0), 0, 0, 0)
    case Some(item) => Account(true, item, 0, 0, 0)
  }

  /** The totals of the logged quantities on one row since its last upsert. */
  function Tally(row: Option<Item>, log: seq<Entry>, id: RowId): Account {
    if log == [] then Open(row)
    else
      var a := Tally(row, log[..|log| - 1], id);
      var e := log[|log| - 1];
      if e.id != id then a
      else match e.op
        case Reserve(qty) => a.(reserves := a.reserves + qty)
        case Release(qty) => a.(releases := a.releases + qty)
        case Adjust(delta) => a.(adjusts := a.adjusts + delta)
        case Upsert(item) => Open(Some(item))
        case Delete => Open(None)
  }

  lemma {:induction false} ReplayTally(start: Table, log: seq<Entry>, id: RowId)
    requires Replay(start, log).Some?
    ensures var a := Tally(RowOf(start, id), log, id);
            var t := Replay(start, log).value;
            && (id in t <==> a.present)
            && (id in t ==>
                 && t[id].reserved == a.base.reserved + a.reserves - a.releases
                 && t[id].available + t[id].reserved == a.base.available + a.base.reserved + a.adjusts
                 && t[id].incoming == a.base.incoming)
  {
    if log != [] { ReplayTally(start, log[..|log| - 1], id); }
  }

  lemma {:induction false} ReplayNonNegative(start: Table, log: seq<Entry>)
    requires Replay(start, log).Some?
    requires forall id :: id in start ==> NonNegative(start[id])
    requires forall k :: 0 <= k < |log| ==> Guarded(log[k].op)
    ensures forall id :: id in Replay(start, log).value ==> NonNegative(Replay(start, log).value[id])
  {
    if log != [] { ReplayNonNegative(start, log[..|log| - 1]); }
  }

  ghost predicate AllNonNegative(t: Table) {
    forall id :: id in t ==> NonNegative(t[id])
  }

  /** In every interleaving and at every moment the committed quantities and those every open
      transaction sees are non-negative; reserved is its starting value plus the reserves minus
      the releases since the last upsert of the row; and available + reserved has moved only
      by the adjusts since then. */
  lemma StockIsConserved(start: Table, steps: seq<Step>, id: RowId)
    requires AllNonNegative(start)
    requires IsRun(State(start, map[], []), steps)
    ensures var s := After(State(start, map[], []), steps);
            AllNonNegative(s.committed) &&
            forall tx :: tx in s.open ==> AllNonNegative(Overlay(s.committed, s.open[tx].view))
    ensures var s := After(State(start, map[], []), steps);
            var a := Tally(RowOf(start, id), s.log, id);
            && (id in s.committed <==> a.present)
            && (id in s.committed ==>
                 && s.committed[id].reserved == a.base.reserved + a.reserves - a.releases
                 && s.committed[id].available + s.committed[id].reserved
                    == a.base.available + a.base.reserved + a.adjusts)
  {
    var s0 := State(start, map[], []);
    InvRun(start, s0, steps);
    var s := After(s0, steps);
    ReplayNonNegative(start, s.log);
    ReplayTally(start, s.log, id);
    forall tx | tx in s.open ensures AllNonNegative(Overlay(s.committed, s.open[tx].view)) {
      assert TxInv(s, s.open[tx]);
      ReplayNonNegative(s.committed, s.open[tx].done);
    }
  }
}
