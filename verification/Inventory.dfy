/** inventory_items rows and the four guarded UPDATE statements on them, first as functions on
    a table, then as the repository's methods inside one SQL transaction. */
module Inventory {
  import opened Common

  /** inventory_items is unique in (variant_id, location_id). */
  datatype RowId = RowId(variant: int, location: int)

  datatype Item = Item(available: int, reserved: int, incoming: int)

  datatype Error = ItemNotFound | InsufficientStock | InvalidQuantity | LocationNotFound

  type Table = map<RowId, Item>

  datatype Op =
    | Reserve(qty: int)
    | Release(qty: int)
    | Adjust(delta: int)
    | Upsert(item: Item)
    | Delete

  /** One statement on one row: the row it leaves, or the error it reports. */
  function Exec(row: Option<Item>, op: Op): Result<Option<Item>, Error> {
    match op
    case Reserve(qty) =>
      if row.None? then Err(ItemNotFound)
      else if row.value.available < qty then Err(InsufficientStock)
      else Ok(Some(row.value.(available := row.value.available - qty, reserved := row.value.reserved + qty)))
    case Release(qty) =>
      if row.None? || row.value.reserved < qty then Err(ItemNotFound)
      else Ok(Some(row.value.(reserved := row.value.reserved - qty, available := row.value.available + qty)))
    case Adjust(delta) =>
      if row.None? then Err(ItemNotFound)
      else if row.value.available + delta < 0 then Err(InsufficientStock)
      else Ok(Some(row.value.(available := row.value.available + delta)))
    case Upsert(item) => Ok(Some(item))
    case Delete => if row.None? then Err(ItemNotFound) else Ok(None)
  }

  function RowOf(t: Table, id: RowId): Option<Item> {
    if id in t then Some(t[id]) else None
  }

  function Put(t: Table, id: RowId, row: Option<Item>): Table {
    if row.Some? then t[id := row.value] else t - {id}
  }

  /** The argument checks of the catalogue service in front of each statement. */
  predicate Guarded(op: Op) {
    match op
    case Reserve(qty) => qty > 0
    case Release(qty) => qty > 0
    case Upsert(item) => NonNegative(item)
    case _ => true
  }

  predicate NonNegative(item: Item) {
    item.available >= 0 && item.reserved >= 0 && item.incoming >= 0
  }

  /** A call that ran one statement on one row and nothing else. */
  ghost predicate RanStatement(t: Table, id: RowId, op: Op, r: Result<(), Error>, t': Table) {
    match Exec(RowOf(t, id), op)
    case Ok(row) => r == Ok(()) && t' == Put(t, id, row)
    case Err(e) => r == Err(e) && t' == t
  }

  /** The rows one transaction sees and changes. */
  class InventoryTx {
    var rows: Table

    constructor (rows: Table)
      ensures this.rows == rows
    {
      this.rows := rows;
    }

    method Reserve(id: RowId, qty: int) returns (r: Result<(), Error>)
      modifies this
      ensures RanStatement(old(rows), id, Op.Reserve(qty), r, rows)
      ensures r.Ok? <==> id in old(rows) && qty <= old(rows)[id].available
      ensures r.Err? ==> r.error == (if id !in old(rows) then ItemNotFound else InsufficientStock)
      ensures rows == if r.Err? then old(rows) else
        var row := old(rows)[id];
        old(rows)[id := Item(row.available - qty, row.reserved + qty, row.incoming)]
    {
      if id in rows && rows[id].available >= qty {
        rows := rows[id := rows[id].(available := rows[id].available - qty, reserved := rows[id].reserved + qty)];
        return Ok(());
      }
      if id !in rows { return Err(ItemNotFound); }
      return Err(InsufficientStock);
    }

    method Release(id: RowId, qty: int) returns (r: Result<(), Error>)
      modifies this
      ensures RanStatement(old(rows), id, Op.Release(qty), r, rows)
      ensures r.Ok? <==> id in old(rows) && qty <= old(rows)[id].reserved
      ensures r.Err? ==> r.error == ItemNotFound
      ensures rows == if r.Err? then old(rows) else
        var row := old(rows)[id];
        old(rows)[id := Item(row.available + qty, row.reserved - qty, row.incoming)]
    {
      if id in rows && rows[id].reserved >= qty {
        rows := rows[id := rows[id].(reserved := rows[id].reserved - qty, available := rows[id].available + qty)];
        return Ok(());
      }
      return Err(ItemNotFound);
    }

    method AdjustAvailable(id: RowId, delta: int) returns (r: Result<(), Error>)
      modifies this
      ensures RanStatement(old(rows), id, Op.Adjust(delta), r, rows)
      ensures r.Ok? <==> id in old(rows) && 0 <= old(rows)[id].available + delta
      ensures r.Err? ==> r.error == (if id !in old(rows) then ItemNotFound else InsufficientStock)
      ensures rows == if r.Err? then old(rows) else
        var row := old(rows)[id];
        old(rows)[id := Item(row.available + delta, row.reserved, row.incoming)]
    {
      if id in rows && rows[id].available + delta >= 0 {
        rows := rows[id := rows[id].(available := rows[id].available + delta)];
        return Ok(());
      }
      if id !in rows { return Err(ItemNotFound); }
      return Err(InsufficientStock);
    }

    method DeleteItem(id: RowId) returns (r: Result<(), Error>)
      modifies this
      ensures RanStatement(old(rows), id, Op.Delete, r, rows)
      ensures r == if id in old(rows) then Ok(()) else Err(ItemNotFound)
      ensures rows == old(rows) - {id}
    {
      if id !in rows {
        assert rows - {id} == rows;
        return Err(ItemNotFound);
      }
      rows := rows - {id};
      return Ok(());
    }

    method UpsertItem(id: RowId, item: Item)
      modifies this
      ensures RanStatement(old(rows), id, Op.Upsert(item), Ok(()), rows)
      ensures rows == old(rows)[id := item]
    {
      rows := rows[id := item];
    }
  }

  /** The catalogue service's stock calls, each its own committed transaction. */
  class CatalogStock {
    var tx: InventoryTx

    constructor (tx: InventoryTx)
      ensures this.tx == tx
    {
      this.tx := tx;
    }

    /** The statement runs exactly when its arguments pass the service's checks. */
    ghost predicate Served(t: Table, id: RowId, op: Op, r: Result<(), Error>, t': Table) {
      if Guarded(op) then RanStatement(t, id, op, r, t') else r == Err(InvalidQuantity) && t' == t
    }

    method ReserveStock(id: RowId, qty: int) returns (r: Result<(), Error>)
      modifies tx
      ensures Served(old(tx.rows), id, Op.Reserve(qty), r, tx.rows)
      ensures r == Err(InvalidQuantity) <==> qty <= 0
      ensures r.Ok? <==> 0 < qty && id in old(tx.rows) && qty <= old(tx.rows)[id].available
    {
      if qty <= 0 { return Err(InvalidQuantity); }
      r := tx.Reserve(id, qty);
    }

    method ReleaseStock(id: RowId, qty: int) returns (r: Result<(), Error>)
      modifies tx
      ensures Served(old(tx.rows), id, Op.Release(qty), r, tx.rows)
      ensures r == Err(InvalidQuantity) <==> qty <= 0
      ensures r.Ok? <==> 0 < qty && id in old(tx.rows) && qty <= old(tx.rows)[id].reserved
    {
      if qty <= 0 { return Err(InvalidQuantity); }
      r := tx.Release(id, qty);
    }

    method AdjustAvailableStock(id: RowId, delta: int) returns (r: Result<(), Error>)
      modifies tx
      ensures Served(old(tx.rows), id, Op.Adjust(delta), r, tx.rows)
      ensures r.Ok? <==> id in old(tx.rows) && 0 <= old(tx.rows)[id].available + delta
    {
      if id !in tx.rows { return Err(ItemNotFound); }
      r := tx.AdjustAvailable(id, delta);
    }

    /** `locations` are the ids the location repository finds. */
    method UpsertInventoryItem(id: RowId, item: Item, locations: set<int>) returns (r: Result<(), Error>)
      modifies tx
      ensures r == Err(InvalidQuantity) <==> item.available < 0 || item.reserved < 0 || item.incoming < 0
      ensures r == Err(LocationNotFound) <==> NonNegative(item) && id.location !in locations
      ensures r.Ok? <==> NonNegative(item) && id.location in locations
      ensures tx.rows == if r.Ok? then old(tx.rows)[id := item] else old(tx.rows)
    {
      if item.available < 0 || item.reserved < 0 || item.incoming < 0 { return Err(InvalidQuantity); }
      if id.location !in locations { return Err(LocationNotFound); }
      tx.UpsertItem(id, item);
      return Ok(());
    }
  }
}
