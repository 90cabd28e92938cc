/** The subscriptions table and the repository over it: an in-memory model of
    the SQL statements the repository issues, one method per statement. */
module Store {
  import opened Wrappers
  import opened Times
  import opened Entity
  import CostQuery

  /** The repository operation an error comes from. */
  datatype Operation = CreateOp | GetByIdOp | UpdateOp | DeleteOp | GetAllOp | TotalCostOp | BeginOp

  /** A repository error: the bare sql.ErrNoRows, or any other database
      failure wrapped with the operation it interrupted. */
  datatype StoreError = NoRows | Failed(op: Operation)

  /** The state of the database connection, which decides how the next
      statement fares: it runs; it fails; or it runs but the driver cannot
      report how many rows it affected. */
  datatype Conn = Healthy | Offline | RowCountUnsupported

  /** How a transaction ended. */
  datatype TxEnd = Committed | CommitFailed | RolledBack

  /** The rows with ids from 1 to below - 1, in id order. */
  function RowsInIdOrder(rows: map<int, Subscription>, below: int): seq<Subscription>
    decreases below
  {
    if below <= 1 then []
    else RowsInIdOrder(rows, below - 1) + (if below - 1 in rows then [rows[below - 1]] else [])
  }

  /** RowsInIdOrder holds each row with an id below `below` exactly once. */
  lemma {:induction false} RowsInIdOrderEnumerates(rows: map<int, Subscription>, below: int)
    requires forall id | id in rows :: rows[id].id == id
    ensures forall x | x in RowsInIdOrder(rows, below) :: 1 <= x.id < below && x.id in rows && rows[x.id] == x
    ensures forall id | 1 <= id < below && id in rows :: rows[id] in RowsInIdOrder(rows, below)
    ensures forall i, j | 0 <= i < j < |RowsInIdOrder(rows, below)| ::
      RowsInIdOrder(rows, below)[i].id < RowsInIdOrder(rows, below)[j].id
    decreases below
  {
    if below > 1 {
      RowsInIdOrderEnumerates(rows, below - 1);
      var prev := RowsInIdOrder(rows, below - 1);
      assert RowsInIdOrder(rows, below) == prev + (if below - 1 in rows then [rows[below - 1]] else []);
    }
  }

  /** `out` is a listing of the rows matching the filters: exactly those rows,
      each once, newest id first, and so by created_at descending. */
  ghost predicate Listing(out: seq<Subscription>, rows: map<int, Subscription>, userId: Option<Uuid>, serviceName: Option<string>) {
    && (forall i | 0 <= i < |out| :: out[i].id in rows && rows[out[i].id] == out[i] && Matches(userId, serviceName, out[i]))
    && (forall id | id in rows && Matches(userId, serviceName, rows[id]) :: rows[id] in out)
    && (forall i, j | 0 <= i < j < |out| :: out[j].id < out[i].id)
    && (forall i, j | 0 <= i < j < |out| :: !Before(out[i].createdAt, out[j].createdAt))
  }

  /** Two sequences, each strictly descending by id, with the same elements
      are the same sequence. */
  lemma {:induction false} DescendingByIdUnique(a: seq<Subscription>, b: seq<Subscription>)
    requires forall i, j | 0 <= i < j < |a| :: a[j].id < a[i].id
    requires forall i, j | 0 <= i < j < |b| :: b[j].id < b[i].id
    requires forall x :: x in a <==> x in b
    ensures a == b
    decreases |a|
  {
    if a == [] {
      assert forall j | 0 <= j < |b| :: b[j] !in a;
    } else {
      assert a[0] in b;
      var k :| 0 <= k < |b| && b[k] == a[0];
      assert b[0] in a;
      var m :| 0 <= m < |a| && a[m] == b[0];
      assert a[m].id <= a[0].id;
      assert k == 0;
      forall x
        ensures x in a[1..] <==> x in b[1..]
      {
        if x in a[1..] {
          var i :| 1 <= i < |a| && a[i] == x;
          assert x != a[0] by { assert a[i].id < a[0].id; }
          assert x in b;
          var j :| 0 <= j < |b| && b[j] == x;
          assert j != 0;
          assert b[1..][j - 1] == x;
        }
        if x in b[1..] {
          var j :| 1 <= j < |b| && b[j] == x;
          assert x != b[0] by { assert b[j].id < b[0].id; }
          assert x in a;
          var i :| 0 <= i < |a| && a[i] == x;
          assert i != 0;
          assert a[1..][i - 1] == x;
        }
      }
      DescendingByIdUnique(a[1..], b[1..]);
      assert a == [a[0]] + a[1..] && b == [b[0]] + b[1..];
    }
  }

  /** The listing of a table under given filters is unique: GetAll's result
      is fully determined by the rows. */
  lemma ListingUnique(a: seq<Subscription>, b: seq<Subscription>, rows: map<int, Subscription>, userId: Option<Uuid>, serviceName: Option<string>)
    requires Listing(a, rows, userId, serviceName) && Listing(b, rows, userId, serviceName)
    ensures a == b
  {
    forall x
      ensures x in a <==> x in b
    {
      if x in a {
        var i :| 0 <= i < |a| && a[i] == x;
        assert rows[x.id] in b;
      }
      if x in b {
        var j :| 0 <= j < |b| && b[j] == x;
        assert rows[x.id] in a;
      }
    }
    DescendingByIdUnique(a, b);
  }

  /** The subscriptions table. The id serial hands out nextId next, and the
      clock is the latest now() the table has stamped a row with. */
  class Table {
    var rows: map<int, Subscription>
    var nextId: int
    var clock: Instant
    var conn: Conn

    /** Every row sits under its own id, which the serial has handed out; no
        row was stamped after the clock; and a later id was never created
        earlier. */
    ghost predicate Valid()
      reads this
    {
      && 1 <= nextId
      && (forall id | id in rows :: 1 <= id < nextId && rows[id].id == id && !Before(clock, rows[id].createdAt))
      && (forall i, j | i in rows && j in rows && i < j :: !Before(rows[j].createdAt, rows[i].createdAt))
    }

    constructor (start: Instant)
      ensures Valid()
      ensures rows == map[] && nextId == 1 && clock == start && conn == Healthy
    {
      rows := map[];
      nextId := 1;
      clock := start;
      conn := Healthy;
    }

    /** The rows of the table, in id order. */
    function Rows(): seq<Subscription>
      reads this
    {
      RowsInIdOrder(rows, nextId)
    }

    /** The environment changes the state of the connection. */
    method SetConn(c: Conn)
      requires Valid()
      modifies this`conn
      ensures Valid() && conn == c
    {
      conn := c;
    }

    /** INSERT ... RETURNING id, created_at, updated_at: the row is stored under
        a fresh id and stamped with `now`, the database's now(). */
    method Create(sub: Subscription, now: Instant) returns (r: Result<Subscription, StoreError>)
      requires Valid() && !Before(now, clock)
      modifies this
      ensures Valid() && conn == old(conn)
      ensures old(conn) == Offline ==>
        r == Err(Failed(CreateOp)) && rows == old(rows) && nextId == old(nextId) && clock == old(clock)
      ensures old(conn) != Offline ==>
        && r == Ok(sub.(id := old(nextId), createdAt := now, updatedAt := now))
        && 1 <= r.value.id && r.value.id !in old(rows)
        && rows == old(rows)[r.value.id := r.value]
        && nextId == old(nextId) + 1 && clock == now
    {
      if conn == Offline {
        return Err(Failed(CreateOp));
      }
      var created := sub.(id := nextId, createdAt := now, updatedAt := now);
      rows := rows[nextId := created];
      nextId := nextId + 1;
      clock := now;
      r := Ok(created);
    }

    /** SELECT ... WHERE id = $1: the stored row, or the bare sql.ErrNoRows. */
    method GetById(id: int) returns (r: Result<Subscription, StoreError>)
      ensures conn == Offline ==> r == Err(Failed(GetByIdOp))
      ensures conn != Offline && id in rows ==> r == Ok(rows[id])
      ensures conn != Offline && id !in rows ==> r == Err(NoRows)
    {
      if conn == Offline {
        r := Err(Failed(GetByIdOp));
      } else if id in rows {
        r := Ok(rows[id]);
      } else {
        r := Err(NoRows);
      }
    }

    /** UPDATE ... SET service_name, price, user_id, start_date, end_date,
        updated_at = now() WHERE id = $6 RETURNING *: the id and created_at of
        the stored row are kept, the five columns overwritten. */
    method Update(sub: Subscription, now: Instant) returns (r: Result<Subscription, StoreError>)
      requires Valid() && !Before(now, clock)
      modifies this
      ensures Valid() && conn == old(conn) && nextId == old(nextId)
      ensures old(conn) == Offline ==>
        r == Err(Failed(UpdateOp)) && rows == old(rows) && clock == old(clock)
      ensures old(conn) != Offline && sub.id !in old(rows) ==>
        r == Err(NoRows) && rows == old(rows) && clock == old(clock)
      ensures old(conn) != Offline && sub.id in old(rows) ==>
        && r == Ok(sub.(createdAt := old(rows)[sub.id].createdAt, updatedAt := now))
        && rows == old(rows)[sub.id := r.value] && clock == now
    {
      if conn == Offline {
        return Err(Failed(UpdateOp));
      }
      if sub.id !in rows {
        return Err(NoRows);
      }
      var updated := sub.(createdAt := rows[sub.id].createdAt, updatedAt := now);
      rows := rows[sub.id := updated];
      clock := now;
      r := Ok(updated);
    }

    /** DELETE ... WHERE id = $1. No affected row is reported as the bare
        sql.ErrNoRows, unless the driver cannot count affected rows: then
        the result is success whatever happened. */
    method Delete(id: int) returns (err: Option<StoreError>)
      requires Valid()
      modifies this`rows
      ensures Valid()
      ensures conn == Offline ==> err == Some(Failed(DeleteOp)) && rows == old(rows)
      ensures conn != Offline ==> rows == old(rows) - {id}
      ensures conn == Healthy ==> err == (if id in old(rows) then None else Some(NoRows))
      ensures conn == RowCountUnsupported ==> err == None
    {
      if conn == Offline {
        return Some(Failed(DeleteOp));
      }
      var affected := if id in rows then 1 else 0;
      rows := rows - {id};
      if conn == RowCountUnsupported {
        return None;
      }
      err := if affected == 0 then Some(NoRows) else None;
    }

    /** SELECT ... WHERE filters ORDER BY created_at DESC, read row by row. The
        cursor visits the ids from the newest down. */
    method GetAll(filter: ListFilter) returns (r: Result<seq<Subscription>, StoreError>)
      requires Valid()
      ensures conn == Offline ==> r == Err(Failed(GetAllOp))
      ensures conn != Offline ==> r.Ok? && Listing(r.value, rows, filter.userId, filter.serviceName)
    {
      if conn == Offline {
        return Err(Failed(GetAllOp));
      }
      var out: seq<Subscription> := [];
      var id := nextId - 1;
      while 1 <= id
        invariant 0 <= id < nextId
        invariant forall i | 0 <= i < |out| ::
          id < out[i].id < nextId && out[i].id in rows && rows[out[i].id] == out[i]
          && Matches(filter.userId, filter.serviceName, out[i])
        invariant forall k | id < k && k in rows && Matches(filter.userId, filter.serviceName, rows[k]) :: rows[k] in out
        invariant forall i, j | 0 <= i < j < |out| :: out[j].id < out[i].id
        decreases id
      {
        if id in rows && Matches(filter.userId, filter.serviceName, rows[id]) {
          out := out + [rows[id]];
        }
        id := id - 1;
      }
      forall i, j | 0 <= i < j < |out|
        ensures !Before(out[i].createdAt, out[j].createdAt)
      {
        assert out[j].id in rows && out[i].id in rows && out[j].id < out[i].id;
      }
      r := Ok(out);
    }

    /** The aggregate sums over Rows(): every row of the table, each once. */
    lemma RowsCoverTable()
      requires Valid()
      ensures forall id | id in rows :: rows[id] in Rows()
      ensures forall x | x in Rows() :: x.id in rows && rows[x.id] == x
      ensures forall i, j | 0 <= i < j < |Rows()| :: Rows()[i].id < Rows()[j].id
    {
      RowsInIdOrderEnumerates(rows, nextId);
    }

    /** The total-cost aggregate over the table. */
    method GetTotalCost(filter: CostFilter) returns (r: Result<int, StoreError>)
      ensures conn == Offline ==> r == Err(Failed(TotalCostOp))
      ensures conn != Offline ==> r == Ok(CostQuery.TotalCost(Rows(), filter))
    {
      if conn == Offline {
        return Err(Failed(TotalCostOp));
      }
      r := Ok(CostQuery.TotalCost(Rows(), filter));
    }

    /** The opening half of WithTx: BeginTx fails only when the connection
        does, and then the body never runs. */
    method BeginTx() returns (err: Option<StoreError>)
      ensures err == (if conn == Offline then Some(Failed(BeginOp)) else None)
    {
      err := if conn == Offline then Some(Failed(BeginOp)) else None;
    }

    /** The deferred closing half of WithTx, given the body's error: roll back
        when the body failed, commit otherwise. The body's error is returned
        as it is, so a failed commit goes unreported. The repository's
        statements never run on the transaction, so neither outcome touches
        the rows. */
    method EndTx<E>(fnErr: Option<E>) returns (err: Option<E>, end: TxEnd)
      ensures err == fnErr
      ensures end == (if fnErr.Some? then RolledBack else if conn == Offline then CommitFailed else Committed)
    {
      err := fnErr;
      if fnErr.Some? {
        end := RolledBack;
      } else if conn == Offline {
        end := CommitFailed;
      } else {
        end := Committed;
      }
    }
  }
}
