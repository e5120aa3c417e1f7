/** Reading a backend cursor, whole or up to a row cap. */
module Adapters {
  import opened Models

  const FETCH_CHUNK_SIZE := 1_000

  /** What the backend answers to one statement. */
  datatype Reply =
    | Fails                                                   // the backend raises
    | NoRows(affected: int)                                   // no description: not a row-producing statement
    | Answers(columns: seq<string>, columnTypes: seq<string>, rows: seq<Row>)

  datatype Fetched = BackendError | CapExceeded | Fetched(result: LogicalResult)

  /** What reading the whole answer gives, and when a row cap refuses it. */
  function Fetch(reply: Reply, rowCap: Option<nat>): Fetched {
    match reply
    case Fails => BackendError
    case NoRows(affected) => Fetched.Fetched(LogicalResult([], [], affected, None))
    case Answers(columns, types, rows) =>
      if rowCap.Some? && |rows| > rowCap.value then CapExceeded
      else Fetched.Fetched(LogicalResult(columns, rows, |rows|, Some(types)))
  }

  /** A capped read refuses exactly the answers with more rows than the cap, and gives every other answer whole. */
  lemma CapRefusesOrAgrees(columns: seq<string>, types: seq<string>, rows: seq<Row>, cap: nat)
    ensures var reply := Answers(columns, types, rows);
            && (Fetch(reply, Some(cap)) == CapExceeded <==> |rows| > cap)
            && (|rows| <= cap ==> Fetch(reply, Some(cap)) == Fetch(reply, None))
            && Fetch(reply, None) == Fetched.Fetched(LogicalResult(columns, rows, |rows|, Some(types)))
  {
  }

  /** A PEP 249 cursor: `fetchmany` may return fewer rows than asked for, but returns none only at the end. */
  class Cursor {
    const reply: Reply
    var unread: seq<Row>

    constructor (reply: Reply)
      requires !reply.Fails?
      ensures this.reply == reply && unread == if reply.Answers? then reply.rows else []
    {
      this.reply := reply;
      this.unread := if reply.Answers? then reply.rows else [];
    }

    method FetchAll() returns (rows: seq<Row>)
      modifies this
      ensures rows == old(unread) && unread == []
    {
      rows := unread;
      unread := [];
    }

    method FetchMany(size: nat) returns (batch: seq<Row>)
      modifies this
      ensures |batch| <= size && old(unread) == batch + unread
      ensures batch == [] ==> size == 0 || unread == []
    {
      var n :| 0 <= n <= size && n <= |unread| && (n == 0 ==> size == 0 || |unread| == 0) by {
        assert (if size == 0 || |unread| == 0 then 0 else 1) <= |unread|;
      }
      batch := unread[..n];
      unread := unread[n..];
    }
  }

  /** The capped loop agrees with the full read: it refuses exactly the answers with more rows than the cap,
      having consumed one row more than the cap, and otherwise returns what the full read returns. */
  method Materialize(cursor: Cursor, rowCap: Option<nat>) returns (fetched: Fetched)
    requires !cursor.reply.Fails?
    requires cursor.unread == if cursor.reply.Answers? then cursor.reply.rows else []
    modifies cursor
    ensures fetched == Fetch(cursor.reply, rowCap)
    ensures fetched == CapExceeded <==> cursor.reply.Answers? && rowCap.Some? && |cursor.reply.rows| > rowCap.value
    ensures fetched != CapExceeded ==>
      fetched == Fetched.Fetched(
        if cursor.reply.NoRows? then LogicalResult([], [], cursor.reply.affected, None)
        else LogicalResult(cursor.reply.columns, cursor.reply.rows, |cursor.reply.rows|, Some(cursor.reply.columnTypes)))
    ensures cursor.reply.Answers? ==>
      cursor.unread == if fetched == CapExceeded then cursor.reply.rows[rowCap.value + 1..] else []
  {
    if cursor.reply.NoRows? {
      return Fetched.Fetched(LogicalResult([], [], cursor.reply.affected, None));
    }
    var columns, types := cursor.reply.columns, Some(cursor.reply.columnTypes);
    ghost var all := cursor.unread;
    if rowCap == None {
      var everything := cursor.FetchAll();
      return Fetched.Fetched(LogicalResult(columns, everything, |everything|, types));
    }
    var cap := rowCap.value;
    var rows: seq<Row> := [];
    while |rows| <= cap
      invariant all == rows + cursor.unread && |rows| <= cap
      decreases cap + 1 - |rows|
    {
      var amount := if FETCH_CHUNK_SIZE <= cap + 1 - |rows| then FETCH_CHUNK_SIZE else cap + 1 - |rows|;
      var batch := cursor.FetchMany(amount);
      rows := rows + batch;
      if |rows| > cap {
        assert cursor.unread == all[cap + 1..];
        return CapExceeded;
      }
      if batch == [] {
        break;
      }
    }
    return Fetched.Fetched(LogicalResult(columns, rows, |rows|, types));
  }
}
