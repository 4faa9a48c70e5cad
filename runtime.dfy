/** The mutable state a request works on: the connection pool and PostgreSQL
    behind it (`Database`), and the Express request object (`Request`), of
    which the handlers use `req.pgClient` and `req.user`.

    One request is served at a time. A client checked out of the pool is a
    lease; pg-pool hands out a fresh `release` for every checkout, and calling
    it a second time throws. A transaction is opened with BEGIN on a lease
    and remembers the tables as they were, which ROLLBACK restores; COMMIT
    keeps the writes. Statements outside a transaction take effect at once.
    COMMIT or ROLLBACK with no transaction open on that client only warn. */
module Runtime {
  import opened Basics
  import opened Schema
  import opened Http

  type Lease = nat

  datatype Txn = Txn(owner: Lease, saved: Tables)

  /** `req.user` as set by protectRoute. */
  datatype Identity = Identity(id: UserId, name: string, email: string, role: Role)

  /** How far a handler got with its pool client when it returned. */
  datatype Reach =
    | Unconnected         // it returned before `pool.connect()`
    | Held                // the client is checked out and in `req.pgClient`; no transaction open
    | InTxn               // the same, with the transaction the handler began still open
    | Released            // committed and released; `req.pgClient` still names the client
    | ReleasedUnrecorded  // committed and released; the client was never put in `req.pgClient`
    | InTxnUnrecorded     // failed inside its transaction with a client it never put in `req.pgClient`

  /** The pool, the transaction and `req.pgClient` after a handler that
      started on an idle database, got as far as `reach`, and was handed
      `lease` by `pool.connect()`. A handler that returns before connecting
      leaves `req.pgClient` as it was (`before`). */
  predicate Left(reach: Reach, start: Tables, lease: Lease, before: Option<Lease>,
                 client: Option<Lease>, leased: set<Lease>, txn: Option<Txn>)
  {
    match reach
    case Unconnected => client == before && leased == {} && txn.None?
    case Held => client == Some(lease) && leased == {lease} && txn.None?
    case InTxn => client == Some(lease) && leased == {lease} && txn == Some(Txn(lease, start))
    case Released => client == Some(lease) && leased == {} && txn.None?
    case ReleasedUnrecorded => client == before && leased == {} && txn.None?
    case InTxnUnrecorded => client == before && leased == {lease} && txn == Some(Txn(lease, start))
  }

  /** A handler's effect: the tables it leaves, what it hands to Express,
      and how far it got with its client. */
  datatype Outcome = Outcome(tables: Tables, result: HandlerResult, reach: Reach)

  class Database {
    var tables: Tables
    var nextId: nat
    var txn: Option<Txn>
    var leased: set<Lease>
    var nextLease: nat

    ghost predicate Valid()
      reads this
    {
      && TablesValid(tables, nextId)
      && (txn.Some? ==> TablesValid(txn.value.saved, nextId))
      && (forall l :: l in leased ==> l < nextLease)
    }

    /** Between requests: no client checked out and no transaction open. */
    ghost predicate Idle()
      reads this
    {
      Valid() && txn.None? && leased == {}
    }

    constructor (t: Tables, next: nat)
      requires TablesValid(t, next)
      ensures Idle() && tables == t && nextId == next
    {
      tables := t;
      nextId := next;
      txn := None;
      leased := {};
      nextLease := 0;
    }

    /** `await pool.connect()`. */
    method Connect() returns (l: Lease)
      requires Valid()
      modifies this
      ensures Valid()
      ensures l == old(nextLease) && l !in old(leased)
      ensures leased == old(leased) + {l} && nextLease == l + 1
      ensures tables == old(tables) && nextId == old(nextId) && txn == old(txn)
    {
      l := nextLease;
      leased := leased + {l};
      nextLease := nextLease + 1;
    }

    /** `client.release()`: `ok` is false when this lease was already released,
        which is where pg-pool throws. */
    method Release(l: Lease) returns (ok: bool)
      requires Valid()
      modifies this
      ensures Valid()
      ensures ok == (l in old(leased)) && leased == old(leased) - {l}
      ensures tables == old(tables) && nextId == old(nextId) && txn == old(txn)
      ensures nextLease == old(nextLease)
    {
      ok := l in leased;
      leased := leased - {l};
    }

    /** `client.query("BEGIN")`. */
    method Begin(l: Lease)
      requires Valid()
      modifies this
      ensures Valid()
      ensures txn == if old(txn).None? then Some(Txn(l, old(tables))) else old(txn)
      ensures tables == old(tables) && nextId == old(nextId)
      ensures leased == old(leased) && nextLease == old(nextLease)
    {
      if txn.None? {
        txn := Some(Txn(l, tables));
      }
    }

    /** `client.query("COMMIT")`. */
    method Commit(l: Lease)
      requires Valid()
      modifies this
      ensures Valid()
      ensures txn == if old(txn).Some? && old(txn).value.owner == l then None else old(txn)
      ensures tables == old(tables) && nextId == old(nextId)
      ensures leased == old(leased) && nextLease == old(nextLease)
    {
      if txn.Some? && txn.value.owner == l {
        txn := None;
      }
    }

    /** `client.query("ROLLBACK")`. */
    method Rollback(l: Lease)
      requires Valid()
      modifies this
      ensures Valid()
      ensures old(txn).Some? && old(txn).value.owner == l ==> txn.None? && tables == old(txn).value.saved
      ensures !(old(txn).Some? && old(txn).value.owner == l) ==> txn == old(txn) && tables == old(tables)
      ensures nextId == old(nextId) && leased == old(leased) && nextLease == old(nextLease)
    {
      if txn.Some? && txn.value.owner == l {
        tables := txn.value.saved;
        txn := None;
      }
    }

    /** The effect of an INSERT, UPDATE or DELETE: the new contents of the
        tables, which the constraints admit. */
    method Store(t: Tables)
      requires Valid() && TablesValid(t, nextId)
      modifies this
      ensures Valid() && tables == t
      ensures nextId == old(nextId) && txn == old(txn)
      ensures leased == old(leased) && nextLease == old(nextLease)
    {
      tables := t;
    }

    /** The id the database gives the next inserted row. */
    method FreshId() returns (id: nat)
      requires Valid()
      modifies this
      ensures Valid()
      ensures id == old(nextId) && nextId == id + 1
      ensures forall k :: k in tables.users || k in tables.posts || k in tables.comments ==> k < id
      ensures tables == old(tables) && txn == old(txn)
      ensures leased == old(leased) && nextLease == old(nextLease)
    {
      id := nextId;
      nextId := nextId + 1;
    }
  }

  /** The Express `req` fields the handlers assign. */
  class Request {
    var pgClient: Option<Lease>
    var user: Option<Identity>

    constructor ()
      ensures pgClient.None? && user.None?
    {
      pgClient := None;
      user := None;
    }
  }
}
