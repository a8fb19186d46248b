/** The credit ledger: the `users` table (one row per Discord user id) and the
    `Person` object through which every command reads and writes its own row.
    A `Person` looks its row up once, when it is constructed, and that cached answer
    decides whether the setters write or give up. */
module Ledger {

  /** One row of the `users` table. The `last_online` column is not modelled. */
  datatype Row = Row(credits: int, premium: bool, serverStatus: bool, stopServer: bool)

  /** The row `Person.init` inserts. */
  function NewRow(amount: int, premium: bool): Row
  {
    Row(amount, premium, false, false)
  }

  /** The `users` table, keyed by the `id` primary key. */
  class Table {
    var rows: map<int, Row>

    constructor (rows: map<int, Row>)
      ensures this.rows == rows
    {
      this.rows := rows;
    }
  }

  /** What `get_credits` answers for `id`: the stored credits, 0 for an unknown id. */
  function CreditsOf(rows: map<int, Row>, id: int): int
  {
    if id in rows then rows[id].credits else 0
  }

  /** What `stop_server` answers for a freshly constructed `Person` of `id`. */
  function StopOf(rows: map<int, Row>, id: int): bool
  {
    id in rows && rows[id].stopServer
  }

  /** What `has_server` answers for a freshly constructed `Person` of `id`. */
  function HasServerOf(rows: map<int, Row>, id: int): bool
  {
    id in rows && rows[id].serverStatus
  }

  /** What a freshly constructed `Person` of `id` caches as `premium`. */
  function PremiumOf(rows: map<int, Row>, id: int): bool
  {
    id in rows && rows[id].premium
  }

  /** Writing a row twice leaves the second write. */
  lemma Overwrite(m: map<int, Row>, id: int, a: Row, b: Row)
    ensures m[id := a][id := b] == m[id := b]
  {
  }

  /** No balance in the table is negative. */
  ghost predicate NonNegative(rows: map<int, Row>)
  {
    forall id :: id in rows ==> rows[id].credits >= 0
  }

  class Person {
    const db: Table
    const userId: int
    /** Whether the row existed when this object was constructed (`self.exists`). */
    const existed: bool
    var premium: bool

    /** Rows are never deleted by the modelled operations, so a row seen at
        construction is still there. */
    ghost predicate Valid()
      reads db
    {
      existed ==> userId in db.rows
    }

    constructor (db: Table, userId: int)
      ensures this.db == db && this.userId == userId
      ensures existed == (userId in db.rows)
      ensures premium == PremiumOf(db.rows, userId)
      ensures Valid()
    {
      this.db := db;
      this.userId := userId;
      existed := userId in db.rows;
      premium := PremiumOf(db.rows, userId);
    }

    /** `init`: inserts a fresh row; the insert fails, changing nothing, when the id
        is already taken (the PRIMARY KEY constraint). */
    method Init(amount: int, isPremium: bool) returns (ok: bool)
      modifies db
      ensures ok == (userId !in old(db.rows))
      ensures db.rows == if ok then old(db.rows)[userId := NewRow(amount, isPremium)] else old(db.rows)
    {
      ok := userId !in db.rows;
      if ok {
        db.rows := db.rows[userId := NewRow(amount, isPremium)];
      }
    }

    /** `get_credits`: reads the table afresh, whatever `existed` says. */
    function GetCredits(): (c: int)
      reads db
      ensures userId !in db.rows ==> c == 0
    {
      CreditsOf(db.rows, userId)
    }

    /** `update_credits`: adds `amount` to an existing row; otherwise tries to insert a
        row holding `amount`. */
    method UpdateCredits(amount: int) returns (ok: bool)
      requires Valid()
      modifies db
      ensures Valid()
      ensures existed ==> ok && db.rows == old(db.rows)[userId := old(db.rows)[userId].(credits := old(db.rows)[userId].credits + amount)]
      ensures !existed ==> ok == (userId !in old(db.rows))
      ensures !existed ==> db.rows == if ok then old(db.rows)[userId := NewRow(amount, false)] else old(db.rows)
    {
      if existed {
        var row := db.rows[userId];
        db.rows := db.rows[userId := row.(credits := row.credits + amount)];
        ok := true;
      } else {
        ok := Init(amount, false);
      }
    }

    /** `set_server_status`: writes only when the row existed at construction. */
    method SetServerStatus(status: bool) returns (ok: bool)
      requires Valid()
      modifies db
      ensures Valid()
      ensures ok == existed
      ensures db.rows == if existed then old(db.rows)[userId := old(db.rows)[userId].(serverStatus := status)] else old(db.rows)
    {
      if existed {
        db.rows := db.rows[userId := db.rows[userId].(serverStatus := status)];
        ok := true;
      } else {
        ok := false;
      }
    }

    /** `has_server`: False without reading when the row did not exist at construction. */
    function HasServer(): (b: bool)
      requires Valid()
      reads db
      ensures !existed ==> !b
    {
      existed && db.rows[userId].serverStatus
    }

    /** `set_stop_server`: writes only when the row existed at construction. */
    method SetStopServer(status: bool) returns (ok: bool)
      requires Valid()
      modifies db
      ensures Valid()
      ensures ok == existed
      ensures db.rows == if existed then old(db.rows)[userId := old(db.rows)[userId].(stopServer := status)] else old(db.rows)
    {
      if existed {
        db.rows := db.rows[userId := db.rows[userId].(stopServer := status)];
        ok := true;
      } else {
        ok := false;
      }
    }

    /** `stop_server`: False without reading when the row did not exist at construction. */
    function StopServer(): (b: bool)
      requires Valid()
      reads db
      ensures !existed ==> !b
    {
      existed && db.rows[userId].stopServer
    }

    /** `set_premium`: updates an existing row, otherwise inserts a row with 0 credits;
        the cached `premium` takes the new value in both cases. */
    method SetPremium(status: bool) returns (ok: bool)
      requires Valid()
      modifies this, db
      ensures Valid()
      ensures premium == status
      ensures existed ==> ok && db.rows == old(db.rows)[userId := old(db.rows)[userId].(premium := status)]
      ensures !existed ==> ok == (userId !in old(db.rows))
      ensures !existed ==> db.rows == if ok then old(db.rows)[userId := NewRow(0, status)] else old(db.rows)
    {
      if existed {
        db.rows := db.rows[userId := db.rows[userId].(premium := status)];
        ok := true;
      } else {
        ok := Init(0, status);
      }
      premium := status;
    }
  }
}
