/**
 * The versioned store behind the controller: the Loans table with its
 * identity column and its `rowversion` column. Every write stamps the row it
 * touches with the next value of a store-wide counter, so a row's version
 * changes on every committed write. An update is a compare-and-swap on that
 * version, which is how a save of a tracked entity behaves when the entity
 * carries a `[Timestamp]` token.
 */
module LoanStores {
  import opened Options
  import opened LoanEntity

  /** Some entry of `ls` has id `k`. */
  ghost predicate ListsId(ls: seq<Loan>, k: int) {
    exists i :: 0 <= i < |ls| && ls[i].id == k
  }

  /** Every row of `rows` whose id is below `bound` appears in `ls`. */
  ghost predicate CoversBelow(ls: seq<Loan>, rows: map<int, Loan>, bound: int) {
    forall k :: k in rows && k < bound ==> ListsId(ls, k)
  }

  /** `ls` lists every row of `rows` exactly once, in some order. */
  ghost predicate Enumerates(ls: seq<Loan>, rows: map<int, Loan>) {
    && (forall i :: 0 <= i < |ls| ==> ls[i].id in rows && rows[ls[i].id] == ls[i])
    && (forall i, j :: 0 <= i < j < |ls| ==> ls[i].id != ls[j].id)
    && (forall id :: id in rows ==> ListsId(ls, id))
  }

  /** Appending the row with id `id` extends the covered range past `id`. */
  lemma CoverNext(ls: seq<Loan>, rows: map<int, Loan>, id: int)
    requires CoversBelow(ls, rows, id)
    requires id in rows ==> |ls| > 0 && ls[|ls| - 1].id == id
    ensures CoversBelow(ls, rows, id + 1)
  {
  }

  lemma CoverAppend(ls: seq<Loan>, x: Loan, rows: map<int, Loan>, bound: int)
    requires CoversBelow(ls, rows, bound)
    ensures CoversBelow(ls + [x], rows, bound)
  {
    forall k | k in rows && k < bound ensures ListsId(ls + [x], k) {
      var i :| 0 <= i < |ls| && ls[i].id == k;
      assert (ls + [x])[i] == ls[i];
    }
  }

  class LoanStore {
    /** The rows, keyed by their id. */
    var rows: map<int, Loan>
    /** The last value the identity column handed out. */
    var lastId: int
    /** The last row version the store stamped. */
    var lastVersion: nat
    /** The content each version stamp was written with. */
    ghost var history: map<nat, Loan>

    /** `l` is a row state this store once held, under the version it carries. */
    ghost predicate Issued(l: Loan)
      reads this
    {
      l.rowVersion in history && history[l.rowVersion] == l
    }

    ghost predicate Valid()
      reads this
    {
      && lastId >= 0
      && (forall id :: id in rows ==> 0 < id <= lastId && rows[id].id == id)
      && (forall id :: id in rows ==> 0 < rows[id].rowVersion && Issued(rows[id]))
      && (forall v :: v in history ==> 0 < v <= lastVersion)
    }

    /** Every row satisfies the ledger invariant. */
    ghost predicate ConsistentRows()
      reads this
    {
      forall id :: id in rows ==> Consistent(rows[id])
    }

    /** An empty table. */
    constructor Empty()
      ensures Valid() && ConsistentRows()
      ensures rows == map[] && lastId == 0
    {
      rows := map[];
      lastId := 0;
      lastVersion := 0;
      history := map[];
    }

    /** The table after the seed migration: the two seed loans, ids 1 and 2. */
    constructor Seeded()
      ensures Valid() && ConsistentRows()
      ensures rows.Keys == {1, 2} && lastId == 2
      ensures rows[1].amount == 150000 && rows[1].currentBalance == 50000
      ensures rows[1].applicantName == "Maria Silva" && rows[1].status == Active
      ensures rows[2].amount == 200000 && rows[2].currentBalance == 0
      ensures rows[2].applicantName == "Juan Perez" && rows[2].status == Paid
    {
      var maria := Loan(1, 150000, 50000, "Maria Silva", Active, 1);
      var juan := Loan(2, 200000, 0, "Juan Perez", Paid, 2);
      rows := map[1 := maria, 2 := juan];
      lastId := 2;
      lastVersion := 2;
      history := map[1 := maria, 2 := juan];
    }

    /** Lookup by primary key. */
    function Find(id: int): (r: Option<Loan>)
      reads this
      ensures r.Some? <==> id in rows
      ensures r.Some? ==> r.value == rows[id]
    {
      if id in rows then Some(rows[id]) else None
    }

    /** Reads the whole table, scanning the primary key in ascending order. */
    method FindAll() returns (ls: seq<Loan>)
      requires Valid()
      ensures Enumerates(ls, rows)
      ensures forall i, j :: 0 <= i < j < |ls| ==> ls[i].id < ls[j].id
    {
      ls := [];
      for id := 1 to lastId + 1
        invariant forall i :: 0 <= i < |ls| ==> ls[i].id in rows && rows[ls[i].id] == ls[i] && ls[i].id < id
        invariant forall i, j :: 0 <= i < j < |ls| ==> ls[i].id < ls[j].id
        invariant CoversBelow(ls, rows, id)
      {
        if id in rows {
          CoverAppend(ls, rows[id], rows, id);
          ls := ls + [rows[id]];
        }
        CoverNext(ls, rows, id);
      }
    }

    /** Inserts `l` under a newly drawn identity and a new version; returns the identity. */
    method Insert(l: Loan) returns (id: int)
      requires Valid()
      modifies this
      ensures Valid()
      ensures id == old(lastId) + 1 && id > 0 && id !in old(rows)
      ensures lastId == id && lastVersion == old(lastVersion) + 1
      ensures rows == old(rows)[id := l.(id := id, rowVersion := lastVersion)]
      ensures history == old(history)[lastVersion := rows[id]]
    {
      id := lastId + 1;
      lastId := id;
      lastVersion := lastVersion + 1;
      var row := l.(id := id, rowVersion := lastVersion);
      rows := rows[id := row];
      history := history[lastVersion := row];
    }

    /**
     * `UPDATE ... SET CurrentBalance, Status WHERE Id = id AND RowVersion = expected`:
     * succeeds exactly when the row still carries the expected version, and
     * then stamps it with a new one; otherwise nothing changes.
     */
    method ConditionalUpdate(id: int, expected: nat, balance: int, status: string) returns (ok: bool)
      requires Valid()
      modifies this
      ensures Valid()
      ensures ok <==> id in old(rows) && old(rows)[id].rowVersion == expected
      ensures ok ==> lastVersion == old(lastVersion) + 1
      ensures ok ==> rows == old(rows)[id := old(rows)[id].(currentBalance := balance, status := status, rowVersion := lastVersion)]
      ensures ok ==> rows[id].rowVersion > old(rows)[id].rowVersion
      ensures ok ==> history == old(history)[lastVersion := rows[id]]
      ensures !ok ==> unchanged(this)
      ensures lastId == old(lastId)
    {
      ok := id in rows && rows[id].rowVersion == expected;
      if ok {
        lastVersion := lastVersion + 1;
        var row := rows[id].(currentBalance := balance, status := status, rowVersion := lastVersion);
        rows := rows[id := row];
        history := history[lastVersion := row];
      }
    }

    /** A row whose version is unchanged since a snapshot still equals the snapshot. */
    lemma SameVersionSameRow(snapshot: Loan)
      requires Valid() && Issued(snapshot)
      requires snapshot.id in rows && rows[snapshot.id].rowVersion == snapshot.rowVersion
      ensures rows[snapshot.id] == snapshot
    {
    }
  }
}
