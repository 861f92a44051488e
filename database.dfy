/**
 * The `busstats` table of `busdatagenerator.py` and its one write operation,
 * `DataBase.insert_multiple_registers`: registers whose identifier is not yet
 * stored are inserted in one `executemany`, under the table's primary key.
 */
module Database {
  import opened Wrappers
  import opened Registers

  /** The error `sqlite3` raises when a primary key would repeat. */
  datatype DbError = IntegrityError

  /** The registers of `data`, in order, whose identifier is not in `ids`. */
  function NewRegisters(data: seq<Register>, ids: set<Id>, sha1: Digest): (vs: seq<Register>)
    ensures |vs| <= |data|
    ensures forall k :: 0 <= k < |vs| ==> IdOf(vs[k], sha1) !in ids
    ensures forall k :: 0 <= k < |vs| ==> vs[k] in data
  {
    if data == [] then []
    else
      var done := NewRegisters(data[..|data| - 1], ids, sha1);
      var last := data[|data| - 1];
      if IdOf(last, sha1) in ids then done else done + [last]
  }

  /** A single register is kept exactly when its id is not stored. */
  lemma NewRegistersOne(r: Register, ids: set<Id>, sha1: Digest)
    ensures NewRegisters([r], ids, sha1) == if IdOf(r, sha1) in ids then [] else [r]
  {
    assert [r][..0] == [];
  }

  /**
   * The filter keeps order and multiplicity: it distributes over concatenation,
   * so with `NewRegistersOne` it is the concatenation of each register's part.
   */
  lemma {:induction false} NewRegistersAppend(a: seq<Register>, b: seq<Register>, ids: set<Id>, sha1: Digest)
    ensures NewRegisters(a + b, ids, sha1) == NewRegisters(a, ids, sha1) + NewRegisters(b, ids, sha1)
  {
    if b == [] {
      assert a + b == a;
    } else {
      var n := |b| - 1;
      var ab := a + b;
      var front := ab[..|ab| - 1];
      assert front == a + b[..n];
      assert ab[|ab| - 1] == b[n];
      var tail := if IdOf(b[n], sha1) in ids then [] else [b[n]];
      assert NewRegisters(ab, ids, sha1) == NewRegisters(front, ids, sha1) + tail;
      assert NewRegisters(b, ids, sha1) == NewRegisters(b[..n], ids, sha1) + tail;
      NewRegistersAppend(a, b[..n], ids, sha1);
    }
  }

  /**
   * `executemany("insert into busstats values(?,?,?,?,?)", values)`: the rows
   * go in one by one, and the first whose identifier is already present raises.
   */
  function ExecuteMany(t: map<Id, Register>, vs: seq<Register>, sha1: Digest): Result<map<Id, Register>, DbError>
  {
    if vs == [] then Ok(t)
    else
      var before :- ExecuteMany(t, vs[..|vs| - 1], sha1);
      var last := vs[|vs| - 1];
      if IdOf(last, sha1) in before then Err(IntegrityError) else Ok(before[IdOf(last, sha1) := last])
  }

  /** The whole insert: the new table and the count returned, or the error. */
  function Insert(t: map<Id, Register>, data: seq<Register>, sha1: Digest): Result<(map<Id, Register>, nat), DbError>
  {
    var values := NewRegisters(data, t.Keys, sha1);
    var t' :- ExecuteMany(t, values, sha1);
    Ok((t', |values|))
  }

  /** No two registers of `vs` share an identifier. */
  predicate DistinctIds(vs: seq<Register>, sha1: Digest)
  {
    forall i, j :: 0 <= i < j < |vs| ==> IdOf(vs[i], sha1) != IdOf(vs[j], sha1)
  }

  /** The identifiers of `vs`. */
  function Ids(vs: seq<Register>, sha1: Digest): set<Id>
  {
    if vs == [] then {} else Ids(vs[..|vs| - 1], sha1) + {IdOf(vs[|vs| - 1], sha1)}
  }

  /** The rows `vs` becomes in the table, keyed by identifier. */
  function Rows(vs: seq<Register>, sha1: Digest): (m: map<Id, Register>)
    ensures m.Keys == Ids(vs, sha1)
  {
    if vs == [] then map[]
    else Rows(vs[..|vs| - 1], sha1)[IdOf(vs[|vs| - 1], sha1) := vs[|vs| - 1]]
  }

  /** Each row of `Rows(vs)` is a register of `vs` stored under its own identifier. */
  lemma {:induction false} RowsValues(vs: seq<Register>, sha1: Digest)
    ensures forall id :: id in Rows(vs, sha1) ==> Rows(vs, sha1)[id] in vs && IdOf(Rows(vs, sha1)[id], sha1) == id
  {
    if vs != [] {
      var n := |vs| - 1;
      RowsValues(vs[..n], sha1);
      assert forall r :: r in vs[..n] ==> r in vs;
    }
  }

  lemma {:induction false} InIds(vs: seq<Register>, k: nat, sha1: Digest)
    requires k < |vs|
    ensures IdOf(vs[k], sha1) in Ids(vs, sha1)
  {
    if k < |vs| - 1 {
      InIds(vs[..|vs| - 1], k, sha1);
    }
  }

  lemma {:induction false} NotInIds(vs: seq<Register>, id: Id, sha1: Digest)
    requires forall k :: 0 <= k < |vs| ==> IdOf(vs[k], sha1) != id
    ensures id !in Ids(vs, sha1)
  {
    if vs != [] {
      NotInIds(vs[..|vs| - 1], id, sha1);
    }
  }

  /** The list comprehension of `insert_multiple_registers`: the registers whose identifier is absent. */
  method CollectNew(data: seq<Register>, ids: set<Id>, sha1: Digest) returns (values: seq<Register>)
    ensures values == NewRegisters(data, ids, sha1)
  {
    values := [];
    var i := 0;
    while i < |data|
      invariant 0 <= i <= |data|
      invariant values == NewRegisters(data[..i], ids, sha1)
    {
      assert data[..i + 1][..i] == data[..i];
      if IdOf(data[i], sha1) !in ids {
        values := values + [data[i]];
      }
      i := i + 1;
    }
    assert data[..i] == data;
  }

  /** `executemany` inside the transaction: the table it would commit, or the clash it raises. */
  method ExecuteAll(table: map<Id, Register>, values: seq<Register>, sha1: Digest)
    returns (result: Result<map<Id, Register>, DbError>)
    ensures result == ExecuteMany(table, values, sha1)
  {
    var pending := table;
    var j := 0;
    while j < |values|
      invariant 0 <= j <= |values|
      invariant ExecuteMany(table, values[..j], sha1) == Ok(pending)
    {
      assert values[..j + 1][..j] == values[..j];
      if IdOf(values[j], sha1) in pending {
        ExecuteManyFailure(table, values, j + 1, sha1);
        assert ExecuteMany(table, values, sha1).error.IntegrityError?;
        return Err(IntegrityError);
      }
      pending := pending[IdOf(values[j], sha1) := values[j]];
      j := j + 1;
    }
    assert values[..j] == values;
    return Ok(pending);
  }

  /** The connection to the database file and the committed `busstats` table. */
  class DataBase {
    var table: map<Id, Register>
    var connected: bool

    /** `DataBase()` over a database file whose table holds `table`. */
    constructor (table: map<Id, Register>)
      ensures this.table == table && !connected
    {
      this.table := table;
      connected := false;
    }

    /** `use()`: connects once; `create table if not exists` keeps what is stored. */
    method Use()
      modifies this
      ensures connected && table == old(table)
    {
      if connected {
        return;
      }
      connected := true;
    }

    /** `get_ids()`: every identifier stored, read through a connection of its own. */
    method GetIds() returns (ids: set<Id>)
      ensures ids == table.Keys
    {
      ids := table.Keys;
    }

    /**
     * `insert_multiple_registers(data)`: the stored identifiers are read once,
     * the registers whose identifier is absent are collected, inserted and
     * committed, and their number is returned. A primary-key clash inside the
     * batch raises before the commit, so the committed table stays as it was.
     * The insertion runs on the cursor `use()` opened.
     */
    method InsertMultipleRegisters(data: seq<Register>, sha1: Digest) returns (r: Result<nat, DbError>)
      requires connected
      modifies this
      ensures Insert(old(table), data, sha1).Ok? <==> r.Ok?
      ensures r.Ok? ==> (table, r.value) == Insert(old(table), data, sha1).value
      ensures r.Err? ==> table == old(table) && r.error == IntegrityError
      ensures connected == old(connected)
    {
      var ids := GetIds();
      var values := CollectNew(data, ids, sha1);
      var result := ExecuteAll(table, values, sha1);
      if result.Err? {
        return Err(IntegrityError);
      }
      table := result.value;
      return Ok(|values|);
    }
  }

  /** Once a prefix of the batch raises, the whole batch raises. */
  lemma {:induction false} ExecuteManyFailure(t: map<Id, Register>, vs: seq<Register>, j: nat, sha1: Digest)
    requires j <= |vs| && ExecuteMany(t, vs[..j], sha1).Err?
    ensures ExecuteMany(t, vs, sha1).Err?
    decreases |vs| - j
  {
    if j < |vs| {
      assert vs[..j + 1][..j] == vs[..j];
      ExecuteManyFailure(t, vs, j + 1, sha1);
    } else {
      assert vs[..j] == vs;
    }
  }

  /**
   * A batch of identifiers absent from the table goes in exactly when no two
   * of them are equal, and then the table gains one row per register.
   */
  lemma ExecuteManyOk(t: map<Id, Register>, vs: seq<Register>, sha1: Digest)
    requires forall k :: 0 <= k < |vs| ==> IdOf(vs[k], sha1) !in t
    ensures ExecuteMany(t, vs, sha1).Ok? <==> DistinctIds(vs, sha1)
    ensures ExecuteMany(t, vs, sha1).Ok? ==> ExecuteMany(t, vs, sha1).value == t + Rows(vs, sha1)
  {
    if DistinctIds(vs, sha1) {
      ExecuteManyDistinct(t, vs, sha1);
    } else {
      ExecuteManyRepeated(t, vs, sha1);
    }
  }

  lemma {:induction false} ExecuteManyDistinct(t: map<Id, Register>, vs: seq<Register>, sha1: Digest)
    requires forall k :: 0 <= k < |vs| ==> IdOf(vs[k], sha1) !in t
    requires DistinctIds(vs, sha1)
    ensures ExecuteMany(t, vs, sha1) == Ok(t + Rows(vs, sha1))
  {
    if vs != [] {
      var n := |vs| - 1;
      var init, last := vs[..n], vs[n];
      var id := IdOf(last, sha1);
      ExecuteManyDistinct(t, init, sha1);
      var rows := Rows(init, sha1);
      assert forall k :: 0 <= k < |init| ==> IdOf(init[k], sha1) != id by {
        forall k | 0 <= k < |init| ensures IdOf(init[k], sha1) != id {
          assert init[k] == vs[k];
        }
      }
      NotInIds(init, id, sha1);
      assert id !in t + rows;
      assert ExecuteMany(t, vs, sha1) == Ok((t + rows)[id := last]);
      assert Rows(vs, sha1) == rows[id := last];
      UpdateUnion(t, rows, id, last);
    } else {
      assert t + Rows(vs, sha1) == t;
    }
  }

  lemma UpdateUnion<K, V>(a: map<K, V>, b: map<K, V>, k: K, v: V)
    ensures (a + b)[k := v] == a + b[k := v]
  {
  }

  lemma {:induction false} ExecuteManyRepeated(t: map<Id, Register>, vs: seq<Register>, sha1: Digest)
    requires forall k :: 0 <= k < |vs| ==> IdOf(vs[k], sha1) !in t
    requires !DistinctIds(vs, sha1)
    ensures ExecuteMany(t, vs, sha1).Err?
  {
    var i, j :| 0 <= i < j < |vs| && IdOf(vs[i], sha1) == IdOf(vs[j], sha1);
    var n := |vs| - 1;
    var init := vs[..n];
    if !DistinctIds(init, sha1) {
      ExecuteManyRepeated(t, init, sha1);
    } else {
      assert j == n;
      ExecuteManyDistinct(t, init, sha1);
      InIds(init, i, sha1);
    }
  }

  /** The number returned is the number of registers whose identifier was absent, at most `len(data)`. */
  lemma InsertCount(t: map<Id, Register>, data: seq<Register>, sha1: Digest)
    requires Insert(t, data, sha1).Ok?
    ensures Insert(t, data, sha1).value.1 == |NewRegisters(data, t.Keys, sha1)| <= |data|
  {
  }

  /**
   * A successful insert keeps every stored row, and each row it adds belongs to
   * a register of `data` whose identifier was absent before the call.
   */
  lemma InsertOnlyAbsent(t: map<Id, Register>, data: seq<Register>, sha1: Digest)
    requires Insert(t, data, sha1).Ok?
    ensures var t' := Insert(t, data, sha1).value.0;
      (forall id :: id in t ==> id in t' && t'[id] == t[id])
      && (forall id :: id in t' && id !in t ==> t'[id] in data && IdOf(t'[id], sha1) == id)
      && (forall r :: r in data ==> IdOf(r, sha1) in t')
  {
    var values := NewRegisters(data, t.Keys, sha1);
    ExecuteManyOk(t, values, sha1);
    RowsValues(values, sha1);
    NewRegistersComplete(data, t.Keys, sha1);
    forall r | r in data && IdOf(r, sha1) !in t
      ensures IdOf(r, sha1) in Rows(values, sha1)
    {
      var k :| 0 <= k < |values| && values[k] == r;
      InIds(values, k, sha1);
    }
  }

  /** Every register of `data` is either already stored or among the new ones. */
  lemma {:induction false} NewRegistersComplete(data: seq<Register>, ids: set<Id>, sha1: Digest)
    ensures forall r :: r in data && IdOf(r, sha1) !in ids ==> r in NewRegisters(data, ids, sha1)
  {
    if data != [] {
      var n := |data| - 1;
      NewRegistersComplete(data[..n], ids, sha1);
      assert data == data[..n] + [data[n]];
    }
  }

  /**
   * The batch raises exactly when two of the new registers share an
   * identifier: the ids are read once, so the filter lets both through.
   */
  lemma InsertFailsIffRepeatedNewId(t: map<Id, Register>, data: seq<Register>, sha1: Digest)
    ensures Insert(t, data, sha1).Err? <==> !DistinctIds(NewRegisters(data, t.Keys, sha1), sha1)
  {
    ExecuteManyOk(t, NewRegisters(data, t.Keys, sha1), sha1);
  }

  /** Two new registers that differ only in their delay make the insert raise. */
  lemma SameKeyInOneBatchRaises(t: map<Id, Register>, r: Register, delay: int, sha1: Digest)
    requires IdOf(r, sha1) !in t
    ensures Insert(t, [r, r.(delayMinutes := delay)], sha1) == Err(IntegrityError)
  {
    var r2 := r.(delayMinutes := delay);
    var data := [r, r2];
    var id := IdOf(r, sha1);
    IdIgnoresDelay(r, delay, sha1);
    assert data[..1] == [r] && [r][..0] == [];
    assert NewRegisters([r], t.Keys, sha1) == [r];
    assert NewRegisters(data, t.Keys, sha1) == data;
    assert ExecuteMany(t, [r], sha1) == Ok(t[id := r]);
    assert IdOf(r2, sha1) == id;
  }

  /** Inserting the same registers again stores nothing new and returns 0. */
  lemma InsertIdempotent(t: map<Id, Register>, data: seq<Register>, sha1: Digest)
    requires Insert(t, data, sha1).Ok?
    ensures var t' := Insert(t, data, sha1).value.0; Insert(t', data, sha1) == Ok((t', 0))
  {
    var t' := Insert(t, data, sha1).value.0;
    InsertOnlyAbsent(t, data, sha1);
    NewRegistersNone(data, t'.Keys, sha1);
  }

  /** When every identifier is stored, the filter keeps nothing. */
  lemma {:induction false} NewRegistersNone(data: seq<Register>, ids: set<Id>, sha1: Digest)
    requires forall r :: r in data ==> IdOf(r, sha1) in ids
    ensures NewRegisters(data, ids, sha1) == []
  {
    if data != [] {
      var n := |data| - 1;
      assert forall r :: r in data[..n] ==> r in data;
      NewRegistersNone(data[..n], ids, sha1);
    }
  }

  /**
   * Stored `{A, B}`, then inserting `[A, C]`: only `C` goes in and the count
   * is 1.
   */
  lemma InsertOverlapping(a: Register, b: Register, c: Register, sha1: Digest)
    requires IdOf(a, sha1) != IdOf(b, sha1) && IdOf(a, sha1) != IdOf(c, sha1) && IdOf(b, sha1) != IdOf(c, sha1)
    ensures var first := Insert(map[], [a, b], sha1);
      first.Ok? && first.value.1 == 2
      && Insert(first.value.0, [a, c], sha1) == Ok((first.value.0[IdOf(c, sha1) := c], 1))
  {
    var t1 := InsertPair(a, b, sha1);
    InsertOneNew(t1, a, c, sha1);
  }

  lemma InsertPair(a: Register, b: Register, sha1: Digest) returns (t1: map<Id, Register>)
    requires IdOf(a, sha1) != IdOf(b, sha1)
    ensures Insert(map[], [a, b], sha1) == Ok((t1, 2))
    ensures t1.Keys == {IdOf(a, sha1), IdOf(b, sha1)}
  {
    var t0: map<Id, Register> := map[];
    t1 := t0[IdOf(a, sha1) := a][IdOf(b, sha1) := b];
    PairIsNew(a, b, t0, sha1);
    PairExecutes(a, b, t0, sha1);
  }

  lemma PairIsNew(a: Register, b: Register, t0: map<Id, Register>, sha1: Digest)
    requires t0 == map[]
    ensures NewRegisters([a, b], t0.Keys, sha1) == [a, b]
  {
    assert t0.Keys == {};
    assert [a, b][..1] == [a] && [a][..0] == [];
  }

  lemma PairExecutes(a: Register, b: Register, t0: map<Id, Register>, sha1: Digest)
    requires t0 == map[] && IdOf(a, sha1) != IdOf(b, sha1)
    ensures ExecuteMany(t0, [a, b], sha1) == Ok(t0[IdOf(a, sha1) := a][IdOf(b, sha1) := b])
  {
    assert [a, b][..1] == [a] && [a][..0] == [];
    assert ExecuteMany(t0, [a], sha1) == Ok(t0[IdOf(a, sha1) := a]);
  }

  lemma InsertOneNew(t: map<Id, Register>, a: Register, c: Register, sha1: Digest)
    requires IdOf(a, sha1) in t && IdOf(c, sha1) !in t
    ensures Insert(t, [a, c], sha1) == Ok((t[IdOf(c, sha1) := c], 1))
  {
    var ac := [a, c];
    assert ac[..1] == [a] && [a][..0] == [];
    assert NewRegisters(ac, t.Keys, sha1) == [c];
    assert [c][..0] == [];
    assert ExecuteMany(t, [c], sha1) == Ok(t[IdOf(c, sha1) := c]);
  }
}
