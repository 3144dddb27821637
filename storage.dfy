/** The abstract table store under every store of the model: an object store
    whose rows carry an auto-incremented primary key, kept in key order, with
    the three writes the stores use (add, put, delete). Storage failures are
    an explicit input: a `Fault` says at which write the engine rejects an
    operation. */
module Storage {

  /** How a storage operation ended: every write applied, or a rejection. */
  datatype Outcome = Done | StorageError

  /** A value that may be absent (`undefined` in the source). */
  datatype Option<T> = None | Some(value: T)

  /** A read that yields a value or is rejected by the storage engine. */
  datatype Result<T> = Ok(value: T) | Failed

  /** Where the storage engine rejects an operation: never, or at its write
      numbered `n` (counting from 0). The writes numbered below `n` stay
      applied, because the stores do not wrap their writes in a transaction. */
  datatype Fault = NoFault | FailAt(n: nat)

  /** The number of writes, out of the `writes` an operation issues, that are
      applied under `fault`. */
  function Applied(fault: Fault, writes: nat): (k: nat)
    ensures k <= writes
    ensures k < writes <==> Fails(fault, writes)
    ensures Fails(fault, writes) ==> k == fault.n
  {
    match fault
    case NoFault => writes
    case FailAt(n) => if n < writes then n else writes
  }

  /** Whether an operation issuing `writes` writes is rejected under `fault`:
      the fault names one of those writes. */
  predicate Fails(fault: Fault, writes: nat) {
    fault.FailAt? && fault.n < writes
  }

  /** One stored row: its primary key and its value. */
  datatype Row<V> = Row(id: nat, value: V)

  /** An object store: its rows in primary-key order, and the current value of
      its key generator. */
  datatype Table<V> = Table(rows: seq<Row<V>>, nextId: nat)

  /** Keys are strictly increasing along `rows`, and all of them were issued by
      the key generator, which starts at 1. */
  ghost predicate Valid<V>(t: Table<V>) {
    && 1 <= t.nextId
    && KeysIncreasing(t.rows)
    && (forall i :: 0 <= i < |t.rows| ==> 1 <= t.rows[i].id < t.nextId)
  }

  /** Primary keys strictly increase along `rows`. */
  ghost predicate KeysIncreasing<V>(rows: seq<Row<V>>) {
    forall i, j :: 0 <= i < j < |rows| ==> rows[i].id < rows[j].id
  }

  /** A freshly created object store. */
  function Empty<V>(): (t: Table<V>)
    ensures Valid(t) && t.rows == []
  {
    Table([], 1)
  }

  /** `add` with a generated key: the row goes last, under a key no row has. */
  function Add<V>(t: Table<V>, v: V): (t': Table<V>)
    requires Valid(t)
    ensures Valid(t')
    ensures |t'.rows| == |t.rows| + 1 && t'.rows[..|t.rows|] == t.rows
    ensures t'.rows[|t.rows|].value == v
    ensures forall i :: 0 <= i < |t.rows| ==> t.rows[i].id != t'.rows[|t.rows|].id
  {
    Table(t.rows + [Row(t.nextId, v)], t.nextId + 1)
  }

  /** Whether some row has primary key `id`. */
  predicate HasKey<V>(t: Table<V>, id: nat) {
    exists i :: 0 <= i < |t.rows| && t.rows[i].id == id
  }

  /** `put` of a row whose key is already stored: that row's value is replaced
      in place and every other row stays as it was. */
  function Put<V>(t: Table<V>, id: nat, v: V): (t': Table<V>)
    requires Valid(t) && HasKey(t, id)
    ensures Valid(t') && |t'.rows| == |t.rows| && t'.nextId == t.nextId
    ensures forall i :: 0 <= i < |t.rows| ==>
      t'.rows[i] == if t.rows[i].id == id then Row(id, v) else t.rows[i]
  {
    Table(seq(|t.rows|, i requires 0 <= i < |t.rows| =>
      if t.rows[i].id == id then Row(id, v) else t.rows[i]), t.nextId)
  }

  /** The rows of `rows` whose key is not `id`, in order. */
  function Without<V(!new)>(rows: seq<Row<V>>, id: nat): (r: seq<Row<V>>)
    ensures forall x :: x in r <==> x in rows && x.id != id
    ensures |r| <= |rows|
    ensures (forall x :: x in rows ==> x.id != id) ==> r == rows
  {
    if rows == [] then []
    else
      var rest := Without(rows[1..], id);
      assert rows == [rows[0]] + rows[1..];
      if rows[0].id == id then rest else [rows[0]] + rest
  }

  /** Dropping rows keeps the keys in increasing order. */
  lemma {:induction false} WithoutIncreasing<V(!new)>(rows: seq<Row<V>>, id: nat)
    requires KeysIncreasing(rows)
    ensures KeysIncreasing(Without(rows, id))
  {
    if rows != [] {
      var rest := Without(rows[1..], id);
      KeysTail(rows, 0);
      WithoutIncreasing(rows[1..], id);
      if rows[0].id != id {
        forall y | y in rest ensures rows[0].id < y.id {
          var k :| 0 <= k < |rows[1..]| && rows[1..][k] == y;
          assert rows[k + 1] == y;
        }
        ConsIncreasing(rows[0], rest);
      }
    }
  }

  /** The rows after position `i` of key-ordered rows are key-ordered. */
  lemma KeysTail<V>(rows: seq<Row<V>>, i: nat)
    requires KeysIncreasing(rows) && i < |rows|
    ensures KeysIncreasing(rows[i + 1..])
  {
    var rest := rows[i + 1..];
    forall a, b | 0 <= a < b < |rest| ensures rest[a].id < rest[b].id {
      assert rest[a] == rows[i + 1 + a] && rest[b] == rows[i + 1 + b];
    }
  }

  /** A row placed before rows of larger keys keeps the keys increasing. */
  lemma ConsIncreasing<V>(x: Row<V>, rest: seq<Row<V>>)
    requires KeysIncreasing(rest)
    requires forall y :: y in rest ==> x.id < y.id
    ensures KeysIncreasing([x] + rest)
  {
    var r := [x] + rest;
    forall i, j | 0 <= i < j < |r| ensures r[i].id < r[j].id {
      assert r[j] == rest[j - 1] && rest[j - 1] in rest;
      if i > 0 { assert r[i] == rest[i - 1]; }
    }
  }

  /** `delete` by primary key; deleting a key that is not stored changes nothing. */
  function Delete<V(!new)>(t: Table<V>, id: nat): (t': Table<V>)
    requires Valid(t)
    ensures Valid(t') && t'.nextId == t.nextId
    ensures forall x :: x in t'.rows <==> x in t.rows && x.id != id
    ensures !HasKey(t, id) ==> t' == t
  {
    WithoutIncreasing(t.rows, id);
    Table(Without(t.rows, id), t.nextId)
  }
}
