/** The entity store behind one model, reduced to a finite map from primary
    key to record: what `model.create`, `findByPk`, `findAll`,
    `instance.update` and `instance.destroy` do to it. */
module Store {
  import opened Js

  /** Primary keys are Sequelize's auto-increment integers. */
  type Id = nat

  /** A row: attribute name to value. */
  type Record = map<string, JsValue>

  type Table = map<Id, Record>

  /** A smallest key of a non-empty key set, found by removing one key at a time. */
  lemma {:induction false} LeastKey(ids: set<Id>) returns (m: Id)
    requires ids != {}
    ensures m in ids
    ensures forall k :: k in ids ==> m <= k
    decreases |ids|
  {
    var x :| x in ids;
    if ids == {x} {
      m := x;
    } else {
      var rest := LeastKey(ids - {x});
      m := if x < rest then x else rest;
      forall k | k in ids
        ensures m <= k
      {
        if k != x {
          assert k in ids - {x};
        }
      }
    }
  }

  /** The smallest key of a non-empty key set. */
  function Min(ids: set<Id>): (m: Id)
    requires ids != {}
    ensures m in ids
    ensures forall k :: k in ids ==> m <= k
  {
    assert exists m :: m in ids && forall k :: k in ids ==> m <= k by {
      var least := LeastKey(ids);
    }
    var m :| m in ids && forall k :: k in ids ==> m <= k;
    m
  }

  /** The keys in ascending order: the order `findAll` lists rows in. */
  function Ascending(ids: set<Id>): (r: seq<Id>)
    ensures |r| == |ids|
    ensures forall i :: 0 <= i < |r| ==> r[i] in ids
    ensures forall k :: k in ids ==> k in r
    ensures forall i, j :: 0 <= i < j < |r| ==> r[i] < r[j]
    decreases |ids|
  {
    if ids == {} then []
    else
      var m := Min(ids);
      [m] + Ascending(ids - {m})
  }

  /** Attributes a value contributes to a row: the fields of an object,
      nothing otherwise. */
  function Attributes(value: JsValue): Record
  {
    if value.Object? then value.fields else map[]
  }

  /** The row `model.create(value)` stores under a fresh key: the value's
      attributes with the primary key filled in. */
  function NewRecord(value: JsValue, id: Id): (rec: Record)
    ensures "id" in rec && rec["id"] == Number(id)
    ensures forall k :: k in Attributes(value) && k != "id" ==> k in rec && rec[k] == Attributes(value)[k]
    ensures forall k :: k in rec ==> k == "id" || k in Attributes(value)
  {
    Attributes(value)["id" := Number(id)]
  }

  /** `findByPk(id)`: the row, or `null` when there is none. */
  function FindByPk(table: Table, id: Id): (v: JsValue)
    ensures id in table ==> v == Object(table[id])
    ensures id !in table ==> v == Null
  {
    if id in table then Object(table[id]) else Null
  }

  /** `instance.update(body)`: the body's attributes overwrite the row's,
      every other attribute is kept. */
  function Merge(rec: Record, body: JsValue): (r: Record)
    ensures r.Keys == rec.Keys + Attributes(body).Keys
    ensures forall k :: k in Attributes(body) ==> r[k] == Attributes(body)[k]
    ensures forall k :: k in rec && k !in Attributes(body) ==> r[k] == rec[k]
  {
    rec + Attributes(body)
  }

  /** `findAll()`: every row, as objects, in ascending key order. Together
      with the contract of `Ascending`, the first clause lists each key's row
      exactly once. */
  function FindAll(table: Table): (rows: seq<JsValue>)
    ensures |rows| == |Ascending(table.Keys)|
    ensures forall i :: 0 <= i < |rows| ==> rows[i] == Object(table[Ascending(table.Keys)[i]])
    ensures |rows| == |table|
    ensures forall i :: 0 <= i < |rows| ==> rows[i].Object? && rows[i].fields in table.Values
    ensures forall id :: id in table ==> Object(table[id]) in rows
  {
    var keys := Ascending(table.Keys);
    var rows := seq(|keys|, i requires 0 <= i < |keys| => Object(table[keys[i]]));
    RowsListTable(table, keys, rows);
    rows
  }

  /** The rows listed for a complete key list are exactly the table's rows. */
  lemma RowsListTable(table: Table, keys: seq<Id>, rows: seq<JsValue>)
    requires forall i :: 0 <= i < |keys| ==> keys[i] in table
    requires forall k :: k in table ==> k in keys
    requires |keys| == |table.Keys|
    requires |rows| == |keys|
    requires forall i :: 0 <= i < |rows| ==> rows[i] == Object(table[keys[i]])
    ensures |rows| == |table|
    ensures forall i :: 0 <= i < |rows| ==> rows[i].Object? && rows[i].fields in table.Values
    ensures forall id :: id in table ==> Object(table[id]) in rows
  {
    assert |table.Keys| == |table|;
    forall i | 0 <= i < |rows|
      ensures rows[i].Object? && rows[i].fields in table.Values
    {
      assert table[keys[i]] in table.Values;
    }
    forall id | id in table
      ensures Object(table[id]) in rows
    {
      var i :| 0 <= i < |keys| && keys[i] == id;
      assert rows[i] == Object(table[id]);
    }
  }
}
