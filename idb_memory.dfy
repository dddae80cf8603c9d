/**
 * The in-memory IDB plugin that the conformance runner hands to the block interpreter: a table
 * of stores, each a list of row objects, and the log of the writes made through it. `get`,
 * `put` and `query` each create the store they name when it is missing; `put` is the only
 * operation that adds rows or log entries.
 */
module IdbMemory {
  import opened Wrappers
  import opened Errors
  import opened JsText
  import opened JsValue
  import opened JsNumber

  /** A stored row: the members of a plain object. */
  type Row = seq<Member>

  /** A property key of the table: a string, or a symbol (told apart by its description). */
  datatype StoreKey = Named(name: string) | Symbol(description: string)

  /** `db[store]` converts `store` to a property key; an array holding a symbol cannot be converted. */
  function StoreKeyOf(store: Value): (r: Result<StoreKey, Error>)
    ensures store.Str? ==> r == Ok(Named(store.s))
    ensures store.Sym? ==> r == Ok(Symbol(store.description))
    ensures r.Err? ==> store.Arr?
  {
    if store.Sym? then Ok(Symbol(store.description))
    else
      var s :- ToJsString(store);
      Ok(Named(s))
  }

  /** The table of stores and the write log `_writes`. */
  datatype IdbState = IdbState(db: map<StoreKey, seq<Row>>, writes: seq<Value>)

  /** What an operation leaves behind: the new state and what it returned or threw. */
  datatype Outcome = Outcome(state: IdbState, result: Result<Value, Error>)

  /**
   * `db[store]` finds a member that every object inherits from `Object.prototype`: it is truthy,
   * so `ensure` returns it, but it is not an array.
   */
  predicate Inherited(db: map<StoreKey, seq<Row>>, k: StoreKey)
  {
    k !in db && k.Named? && k.name in ObjectPrototypeKeys
  }

  /** The table after `ensure(store)`: a missing store is created empty; nothing else changes. */
  function Ensured(db: map<StoreKey, seq<Row>>, k: StoreKey): (d: map<StoreKey, seq<Row>>)
    ensures k in d && d[k] == (if k in db then db[k] else [])
  {
    if k in db then db else db[k := []]
  }

  /** `ensure` leaves every other store as it was. */
  lemma EnsuredOthers(db: map<StoreKey, seq<Row>>, k: StoreKey, k': StoreKey)
    requires k' != k
    ensures k' in Ensured(db, k) <==> k' in db
    ensures k' in db ==> Ensured(db, k)[k'] == db[k']
  {
  }

  /* ---------------- createMemoryIDBPlugin(seed) ---------------- */

  /** `Object.entries(seed)`, where a missing seed is `{}` and `null` cannot be converted. */
  function SeedEntries(seed: Value): (r: Result<seq<Member>, Error>)
    ensures r.Err? <==> seed.Null?
    ensures seed.Obj? ==> r == Ok(seed.fields)
  {
    if seed.Undef? then Ok([])
    else if seed.Null? then Err(TypeError("Cannot convert undefined or null to object"))
    else Ok(Entries(seed))
  }

  /** The rows a seed entry gives its store: a shallow copy of each element of an array, else none. */
  function SeedRows(rows: Value): (r: seq<Row>)
    ensures rows.Arr? ==> |r| == |rows.items|
  {
    if rows.Arr? then seq(|rows.items|, i requires 0 <= i < |rows.items| => SpreadCopy(rows.items[i]).fields)
    else []
  }

  /** The table the seed entries build in order, a later entry replacing an earlier one of the same name. */
  function SeedDb(entries: seq<Member>): map<StoreKey, seq<Row>>
  {
    if entries == [] then map[]
    else
      var last := entries[|entries| - 1];
      SeedDb(entries[..|entries| - 1])[Named(last.key) := SeedRows(last.val)]
  }

  class MemoryIdb {
    var db: map<StoreKey, seq<Row>>
    var writes: seq<Value>

    function State(): IdbState
      reads this
    {
      IdbState(db, writes)
    }

    /** `createMemoryIDBPlugin` once `Object.entries(seed)` has been taken: each store's rows copied. */
    constructor(entries: seq<Member>)
      ensures State() == IdbState(SeedDb(entries), [])
    {
      var d: map<StoreKey, seq<Row>> := map[];
      var i := 0;
      while i < |entries|
        invariant 0 <= i <= |entries|
        invariant d == SeedDb(entries[..i])
      {
        var rows := entries[i].val;
        var copied: seq<Row> := [];
        if rows.Arr? {
          var j := 0;
          while j < |rows.items|
            invariant 0 <= j <= |rows.items|
            invariant copied == SeedRows(rows)[..j]
          {
            copied := copied + [SpreadCopy(rows.items[j]).fields];
            j := j + 1;
          }
          assert SeedRows(rows)[..|rows.items|] == SeedRows(rows);
        }
        d := d[Named(entries[i].key) := copied];
        assert entries[..i + 1][..i] == entries[..i] && entries[..i + 1][i] == entries[i];
        i := i + 1;
      }
      assert entries[..|entries|] == entries;
      db := d;
      writes := [];
    }

    /** `ensure(store)`: the store's rows, created empty when missing, or None for an inherited name. */
    method Ensure(k: StoreKey) returns (rows: Option<seq<Row>>)
      modifies this
      ensures Inherited(old(db), k) ==> rows.None? && db == old(db)
      ensures !Inherited(old(db), k) ==> db == Ensured(old(db), k) && rows == Some(db[k])
      ensures writes == old(writes)
    {
      if k in db {
        rows := Some(db[k]);
      } else if k.Named? && k.name in ObjectPrototypeKeys {
        rows := None;
      } else {
        db := db[k := []];
        rows := Some([]);
      }
    }

    /** `get(store, key)`: the first row whose `id` is `key`, or null. */
    method Get(store: Value, key: Value) returns (r: Result<Value, Error>)
      modifies this
      ensures Outcome(State(), r) == IdbGet(old(State()), store, key)
    {
      match StoreKeyOf(store) {
        case Err(e) => return Err(e);
        case Ok(k) =>
          var rows := Ensure(k);
          match rows {
            case None => return Err(TypeError("rows.find is not a function"));
            case Some(rs) =>
              var found := FindValue(rs, key);
              GetReads(old(State()), store, key, k);
              return Ok(found);
          }
      }
    }

    /** `put(store, value)`: store a copy of `value`, numbered when it has no truthy `id`, and log it. */
    method Put(store: Value, value: Value) returns (r: Result<Value, Error>)
      modifies this
      ensures Outcome(State(), r) == IdbPut(old(State()), store, value)
    {
      match StoreKeyOf(store) {
        case Err(e) => return Err(e);
        case Ok(k) =>
          var rows := Ensure(k);
          match rows {
            case None => return Err(TypeError("rows.push is not a function"));
            case Some(rs) =>
              var v := SpreadCopy(value).fields;
              if !Truthy(Prop(Obj(v), "id")) {
                v := SetField(v, "id", Str(NatToDecimal(|rs| + 1)));
              }
              assert v == NewRow(value, |rs|);
              PutStores(old(State()), store, value, k);
              db := db[k := rs + [v]];
              writes := writes + [WriteEntry(store, v)];
              return Ok(Obj(v));
          }
      }
    }

    /** `query(store, kql)`: `{ rows }`, the first `LIMIT` rows projected onto `SELECT.fields`. */
    method Query(store: Value, kql: Value) returns (r: Result<Value, Error>)
      modifies this
      ensures Outcome(State(), r) == IdbQuery(old(State()), store, kql)
    {
      var k := StoreKeyOf(store);
      if k.Err? {
        return Err(k.error);
      }
      var rows := Ensure(k.value);
      if rows.None? {
        var limit := QueryLimit(kql, 0);
        return if limit.Err? then Err(limit.error) else Err(TypeError("rows.slice is not a function"));
      }
      r := RunQuery(rows.value, kql);
    }
  }

  /* ---------------- get ---------------- */

  /** The position of the first row whose `id` is strictly equal to `key`. */
  function FindRow(rows: seq<Row>, key: Value): (r: Option<nat>)
    ensures r.Some? ==> r.value < |rows| && StrictEq(Prop(Obj(rows[r.value]), "id"), key)
    ensures r.Some? ==> forall j :: 0 <= j < r.value ==> !StrictEq(Prop(Obj(rows[j]), "id"), key)
    ensures r.None? <==> forall j :: 0 <= j < |rows| ==> !StrictEq(Prop(Obj(rows[j]), "id"), key)
  {
    if rows == [] then None
    else if StrictEq(Prop(Obj(rows[0]), "id"), key) then Some(0)
    else
      TailIndex(rows);
      match FindRow(rows[1..], key)
      case None => None
      case Some(i) => Some(i + 1)
  }

  /** `rows.find((r) => r.id === key)`, as the position it stops at. */
  method FindFirst(rows: seq<Row>, key: Value) returns (r: Option<nat>)
    ensures r == FindRow(rows, key)
  {
    var i := 0;
    while i < |rows|
      invariant 0 <= i <= |rows|
      invariant forall j :: 0 <= j < i ==> !StrictEq(Prop(Obj(rows[j]), "id"), key)
    {
      if StrictEq(Prop(Obj(rows[i]), "id"), key) {
        FindRowFirst(rows, key, i);
        return Some(i);
      }
      i := i + 1;
    }
    return None;
  }

  /** A matching row with no match before it is the one `find` returns. */
  lemma FindRowFirst(rows: seq<Row>, key: Value, i: nat)
    requires i < |rows| && StrictEq(Prop(Obj(rows[i]), "id"), key)
    requires forall j :: 0 <= j < i ==> !StrictEq(Prop(Obj(rows[j]), "id"), key)
    ensures FindRow(rows, key) == Some(i)
  {
  }

  /** `rows.find((r) => r.id === key) ?? null`. */
  function Found(rows: seq<Row>, key: Value): Value
  {
    match FindRow(rows, key)
    case Some(i) => Obj(rows[i])
    case None => Null
  }

  /** `find` followed by `?? null`. */
  method FindValue(rows: seq<Row>, key: Value) returns (r: Value)
    ensures r == Found(rows, key)
  {
    var i := FindFirst(rows, key);
    return if i.Some? then Obj(rows[i.value]) else Null;
  }

  function IdbGet(st: IdbState, store: Value, key: Value): Outcome
  {
    match StoreKeyOf(store)
    case Err(e) => Outcome(st, Err(e))
    case Ok(k) =>
      if Inherited(st.db, k) then Outcome(st, Err(TypeError("rows.find is not a function")))
      else
        var db := Ensured(st.db, k);
        Outcome(IdbState(db, st.writes), Ok(Found(db[k], key)))
  }

  /** A get from a store that is not inherited creates the store if need be and looks in it. */
  lemma GetReads(st: IdbState, store: Value, key: Value, k: StoreKey)
    requires StoreKeyOf(store) == Ok(k) && !Inherited(st.db, k)
    ensures var db := Ensured(st.db, k);
            IdbGet(st, store, key) == Outcome(IdbState(db, st.writes), Ok(Found(db[k], key)))
  {
  }

  /* ---------------- put ---------------- */

  /** `{ ...value }`, given `id = String(count + 1)` when its own `id` is falsy. */
  function NewRow(value: Value, count: nat): Row
  {
    var v := SpreadCopy(value).fields;
    if Truthy(Prop(Obj(v), "id")) then v else SetField(v, "id", Str(NatToDecimal(count + 1)))
  }

  /** The `_writes` entry of a put. */
  function WriteEntry(store: Value, row: Row): (w: Value)
    ensures w.Obj?
  {
    Obj([Member("op", Str("idb.put")), Member("store", store), Member("value", Obj(row))])
  }

  function IdbPut(st: IdbState, store: Value, value: Value): Outcome
  {
    match StoreKeyOf(store)
    case Err(e) => Outcome(st, Err(e))
    case Ok(k) =>
      if Inherited(st.db, k) then Outcome(st, Err(TypeError("rows.push is not a function")))
      else
        var db := Ensured(st.db, k);
        var row := NewRow(value, |db[k]|);
        Outcome(IdbState(db[k := db[k] + [row]], st.writes + [WriteEntry(store, row)]), Ok(Obj(row)))
  }

  /** A put into a store that is not inherited appends the new row and logs it. */
  lemma PutStores(st: IdbState, store: Value, value: Value, k: StoreKey)
    requires StoreKeyOf(store) == Ok(k) && !Inherited(st.db, k)
    ensures var db := Ensured(st.db, k);
            var row := NewRow(value, |db[k]|);
            IdbPut(st, store, value) ==
              Outcome(IdbState(db[k := db[k] + [row]], st.writes + [WriteEntry(store, row)]), Ok(Obj(row)))
  {
  }

  /* ---------------- query and project ---------------- */

  /** `for (const f of fields)`: the elements of an array or the characters of a string. */
  function FieldItems(fields: Value): (r: Result<seq<Value>, Error>)
    ensures fields.Arr? ==> r == Ok(fields.items)
    ensures r.Err? <==> !fields.Arr? && !fields.Str?
  {
    match fields
    case Arr(items) => Ok(items)
    case Str(s) => Ok(seq(|s|, i requires 0 <= i < |s| => Str([s[i]])))
    case _ => Err(TypeError("fields is not iterable"))
  }

  /**
   * `out[f] = row[f]` for each field in order. A symbol field adds a symbol-keyed property,
   * which no string-keyed view of the object shows, so it leaves the members as they are.
   */
  function ProjectFields(row: Row, fs: seq<Value>, out: Row): Result<Row, Error>
  {
    if fs == [] then Ok(out)
    else if fs[0].Sym? then ProjectFields(row, fs[1..], out)
    else
      match ToJsString(fs[0])
      case Err(e) => Err(e)
      case Ok(key) => ProjectFields(row, fs[1..], SetField(out, key, Prop(Obj(row), key)))
  }

  /** `project(row, fields)`: a copy of the whole row when `fields` or its length is falsy. */
  function ProjectRow(row: Row, fields: Value): Result<Row, Error>
  {
    if !Truthy(fields) || !Truthy(Prop(fields, "length")) then Ok(row)
    else
      match FieldItems(fields)
      case Err(e) => Err(e)
      case Ok(items) => ProjectFields(row, items, [])
  }

  /** One turn of the field loop: a symbol is skipped, a field that cannot be named throws, any other is copied. */
  lemma ProjectFieldsStep(row: Row, fs: seq<Value>, i: nat, out: Row)
    requires i < |fs|
    ensures fs[i].Sym? ==> ProjectFields(row, fs[i..], out) == ProjectFields(row, fs[i + 1..], out)
    ensures !fs[i].Sym? && ToJsString(fs[i]).Err? ==> ProjectFields(row, fs[i..], out) == Err(ToJsString(fs[i]).error)
    ensures !fs[i].Sym? && ToJsString(fs[i]).Ok? ==>
              var key := ToJsString(fs[i]).value;
              ProjectFields(row, fs[i..], out) == ProjectFields(row, fs[i + 1..], SetField(out, key, Prop(Obj(row), key)))
  {
    assert fs[i..][0] == fs[i] && fs[i..][1..] == fs[i + 1..];
  }

  /** `project(row, fields)`: the early return, then the loop over the fields. */
  method Project(row: Row, fields: Value) returns (r: Result<Row, Error>)
    ensures r == ProjectRow(row, fields)
  {
    if !Truthy(fields) || !Truthy(Prop(fields, "length")) {
      return Ok(row);
    }
    var items := FieldItems(fields);
    if items.Err? {
      return Err(items.error);
    }
    r := ProjectLoop(row, items.value);
  }

  /** The loop `for (const f of fields) out[f] = row[f]`, starting from an empty `out`. */
  method ProjectLoop(row: Row, fs: seq<Value>) returns (r: Result<Row, Error>)
    ensures r == ProjectFields(row, fs, [])
  {
    var out: Row := [];
    var i := 0;
    while i < |fs|
      invariant 0 <= i <= |fs|
      invariant ProjectFields(row, fs[i..], out) == ProjectFields(row, fs, [])
    {
      var f := fs[i];
      ProjectFieldsStep(row, fs, i, out);
      if !f.Sym? {
        var key := ToJsString(f);
        if key.Err? {
          return Err(key.error);
        }
        out := SetField(out, key.value, Prop(Obj(row), key.value));
      }
      i := i + 1;
    }
    return Ok(out);
  }

  /** The callback of `rows.map((r) => project(r, fields))`. */
  function ProjectWith(fields: Value): Row -> Result<Row, Error>
  {
    (row: Row) => ProjectRow(row, fields)
  }

  /** `rows.map((r) => project(r, fields))`, stopping at the first row that throws. */
  method ProjectAll(rows: seq<Row>, fields: Value) returns (r: Result<seq<Row>, Error>)
    ensures r == MapAll(ProjectWith(fields), rows)
  {
    var out: seq<Row> := [];
    var i := 0;
    while i < |rows|
      invariant 0 <= i <= |rows| && |out| == i
      invariant forall j :: 0 <= j < i ==> ProjectWith(fields)(rows[j]) == Ok(out[j])
    {
      var p := Project(rows[i], fields);
      if p.Err? {
        MapAllStops(ProjectWith(fields), rows, i);
        return Err(p.error);
      }
      out := out + [p.value];
      i := i + 1;
    }
    MapAllGives(ProjectWith(fields), rows, out);
    return Ok(out);
  }

  /** The body of `query` once `ensure` has returned an array of rows. */
  method RunQuery(rows: seq<Row>, kql: Value) returns (r: Result<Value, Error>)
    ensures r == QueryRows(rows, kql)
  {
    var fields := QueryFields(kql);
    var limit := QueryLimit(kql, |rows|);
    if limit.Err? {
      return Err(limit.error);
    }
    var out := ProjectAll(rows[..SliceEnd(|rows|, limit.value)], fields);
    return if out.Err? then Err(out.error) else Ok(RowsObject(out.value));
  }

  /** `{ rows: out }`. */
  function RowsObject(out: seq<Row>): (v: Value)
    ensures v.Obj?
  {
    Obj([Member("rows", Arr(seq(|out|, i requires 0 <= i < |out| => Obj(out[i]))))])
  }

  /** `Number(kql?.LIMIT ?? rows.length)` for a store of `count` rows. */
  function QueryLimit(kql: Value, count: nat): (r: Result<MathNum, Error>)
    ensures IsNullish(Prop(kql, "LIMIT")) ==> r == Ok(Finite(count as real))
  {
    ToNumber(NullishOr(Prop(kql, "LIMIT"), Num(Int(count))))
  }

  /** `kql?.SELECT?.fields ?? []`. */
  function QueryFields(kql: Value): (r: Value)
    ensures IsNullish(Prop(Prop(kql, "SELECT"), "fields")) ==> r == Arr([])
  {
    NullishOr(Prop(Prop(kql, "SELECT"), "fields"), Arr([]))
  }

  /** The value `query` returns for the rows of an existing store. */
  function QueryRows(rows: seq<Row>, kql: Value): Result<Value, Error>
  {
    var fields := QueryFields(kql);
    match QueryLimit(kql, |rows|)
    case Err(e) => Err(e)
    case Ok(limit) =>
      match MapAll(ProjectWith(fields), rows[..SliceEnd(|rows|, limit)])
      case Err(e) => Err(e)
      case Ok(out) => Ok(RowsObject(out))
  }

  function IdbQuery(st: IdbState, store: Value, kql: Value): Outcome
  {
    match StoreKeyOf(store)
    case Err(e) => Outcome(st, Err(e))
    case Ok(k) =>
      if Inherited(st.db, k) then
        Outcome(st, match QueryLimit(kql, 0)
                    case Err(e) => Err(e)
                    case Ok(_) => Err(TypeError("rows.slice is not a function")))
      else
        var db := Ensured(st.db, k);
        Outcome(IdbState(db, st.writes), QueryRows(db[k], kql))
  }

  /* ---------------- properties ---------------- */

  /** The rows `ensure` finds under `k`: the store's, or none for a store that does not exist yet. */
  function StoreRows(db: map<StoreKey, seq<Row>>, k: StoreKey): seq<Row>
  {
    if k in db then db[k] else []
  }

  /** Seeding: a store holds the copied rows of the last seed entry with its name. */
  lemma {:induction false} SeedLastWins(entries: seq<Member>, i: nat)
    requires i < |entries|
    requires forall j :: i < j < |entries| ==> entries[j].key != entries[i].key
    ensures Named(entries[i].key) in SeedDb(entries)
    ensures SeedDb(entries)[Named(entries[i].key)] == SeedRows(entries[i].val)
    decreases |entries|
  {
    var n := |entries| - 1;
    var init := entries[..n];
    assert SeedDb(entries) == SeedDb(init)[Named(entries[n].key) := SeedRows(entries[n].val)];
    if i < n {
      assert init[i] == entries[i];
      forall j | i < j < |init|
        ensures init[j].key != init[i].key
      {
        assert init[j] == entries[j];
      }
      SeedLastWins(init, i);
      assert Named(entries[n].key) != Named(entries[i].key);
    }
  }

  /** The seeded stores are exactly the names of the seed entries. */
  lemma {:induction false} SeedKeys(entries: seq<Member>, k: StoreKey)
    ensures k in SeedDb(entries) <==> k.Named? && exists i :: 0 <= i < |entries| && entries[i].key == k.name
    decreases |entries|
  {
    if entries != [] {
      var n := |entries| - 1;
      var init := entries[..n];
      SeedKeys(init, k);
      assert forall i :: 0 <= i < n ==> init[i] == entries[i];
      if k.Named? && k.name != entries[n].key && (exists i :: 0 <= i < |entries| && entries[i].key == k.name) {
        var i :| 0 <= i < |entries| && entries[i].key == k.name;
        assert i < n;
      }
    }
  }

  /** Seeding copies each element of an array: a seeded object row keeps its own members. */
  lemma SeedRowsCopy(rows: Value, j: nat)
    requires rows.Arr? && j < |rows.items| && rows.items[j].Obj?
    ensures SeedRows(rows)[j] == rows.items[j].fields
  {
  }

  /** A put fails exactly when the store name cannot be converted or names an inherited member, and then changes nothing. */
  lemma PutFails(st: IdbState, store: Value, value: Value)
    ensures IdbPut(st, store, value).result.Err? <==>
              StoreKeyOf(store).Err? || Inherited(st.db, StoreKeyOf(store).value)
    ensures IdbPut(st, store, value).result.Err? ==> IdbPut(st, store, value).state == st
  {
  }

  /**
   * A successful put appends exactly one row, the one it returns, to its store and one entry to
   * the write log; every other store is left as it was.
   */
  lemma PutAppends(st: IdbState, store: Value, value: Value)
    requires IdbPut(st, store, value).result.Ok?
    ensures var o := IdbPut(st, store, value);
            var k := StoreKeyOf(store).value;
            o.result.value.Obj? && k in o.state.db &&
            o.state.db[k] == StoreRows(st.db, k) + [o.result.value.fields] &&
            o.state.writes == st.writes + [WriteEntry(store, o.result.value.fields)] &&
            |o.state.writes| == |st.writes| + 1
    ensures var o := IdbPut(st, store, value);
            var k := StoreKeyOf(store).value;
            forall k' :: k' != k ==> (k' in o.state.db <==> k' in st.db) &&
                                     (k' in st.db ==> o.state.db[k'] == st.db[k'])
  {
    var k := StoreKeyOf(store).value;
    forall k' | k' != k
      ensures k' in IdbPut(st, store, value).state.db <==> k' in st.db
      ensures k' in st.db ==> IdbPut(st, store, value).state.db[k'] == st.db[k']
    {
      EnsuredOthers(st.db, k, k');
    }
  }

  /**
   * The stored row always has a truthy `id`: the value's own when that is truthy, otherwise the
   * decimal string of the store's new length. Every other property is the value's.
   */
  lemma PutId(st: IdbState, store: Value, value: Value)
    requires IdbPut(st, store, value).result.Ok?
    ensures var row := IdbPut(st, store, value).result.value;
            var n := |StoreRows(st.db, StoreKeyOf(store).value)|;
            Truthy(Prop(row, "id")) &&
            (Truthy(Prop(SpreadCopy(value), "id")) ==> Prop(row, "id") == Prop(SpreadCopy(value), "id")) &&
            (!Truthy(Prop(SpreadCopy(value), "id")) ==> Prop(row, "id") == Str(NatToDecimal(n + 1)))
    ensures var row := IdbPut(st, store, value).result.value;
            forall key :: key != "id" ==> Prop(row, key) == Prop(SpreadCopy(value), key)
  {
    var k := StoreKeyOf(store).value;
    var count := |Ensured(st.db, k)[k]|;
    assert count == |StoreRows(st.db, k)|;
    assert IdbPut(st, store, value).result.value == Obj(NewRow(value, count));
    NewRowId(value, count);
  }

  /** The row a put stores: its own truthy `id` kept, or the next number given as one. */
  lemma NewRowId(value: Value, count: nat)
    ensures var row := Obj(NewRow(value, count));
            var v := SpreadCopy(value);
            && Truthy(Prop(row, "id"))
            && (Truthy(Prop(v, "id")) ==> Prop(row, "id") == Prop(v, "id"))
            && (!Truthy(Prop(v, "id")) ==> Prop(row, "id") == Str(NatToDecimal(count + 1)))
            && forall key :: key != "id" ==> Prop(row, key) == Prop(v, key)
  {
  }

  /** A get fails exactly when the store name cannot be converted or names an inherited member. */
  lemma GetFails(st: IdbState, store: Value, key: Value)
    ensures IdbGet(st, store, key).result.Err? <==>
              StoreKeyOf(store).Err? || Inherited(st.db, StoreKeyOf(store).value)
  {
  }

  /**
   * A get returns the first row of the store whose `id` is strictly equal to the key, or null when
   * there is none.
   */
  lemma GetFirst(st: IdbState, store: Value, key: Value)
    requires IdbGet(st, store, key).result.Ok?
    ensures var rows := StoreRows(st.db, StoreKeyOf(store).value);
            var v := IdbGet(st, store, key).result.value;
            (v == Null <==> forall j :: 0 <= j < |rows| ==> !StrictEq(Prop(Obj(rows[j]), "id"), key)) &&
            (v != Null ==> exists i :: 0 <= i < |rows| && v == Obj(rows[i]) &&
                                       StrictEq(Prop(Obj(rows[i]), "id"), key) &&
                                       forall j :: 0 <= j < i ==> !StrictEq(Prop(Obj(rows[j]), "id"), key))
  {
    var rows := StoreRows(st.db, StoreKeyOf(store).value);
    match FindRow(rows, key)
    case None =>
    case Some(i) => assert Obj(rows[i]) != Null;
  }

  /**
   * Reads never write: `get` and `query` leave the write log as it was and every existing store's
   * rows as they were; at most they create the store they name.
   */
  lemma ReadsKeepRows(st: IdbState, store: Value, key: Value, kql: Value)
    ensures IdbGet(st, store, key).state.writes == st.writes
    ensures IdbQuery(st, store, kql).state.writes == st.writes
    ensures forall k :: k in st.db ==>
              k in IdbGet(st, store, key).state.db && IdbGet(st, store, key).state.db[k] == st.db[k]
    ensures forall k :: k in st.db ==>
              k in IdbQuery(st, store, kql).state.db && IdbQuery(st, store, kql).state.db[k] == st.db[k]
  {
    if StoreKeyOf(store).Ok? {
      var k := StoreKeyOf(store).value;
      forall k' | k' in st.db && k' != k
        ensures k' in Ensured(st.db, k) && Ensured(st.db, k)[k'] == st.db[k']
      {
        EnsuredOthers(st.db, k, k');
      }
    }
  }

  /** A row put with a primitive `id` is found again by a get under that `id`. */
  lemma PutThenGet(st: IdbState, store: Value, value: Value)
    requires IdbPut(st, store, value).result.Ok?
    requires var id := Prop(IdbPut(st, store, value).result.value, "id"); StrictEq(id, id)
    ensures var o := IdbPut(st, store, value);
            var id := Prop(o.result.value, "id");
            var g := IdbGet(o.state, store, id);
            g.state == o.state && g.result.Ok? && g.result.value.Obj? &&
            StrictEq(Prop(g.result.value, "id"), id)
  {
    var o := IdbPut(st, store, value);
    var k := StoreKeyOf(store).value;
    var id := Prop(o.result.value, "id");
    var rows := o.state.db[k];
    assert rows[|rows| - 1] == o.result.value.fields;
    assert StrictEq(Prop(Obj(rows[|rows| - 1]), "id"), id);
    assert FindRow(rows, id).Some?;
  }

  /** A query fails on an inherited store name after reading `LIMIT`, and leaves the table as it was. */
  lemma QueryInherited(st: IdbState, store: Value, kql: Value)
    requires StoreKeyOf(store).Ok? && Inherited(st.db, StoreKeyOf(store).value)
    ensures IdbQuery(st, store, kql).result.Err? && IdbQuery(st, store, kql).state == st
  {
  }

  /**
   * A query returns the store's first rows in order, each projected, never more than the store
   * holds, and exactly `LIMIT` of them (capped at the store's size) for a non-negative integer `LIMIT`.
   */
  lemma QueryPrefix(rows: seq<Row>, kql: Value) returns (out: seq<Row>)
    requires QueryRows(rows, kql).Ok?
    ensures QueryRows(rows, kql) == Ok(RowsObject(out))
    ensures |out| <= |rows|
    ensures forall i :: 0 <= i < |out| ==> ProjectRow(rows[i], QueryFields(kql)) == Ok(out[i])
    ensures IsNullish(Prop(kql, "LIMIT")) ==> |out| == |rows|
    ensures forall m: nat :: Prop(kql, "LIMIT") == Num(Int(m)) ==> |out| == if m < |rows| then m else |rows|
  {
    var limit := QueryLimit(kql, |rows|).value;
    var n := SliceEnd(|rows|, limit);
    out := MapAll(ProjectWith(QueryFields(kql)), rows[..n]).value;
    if IsNullish(Prop(kql, "LIMIT")) {
      SliceEndNat(|rows|, |rows|);
    }
    forall m: nat | Prop(kql, "LIMIT") == Num(Int(m))
      ensures |out| == if m < |rows| then m else |rows|
    {
      assert limit == Finite(m as real);
      SliceEndNat(|rows|, m);
    }
  }

  /** With no `SELECT.fields` and no `LIMIT`, a query returns every row of the store unchanged. */
  lemma QueryAll(rows: seq<Row>, kql: Value)
    requires IsNullish(Prop(Prop(kql, "SELECT"), "fields")) && IsNullish(Prop(kql, "LIMIT"))
    ensures QueryRows(rows, kql) == Ok(RowsObject(rows))
  {
    SliceEndNat(|rows|, |rows|);
    assert rows[..|rows|] == rows;
    var m := MapAll(ProjectWith(Arr([])), rows);
    assert forall i :: 0 <= i < |rows| ==> ProjectWith(Arr([]))(rows[i]) == Ok(rows[i]);
    assert m.Ok? && m.value == rows;
  }

  /**
   * Projecting onto string fields sets each listed field to the row's value and leaves every
   * other member of the partial result alone.
   */
  lemma {:induction false} ProjectFieldsKeys(row: Row, fs: seq<Value>, out: Row)
    requires forall i :: 0 <= i < |fs| ==> fs[i].Str?
    ensures ProjectFields(row, fs, out).Ok?
    ensures forall f :: Str(f) in fs ==> Lookup(ProjectFields(row, fs, out).value, f) == Some(Prop(Obj(row), f))
    ensures forall f :: Str(f) !in fs ==> Lookup(ProjectFields(row, fs, out).value, f) == Lookup(out, f)
    decreases |fs|
  {
    if fs != [] {
      var f0 := fs[0].s;
      var next := SetField(out, f0, Prop(Obj(row), f0));
      assert ToJsString(fs[0]) == Ok(f0);
      assert ProjectFields(row, fs, out) == ProjectFields(row, fs[1..], next);
      ProjectFieldsKeys(row, fs[1..], next);
      assert forall f :: Str(f) in fs <==> f == f0 || Str(f) in fs[1..];
    }
  }

  /**
   * `project(row, fields)` for a non-empty array of field names: exactly the listed properties,
   * each with the row's value (`undefined` for one the row lacks).
   */
  lemma ProjectNames(row: Row, fs: seq<Value>)
    requires fs != [] && forall i :: 0 <= i < |fs| ==> fs[i].Str?
    ensures ProjectRow(row, Arr(fs)).Ok?
    ensures forall f :: Lookup(ProjectRow(row, Arr(fs)).value, f) ==
                          (if Str(f) in fs then Some(Prop(Obj(row), f)) else None)
  {
    assert Truthy(Prop(Arr(fs), "length"));
    assert ProjectRow(row, Arr(fs)) == ProjectFields(row, fs, []);
    ProjectFieldsKeys(row, fs, []);
  }

  /**
   * The projected object keeps an ordinary object's property order: the loop assigns into a
   * fresh `{}`, so array-index fields come first in ascending order and the other fields follow
   * in the order the field list names them.
   */
  lemma {:induction false} ProjectFieldsOrder(row: Row, fs: seq<Value>, out: Row)
    requires IndexKeysFirst(out) && ProjectFields(row, fs, out).Ok?
    ensures IndexKeysFirst(ProjectFields(row, fs, out).value)
    decreases |fs|
  {
    if fs != [] && !fs[0].Sym? {
      var key := ToJsString(fs[0]).value;
      SetFieldOrder(out, key, Prop(Obj(row), key));
      ProjectFieldsOrder(row, fs[1..], SetField(out, key, Prop(Obj(row), key)));
    } else if fs != [] {
      ProjectFieldsOrder(row, fs[1..], out);
    }
  }

  /** `project(row, fields)` of an ordinary object is ordered as an ordinary object is. */
  lemma ProjectOrder(row: Row, fields: Value)
    requires IndexKeysFirst(row) && ProjectRow(row, fields).Ok?
    ensures IndexKeysFirst(ProjectRow(row, fields).value)
  {
    if Truthy(fields) && Truthy(Prop(fields, "length")) {
      ProjectFieldsOrder(row, FieldItems(fields).value, []);
    }
  }

  /** Selecting `["name", "1"]` lists `"1"` first, as a JavaScript object does. */
  lemma ProjectIndexFirst(row: Row)
    ensures ProjectRow(row, Arr([Str("name"), Str("1")])) ==
              Ok([Member("1", Prop(Obj(row), "1")), Member("name", Prop(Obj(row), "name"))])
  {
    var fs := [Str("name"), Str("1")];
    var name := Member("name", Prop(Obj(row), "name"));
    assert Truthy(Prop(Arr(fs), "length"));
    assert ProjectRow(row, Arr(fs)) == ProjectFields(row, fs, []);
    ProjectFieldsStep(row, fs, 0, []);
    assert !IsIndexKey("name");
    assert SetField([], "name", Prop(Obj(row), "name")) == [name];
    ProjectFieldsStep(row, fs, 1, [name]);
    IndexBeforeName(name, "1", Prop(Obj(row), "1"));
    assert fs[2..] == [];
  }

  /** A new index key goes in front of a lone non-index member. */
  lemma IndexBeforeName(m: Member, k: string, x: Value)
    requires !IsIndexKey(m.key) && m.key != k && IsIndexKey(k)
    ensures SetField([m], k, x) == [Member(k, x), m]
  {
    assert Lookup([m], k).None?;
  }
}
