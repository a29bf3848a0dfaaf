/** Rows in flight between plan nodes: column-ordered cells under a schema. */
module Chunks {
  import opened Keys
  import opened SortedEntries
  import opened Values
  import opened Expressions

  datatype ColumnDef = ColumnDef(name: Str, typ: DataType)

  type Schema = seq<ColumnDef>

  type Chunk = seq<Cells>

  ghost predicate Shaped(chunk: Chunk, schema: Schema) {
    forall i :: 0 <= i < |chunk| ==> |chunk[i]| == |schema|
  }

  ghost predicate AllShaped(chunks: seq<Chunk>, schema: Schema) {
    forall i :: 0 <= i < |chunks| ==> Shaped(chunks[i], schema)
  }

  function Flatten<T>(chunks: seq<seq<T>>): seq<T> {
    if chunks == [] then [] else chunks[0] + Flatten(chunks[1..])
  }

  lemma {:induction false} FlattenSnoc<T>(chunks: seq<seq<T>>, last: seq<T>)
    ensures Flatten(chunks + [last]) == Flatten(chunks) + last
  {
    if chunks == [] {
      assert Flatten([last]) == last + Flatten([]);
    } else {
      assert (chunks + [last])[1..] == chunks[1..] + [last];
      FlattenSnoc(chunks[1..], last);
    }
  }

  lemma {:induction false} FlattenShaped(chunks: seq<Chunk>, schema: Schema)
    requires AllShaped(chunks, schema)
    ensures Shaped(Flatten(chunks), schema)
  {
    if chunks != [] { FlattenShaped(chunks[1..], schema); }
  }

  /** Column names to values, as expressions read a row; of two columns with the same name
      the later one wins. */
  function RowValues(schema: Schema, cells: Cells): RowMap
    requires |cells| == |schema|
  {
    if schema == [] then map[]
    else
      var n := |schema| - 1;
      RowValues(schema[..n], cells[..n])[schema[n].name := cells[n]]
  }

  /** Where `name` stands in the schema: the last column of that name. */
  function ColIndex(schema: Schema, name: Str): (r: Option<nat>)
    ensures r.Some? ==> r.value < |schema| && schema[r.value].name == name
    ensures r.None? ==> forall i :: 0 <= i < |schema| ==> schema[i].name != name
  {
    if schema == [] then None
    else if schema[|schema| - 1].name == name then Some(|schema| - 1)
    else ColIndex(schema[..|schema| - 1], name)
  }

  /** Looking a column up by name in the row map is reading the cell at its index. */
  lemma {:induction false} RowValuesByIndex(schema: Schema, cells: Cells, name: Str)
    requires |cells| == |schema|
    ensures name in RowValues(schema, cells) <==> ColIndex(schema, name).Some?
    ensures ColIndex(schema, name).Some? ==> RowValues(schema, cells)[name] == cells[ColIndex(schema, name).value]
  {
    if schema != [] {
      var n := |schema| - 1;
      RowValuesByIndex(schema[..n], cells[..n], name);
    }
  }

  /** The executor's conversion to a column's type; a value it cannot convert stays as it is. */
  function Coerce(fp: FloatOps, v: Value, target: DataType): Value {
    if !v.valid then NewNull
    else if v.typ == target then v
    else if target.IsIntFamily() then
      if v.typ.IsIntFamily() || v.typ.TypeBool? then NewIntFamilyValue(target, v.num)
      else if v.typ.TypeFloat64? then NewIntFamilyValue(target, fp.toInt(v.flt))
      else v
    else match target
      case TypeFloat64 => if v.typ.IsIntFamily() || v.typ.TypeBool? then NewFloat64(fp.ofInt(v.num)) else v
      case TypeBool => NewBool(IsTruthy(fp, v))
      case _ => v
  }

  /** Can a column of this type be made to hold the value? NULL and its own type always; numbers and truth values
      go into integer columns, integers and truth values into FLOAT64, everything into BOOL. */
  predicate Storable(typ: DataType, v: Value) {
    || !v.valid || v.typ == typ || typ.TypeBool?
    || (typ.IsIntFamily() && (v.typ.IsIntFamily() || v.typ.TypeBool? || v.typ.TypeFloat64?))
    || (typ.TypeFloat64? && (v.typ.IsIntFamily() || v.typ.TypeBool?))
  }

  /** Said of the parts: `cell` is the value as a column of this type holds it, converted where the types differ. */
  ghost predicate Stores(fp: FloatOps, typ: DataType, v: Value, cell: Value) {
    && Storable(typ, v)
    && if !v.valid || v.typ == typ || (v.typ.IsIntFamily() && typ.IsIntFamily()) then Shows(typ, v, cell)
       else
         && cell.valid && cell.typ == typ
         && (typ.IsIntFamily() ==> cell.num == if v.typ.TypeFloat64? then fp.toInt(v.flt) else v.num)
         && (typ.TypeFloat64? ==> cell.flt == fp.ofInt(v.num))
         && (typ.TypeBool? ==> (cell.num != 0 <==> IsTruthy(fp, v)))
  }

  /** A converted value fits its column exactly when the value is storable, and is then stored as such. */
  lemma CoerceStores(fp: FloatOps, typ: DataType, v: Value)
    ensures Accepts(typ, Coerce(fp, v, typ)) <==> Storable(typ, v)
    ensures Storable(typ, v) ==> Stores(fp, typ, v, Kept(typ, Coerce(fp, v, typ)))
  {
  }

  // ----- rows picked from a list -----

  ghost predicate Places(idx: seq<nat>, n: nat) {
    && (forall k :: 0 <= k < |idx| ==> idx[k] < n)
    && forall k, l :: 0 <= k < l < |idx| ==> idx[k] < idx[l]
  }

  /** No more places than rows. */
  lemma {:induction false} PlacesBound(idx: seq<nat>, n: nat)
    requires Places(idx, n)
    ensures |idx| <= n
  {
    if idx != [] { PlacesBound(idx[..|idx| - 1], idx[|idx| - 1]); }
  }

  /** The last place is the greatest; the others come before it. */
  lemma LastPlace(idx: seq<nat>, n: nat)
    requires Places(idx, n) && idx != []
    ensures var last, rest := idx[|idx| - 1], idx[..|idx| - 1];
      && last in idx && Places(rest, last) && (forall q: nat :: q in idx ==> q <= last)
      && (forall q: nat :: q in rest <==> q in idx && q != last)
      && idx == rest + [last]
  {
  }

  lemma SomePlace(idx: seq<nat>)
    ensures idx == [] <==> forall q: nat :: q !in idx
  {
    if idx != [] { assert idx[0] in idx; }
  }

  lemma {:induction false} PlacesUnique(idx: seq<nat>, other: seq<nat>, n: nat)
    requires Places(idx, n) && Places(other, n) && forall q: nat :: q in idx <==> q in other
    ensures idx == other
    decreases |idx|
  {
    hide Places;
    SomePlace(idx);
    SomePlace(other);
    if idx != [] {
      LastPlace(idx, n);
      LastPlace(other, n);
      var last := idx[|idx| - 1];
      assert other[|other| - 1] == last;
      PlacesUnique(idx[..|idx| - 1], other[..|other| - 1], last);
    }
  }

  /** `picked` are the rows at the places `idx` names, in their order. */
  ghost predicate PicksAt<T>(rows: seq<T>, idx: seq<nat>, picked: seq<T>) {
    Places(idx, |rows|) && |picked| == |idx| && forall k :: 0 <= k < |idx| ==> picked[k] == rows[idx[k]]
  }

  lemma NothingPicked<T>()
    ensures PicksAt<T>([], [], [])
  {
  }

  lemma PickLast<T>(rows: seq<T>, idx: seq<nat>, picked: seq<T>, take: bool) returns (more: seq<nat>)
    requires rows != [] && PicksAt(rows[..|rows| - 1], idx, picked)
    ensures PicksAt(rows, more, picked + if take then [rows[|rows| - 1]] else [])
    ensures forall q: nat :: q in more <==> q in idx || (take && q == |rows| - 1)
  {
    more := if take then idx + [|rows| - 1] else idx;
  }

  function Shifted(idx: seq<nat>): (r: seq<nat>)
    ensures |r| == |idx| && forall k :: 0 <= k < |idx| ==> r[k] == idx[k] + 1
  {
    seq(|idx|, k requires 0 <= k < |idx| => idx[k] + 1)
  }

  lemma ShiftedMembers(idx: seq<nat>, q: nat)
    ensures q in Shifted(idx) <==> q > 0 && q - 1 in idx
  {
    if q > 0 && q - 1 in idx {
      var k :| 0 <= k < |idx| && idx[k] == q - 1;
      assert Shifted(idx)[k] == q;
    }
  }

  lemma PickRest<T>(rows: seq<T>, idx: seq<nat>, picked: seq<T>)
    requires rows != [] && PicksAt(rows[1..], idx, picked)
    ensures PicksAt(rows, Shifted(idx), picked) && PicksAt(rows, [0] + Shifted(idx), [rows[0]] + picked)
  {
    hide Shifted;
    var s := Shifted(idx);
    forall k | 0 <= k < |s| ensures picked[k] == rows[s[k]] && s[k] < |rows| { assert rows[1..][idx[k]] == rows[idx[k] + 1]; }
  }

  lemma PickFirst<T>(rows: seq<T>, idx: seq<nat>, picked: seq<T>, take: bool) returns (more: seq<nat>)
    requires rows != [] && PicksAt(rows[1..], idx, picked)
    ensures PicksAt(rows, more, (if take then [rows[0]] else []) + picked)
    ensures forall q: nat :: q in more <==> (take && q == 0) || (q > 0 && q - 1 in idx)
  {
    hide PicksAt, Shifted;
    more := if take then [0] + Shifted(idx) else Shifted(idx);
    PickRest(rows, idx, picked);
    assert [] + picked == picked;
    forall q: nat ensures q in more <==> (take && q == 0) || (q > 0 && q - 1 in idx) {
      ShiftedMembers(idx, q);
    }
  }
}
