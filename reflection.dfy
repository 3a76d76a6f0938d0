/**
 * What the core needs of Go's `reflect` package, made explicit: kinds, struct
 * types with their fields, values of those types, and reading and writing a
 * field addressed by its index path (`reflect.Value.FieldByIndex`).
 */
module Reflect {
  import opened Wrappers

  /** `reflect.Kind`, every constant of it. */
  datatype Kind =
    | Invalid | Bool | Int | Int8 | Int16 | Int32 | Int64
    | Uint | Uint8 | Uint16 | Uint32 | Uint64 | Uintptr
    | Float32 | Float64 | Complex64 | Complex128
    | Array | Chan | Func | Interface | Map | Ptr | Slice | String | Struct | UnsafePointer

  /** `reflect.Kind.String()`. */
  function KindName(k: Kind): string {
    match k
    case Invalid => "invalid"
    case Bool => "bool"
    case Int => "int"
    case Int8 => "int8"
    case Int16 => "int16"
    case Int32 => "int32"
    case Int64 => "int64"
    case Uint => "uint"
    case Uint8 => "uint8"
    case Uint16 => "uint16"
    case Uint32 => "uint32"
    case Uint64 => "uint64"
    case Uintptr => "uintptr"
    case Float32 => "float32"
    case Float64 => "float64"
    case Complex64 => "complex64"
    case Complex128 => "complex128"
    case Array => "array"
    case Chan => "chan"
    case Func => "func"
    case Interface => "interface"
    case Map => "map"
    case Ptr => "ptr"
    case Slice => "slice"
    case String => "string"
    case Struct => "struct"
    case UnsafePointer => "unsafe.Pointer"
  }

  /**
   * A Go type. `StructT` is a struct type with its fields in declaration order.
   * `Prim(k, false)` is the predeclared type of kind `k` (or, for kinds such as
   * slice or map, some type of that kind); `Prim(Int64, true)` is `time.Duration`,
   * told apart from `int64` by identity, not by kind.
   */
  datatype Type = StructT(fields: seq<Field>) | Prim(kind: Kind, isDuration: bool)

  /** A `reflect.StructField`: `tag` is what `Tag.Get("flag")` returns, so "" when absent. */
  datatype Field = Field(name: string, exported: bool, tag: string, typ: Type)

  /** `reflect.Type.Kind()`. */
  function KindOf(t: Type): Kind {
    if t.StructT? then Struct else t.kind
  }

  /** The types Go can have: only struct types have kind Struct, and only int64 underlies a Duration. */
  predicate WfType(t: Type)
    decreases t
  {
    match t
    case StructT(fs) => forall i :: 0 <= i < |fs| ==> WfType(fs[i].typ)
    case Prim(k, d) => k != Struct && k != Invalid && (d ==> k == Int64)
  }

  /** A value of one of the types a flag can hold (the dynamic type of a default value or a slot). */
  datatype FlagValue =
    | BoolV(b: bool)
    | IntV(i: int)
    | Int64V(i: int)
    | UintV(u: nat)
    | Uint64V(u: nat)
    | Float64V(bits: bv64)
    | StringV(s: string)
    | DurationV(ns: int)

  /** The Go type of a flag value. */
  function TypeOf(v: FlagValue): (t: Type)
    ensures t.Prim? && IsFlagType(t)
  {
    match v
    case BoolV(_) => Prim(Bool, false)
    case IntV(_) => Prim(Int, false)
    case Int64V(_) => Prim(Int64, false)
    case UintV(_) => Prim(Uint, false)
    case Uint64V(_) => Prim(Uint64, false)
    case Float64V(_) => Prim(Float64, false)
    case StringV(_) => Prim(String, false)
    case DurationV(_) => Prim(Int64, true)
  }

  /** The types whose values a `FlagValue` holds. */
  predicate IsFlagType(t: Type) {
    && t.Prim?
    && (t.isDuration ==> t.kind == Int64)
    && t.kind in {Bool, Int, Int64, Uint, Uint64, Float64, String}
  }

  /** A Go value: a struct value with one value per field, a flag value, or a value of any other type. */
  datatype Value = StructV(fields: seq<Value>) | Scalar(v: FlagValue) | Opaque

  /** `v` is a value of type `t`. */
  predicate HasType(v: Value, t: Type)
    decreases t
  {
    match t
    case StructT(fs) =>
      && v.StructV?
      && |v.fields| == |fs|
      && forall i :: 0 <= i < |fs| ==> HasType(v.fields[i], fs[i].typ)
    case Prim(_, _) =>
      if IsFlagType(t) then v.Scalar? && TypeOf(v.v) == t else v.Opaque?
  }

  /** The field that the index path `p` reaches from struct type `t` (`reflect.Type.FieldByIndex`). */
  function FieldAt(t: Type, p: seq<nat>): Option<Field>
    decreases |p|
  {
    if |p| == 0 || !t.StructT? || p[0] >= |t.fields| then None
    else if |p| == 1 then Some(t.fields[p[0]])
    else FieldAt(t.fields[p[0]].typ, p[1..])
  }

  /** The value at index path `p` inside `v` (`reflect.Value.FieldByIndex`); None where Go would panic. */
  function GetAt(v: Value, p: seq<nat>): Option<Value>
    decreases |p|
  {
    if p == [] then Some(v)
    else if v.StructV? && p[0] < |v.fields| then GetAt(v.fields[p[0]], p[1..])
    else None
  }

  /**
   * `v` with the value at index path `p` replaced by `x`
   * (`v.FieldByIndex(p).Set(x)`); a path that reaches nothing leaves `v` as it is.
   */
  function SetAt(v: Value, p: seq<nat>, x: Value): (r: Value)
    ensures GetAt(v, p).Some? ==> GetAt(r, p) == Some(x)
    ensures GetAt(v, p).None? ==> r == v
    ensures p != [] && v.StructV? ==> r.StructV? && |r.fields| == |v.fields|
    decreases |p|
  {
    if p == [] then x
    else if v.StructV? && p[0] < |v.fields| then
      StructV(v.fields[p[0] := SetAt(v.fields[p[0]], p[1..], x)])
    else v
  }

  /** Index path `p` comes strictly before `q` in declaration order and neither extends the other. */
  predicate Precedes(p: seq<nat>, q: seq<nat>)
    decreases |p|
  {
    |p| > 0 && |q| > 0 && (p[0] < q[0] || (p[0] == q[0] && Precedes(p[1..], q[1..])))
  }

  /** The paths `p` and `q` address disjoint parts of a value. */
  predicate Disjoint(p: seq<nat>, q: seq<nat>) {
    Precedes(p, q) || Precedes(q, p)
  }

  /** Putting the same first index in front of two paths keeps their order. */
  lemma PrecedesCons(i: nat, p: seq<nat>, q: seq<nat>)
    ensures Precedes([i] + p, [i] + q) <==> Precedes(p, q)
  {
    assert ([i] + p)[1..] == p && ([i] + q)[1..] == q;
  }

  /** Writing at one path leaves what lies at a disjoint path as it was. */
  lemma {:induction false} GetSetOther(v: Value, p: seq<nat>, q: seq<nat>, x: Value)
    requires Disjoint(p, q)
    ensures GetAt(SetAt(v, q, x), p) == GetAt(v, p)
    decreases |p|
  {
    if v.StructV? && q[0] < |v.fields| && p[0] < |v.fields| && p[0] == q[0] {
      GetSetOther(v.fields[p[0]], p[1..], q[1..], x);
    }
  }

  /** `GetSetOther` for every path disjoint from `q` at once. */
  lemma GetSetOthers(v: Value, q: seq<nat>, x: Value)
    ensures forall p :: Disjoint(p, q) ==> GetAt(SetAt(v, q, x), p) == GetAt(v, p)
  {
    forall p | Disjoint(p, q) ensures GetAt(SetAt(v, q, x), p) == GetAt(v, p) {
      GetSetOther(v, p, q, x);
    }
  }

  /** Writes at disjoint paths commute. */
  lemma {:induction false} SetSetCommute(v: Value, p: seq<nat>, x: Value, q: seq<nat>, y: Value)
    requires Disjoint(p, q)
    ensures SetAt(SetAt(v, p, x), q, y) == SetAt(SetAt(v, q, y), p, x)
    decreases |p|
  {
    if v.StructV? && p[0] < |v.fields| && q[0] < |v.fields| {
      if p[0] == q[0] {
        SetSetCommute(v.fields[p[0]], p[1..], x, q[1..], y);
      } else {
        assert v.fields[p[0] := SetAt(v.fields[p[0]], p[1..], x)][q[0] := SetAt(v.fields[q[0]], q[1..], y)]
            == v.fields[q[0] := SetAt(v.fields[q[0]], q[1..], y)][p[0] := SetAt(v.fields[p[0]], p[1..], x)];
      }
    }
  }

  /** A second write at the same path overrides the first. */
  lemma {:induction false} SetSetSame(v: Value, p: seq<nat>, x: Value, y: Value)
    ensures SetAt(SetAt(v, p, x), p, y) == SetAt(v, p, y)
    decreases |p|
  {
    if p != [] && v.StructV? && p[0] < |v.fields| {
      SetSetSame(v.fields[p[0]], p[1..], x, y);
      assert v.fields[p[0] := SetAt(v.fields[p[0]], p[1..], x)][p[0] := SetAt(SetAt(v.fields[p[0]], p[1..], x), p[1..], y)]
          == v.fields[p[0] := SetAt(v.fields[p[0]], p[1..], y)];
    }
  }

  /** Writing back what a path already holds changes nothing. */
  lemma {:induction false} SetGetSame(v: Value, p: seq<nat>, x: Value)
    requires GetAt(v, p) == Some(x)
    ensures SetAt(v, p, x) == v
    decreases |p|
  {
    if p != [] {
      SetGetSame(v.fields[p[0]], p[1..], x);
      assert v.fields[p[0] := v.fields[p[0]]] == v.fields;
    }
  }

  /** In a value of type `t`, every path that reaches a field of `t` reaches a value of that field's type. */
  lemma {:induction false} TypedGet(v: Value, t: Type, p: seq<nat>)
    requires HasType(v, t) && FieldAt(t, p).Some?
    ensures GetAt(v, p).Some? && HasType(GetAt(v, p).value, FieldAt(t, p).value.typ)
    decreases |p|
  {
    if |p| > 1 {
      TypedGet(v.fields[p[0]], t.fields[p[0]].typ, p[1..]);
    }
  }

  /** Writing a value of the field's type at a field's path keeps a value of type `t` well typed. */
  lemma {:induction false} TypedSet(v: Value, t: Type, p: seq<nat>, x: Value)
    requires HasType(v, t) && FieldAt(t, p).Some? && HasType(x, FieldAt(t, p).value.typ)
    ensures HasType(SetAt(v, p, x), t)
    decreases |p|
  {
    var i := p[0];
    if |p| > 1 {
      TypedSet(v.fields[i], t.fields[i].typ, p[1..], x);
    }
    var r := SetAt(v, p, x);
    assert r.fields == v.fields[i := SetAt(v.fields[i], p[1..], x)];
    forall j | 0 <= j < |t.fields| ensures HasType(r.fields[j], t.fields[j].typ) {
      if j == i {
        assert |p| == 1 ==> SetAt(v.fields[i], p[1..], x) == x;
      }
    }
  }

  /** Fields of a Go type have Go types. */
  lemma {:induction false} WfFieldAt(t: Type, p: seq<nat>)
    requires WfType(t) && FieldAt(t, p).Some?
    ensures WfType(FieldAt(t, p).value.typ)
    decreases |p|
  {
    if |p| > 1 {
      WfFieldAt(t.fields[p[0]].typ, p[1..]);
    }
  }
}
