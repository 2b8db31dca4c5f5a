/**
 Conversion between Go maps and protobuf Struct trees, in both directions.

 Pointers that can be nil are constructors of their own, and None is a run-time panic. Floats are
 reals; an integer becomes the nearest float64 by Float64 below.
 */
module ProtoStruct {
  import opened Std

  /** *structpb.Value, *structpb.Struct and *structpb.ListValue */
  datatype Value =
    | NilValue
    | NoKind
    | NullValue
    | NumberValue(n: real)
    | StringValue(s: string)
    | BoolValue(b: bool)
    | StructValue(st: Struct)
    | ListValue(l: List)

  datatype Struct = NilStruct | Struct(fields: map<string, Value>)

  datatype List = NilList | List(values: seq<Value>)

  /** interface{} with the dynamic types the conversions meet, and map[string]interface{} */
  datatype Any =
    | Nil
    | Bool(b: bool)
    | Int(i: int)
    | Float(r: real)
    | String(s: string)
    | Slice(items: seq<Any>)
    | Map(m: GoMap)

  datatype GoMap = NilMap | MapOf(entries: map<string, Any>)

  // ---------------------------------------------------------------- float64 of an integer

  const PRECISION := 0x20_0000_0000_0000

  /** The spacing of floats around n: the least power of two, from unit on, that leaves 53 bits. */
  function Spacing(n: nat, unit: nat): (u: nat)
    requires unit >= 1
    ensures u >= unit && n < PRECISION * u && (u > unit ==> 2 * n >= PRECISION * u)
    decreases n - unit
  {
    if n < PRECISION * unit then unit else Spacing(n, 2 * unit)
  }

  /** Round to nearest, ties to even. */
  function RoundNat(n: nat): nat {
    var u := Spacing(n, 1);
    var q, r := n / u, n % u;
    if 2 * r > u || (2 * r == u && q % 2 == 1) then (q + 1) * u else q * u
  }

  function Float64(i: int): real {
    if i >= 0 then RoundNat(i) as real else -(RoundNat(-i) as real)
  }

  function Abs(i: int): nat {
    if i >= 0 then i else -i
  }

  /** The floats around i count it: it is a multiple of their spacing. */
  predicate IsFloat(i: int) {
    Abs(i) % Spacing(Abs(i), 1) == 0
  }

  lemma RoundNatExactly(n: nat)
    ensures RoundNat(n) == n <==> n % Spacing(n, 1) == 0
  {
    var u := Spacing(n, 1);
    Quotient(n, u);
  }

  /** The result is a multiple of the spacing u of floats around n, none is nearer, and of two an even one. */
  lemma RoundsToNearest(n: nat) returns (k: nat)
    ensures var u, r := Spacing(n, 1), RoundNat(n);
            && r == k * u && 2 * (r - n) <= u && 2 * (n - r) <= u
            && (2 * (r - n) == u || 2 * (n - r) == u ==> k % 2 == 0)
  {
    var u := Spacing(n, 1);
    var q, r := n / u, n % u;
    Quotient(n, u);
    k := if 2 * r > u || (2 * r == u && q % 2 == 1) then q + 1 else q;
  }

  lemma Quotient(n: nat, u: nat)
    requires u >= 1
    ensures n == (n / u) * u + n % u && (n / u + 1) * u == (n / u) * u + u && 0 <= n % u < u
  {
  }

  lemma Float64Odd(i: int)
    ensures Float64(-i) == -Float64(i)
  {
  }

  lemma Float64Exactly(i: int)
    ensures Float64(i) == i as real <==> IsFloat(i)
  {
    RoundNatExactly(Abs(i));
  }

  /** All integers that 53 bits hold are floats; 2^53 itself is even. */
  lemma SmallIsFloat(i: int)
    requires -PRECISION <= i <= PRECISION
    ensures IsFloat(i)
  {
    if Abs(i) == PRECISION {
      assert Spacing(PRECISION, 1) == Spacing(PRECISION, 2) == 2;
    }
  }

  // ---------------------------------------------------------------- to protobuf

  const INVALID := "<invalid reflect.Value>"

  function ToStructOf(m: GoMap): Struct
    decreases m
  {
    match m
    case NilMap => NilStruct
    case MapOf(e) => if e == map[] then NilStruct else Struct(map k | k in e :: ToValueOf(e[k]))
  }

  function ToValueOf(a: Any): Value
    decreases a, 1
  {
    if a.Nil? then NilValue else ReflectOf(a)
  }

  /** toValue: a nil inside a container has no reflect kind and is printed as text. */
  function ReflectOf(a: Any): Value
    decreases a, 0
  {
    match a
    case Nil => StringValue(INVALID)
    case Bool(b) => BoolValue(b)
    case Int(i) => NumberValue(Float64(i))
    case Float(r) => NumberValue(r)
    case String(s) => StringValue(s)
    case Slice(xs) =>
      if xs == [] then NilValue
      else ListValue(List(seq(|xs|, i requires 0 <= i < |xs| => ReflectOf(xs[i]))))
    case Map(NilMap) => NilValue
    case Map(MapOf(e)) =>
      if e == map[] then NilValue else StructValue(Struct(map k | k in e :: ReflectOf(e[k])))
  }

  // ---------------------------------------------------------------- from protobuf

  function DecodeToMapOf(st: Struct): Option<GoMap>
    decreases st
  {
    match st
    case NilStruct => Some(NilMap)
    case Struct(f) =>
      if exists k :: k in f && DecodeValueOf(f[k]).None? then None
      else Some(MapOf(map k | k in f :: DecodeValueOf(f[k]).value))
  }

  function DecodeValueOf(v: Value): Option<Any>
    decreases v
  {
    match v
    case NilValue => None
    case NoKind => None
    case NullValue => Some(Nil)
    case NumberValue(n) => Some(Float(n))
    case StringValue(s) => Some(String(s))
    case BoolValue(b) => Some(Bool(b))
    case StructValue(st) =>
      (match DecodeToMapOf(st)
       case None => None
       case Some(m) => Some(Map(m)))
    case ListValue(NilList) => None
    case ListValue(List(vs)) =>
      if exists i :: 0 <= i < |vs| && DecodeValueOf(vs[i]).None? then None
      else Some(Slice(seq(|vs|, i requires 0 <= i < |vs| => DecodeValueOf(vs[i]).value)))
  }

  // ---------------------------------------------------------------- the loops

  method ToStruct(m: GoMap) returns (st: Struct)
    ensures st == ToStructOf(m)
  {
    if m.NilMap? || m.entries == map[] {
      return NilStruct;
    }
    var fields: map<string, Value>, todo := map[], m.entries.Keys;
    while todo != {}
      invariant todo <= m.entries.Keys && fields.Keys == m.entries.Keys - todo
      invariant forall k :: k in fields ==> fields[k] == ToValueOf(m.entries[k])
    {
      var k :| k in todo;
      todo := todo - {k};
      var v := ToValue(m.entries[k]);
      fields := fields[k := v];
    }
    return Struct(fields);
  }

  method ToValue(a: Any) returns (v: Value)
    ensures v == ToValueOf(a)
  {
    if a.Nil? {
      return NilValue;
    }
    v := ReflectValue(a);
  }

  method ReflectValue(a: Any) returns (v: Value)
    ensures v == ReflectOf(a)
    decreases a
  {
    match a
    case Nil => return StringValue(INVALID);
    case Bool(b) => return BoolValue(b);
    case Int(i) => return NumberValue(Float64(i));
    case Float(r) => return NumberValue(r);
    case String(s) => return StringValue(s);
    case Slice(xs) =>
      if |xs| == 0 {
        return NilValue;
      }
      var values: seq<Value> := [];
      for i := 0 to |xs|
        invariant |values| == i && forall j :: 0 <= j < i ==> values[j] == ReflectOf(xs[j])
      {
        var x := ReflectValue(xs[i]);
        values := values + [x];
      }
      assert values == seq(|xs|, i requires 0 <= i < |xs| => ReflectOf(xs[i]));
      return ListValue(List(values));
    case Map(m) =>
      if m.NilMap? || m.entries == map[] {
        return NilValue;
      }
      var fields: map<string, Value>, todo := map[], m.entries.Keys;
      while todo != {}
        invariant todo <= m.entries.Keys && fields.Keys == m.entries.Keys - todo
        invariant forall k :: k in fields ==> fields[k] == ReflectOf(m.entries[k])
      {
        var k :| k in todo;
        todo := todo - {k};
        var x := ReflectValue(m.entries[k]);
        fields := fields[k := x];
      }
      assert fields == map k | k in m.entries :: ReflectOf(m.entries[k]);
      assert a == Map(MapOf(m.entries));
      return StructValue(Struct(fields));
  }

  method DecodeToMap(st: Struct) returns (r: Option<GoMap>)
    ensures r == DecodeToMapOf(st)
    decreases st
  {
    if st.NilStruct? {
      return Some(NilMap);
    }
    var m: map<string, Any>, todo := map[], st.fields.Keys;
    while todo != {}
      invariant todo <= st.fields.Keys && m.Keys == st.fields.Keys - todo
      invariant forall k :: k in m ==> DecodeValueOf(st.fields[k]) == Some(m[k])
    {
      var k :| k in todo;
      todo := todo - {k};
      var v := DecodeValue(st.fields[k]);
      if v.None? {
        return None;
      }
      m := m[k := v.value];
    }
    DecodedEntries(st.fields, m);
    return Some(MapOf(m));
  }

  method DecodeValue(v: Value) returns (r: Option<Any>)
    ensures r == DecodeValueOf(v)
    decreases v
  {
    match v
    case NilValue => return None;
    case NoKind => return None;
    case NullValue => return Some(Nil);
    case NumberValue(n) => return Some(Float(n));
    case StringValue(s) => return Some(String(s));
    case BoolValue(b) => return Some(Bool(b));
    case StructValue(st) =>
      var m := DecodeToMap(st);
      return if m.None? then None else Some(Map(m.value));
    case ListValue(l) =>
      if l.NilList? {
        return None;
      }
      var s: seq<Any> := [];
      for i := 0 to |l.values|
        invariant |s| == i && forall j :: 0 <= j < i ==> DecodeValueOf(l.values[j]) == Some(s[j])
      {
        var x := DecodeValue(l.values[i]);
        if x.None? {
          return None;
        }
        s := s + [x.value];
      }
      assert s == seq(|l.values|, i requires 0 <= i < |l.values| => DecodeValueOf(l.values[i]).value);
      return Some(Slice(s));
  }

  // ---------------------------------------------------------------- what the trees mean

  /** v stands for the tree a: kind for kind, key for key, element for element. */
  ghost predicate Means(v: Value, a: Any)
    decreases v
  {
    match v
    case NullValue => a == Nil
    case NumberValue(n) => a == Float(n)
    case StringValue(s) => a == String(s)
    case BoolValue(b) => a == Bool(b)
    case StructValue(NilStruct) => a == Map(NilMap)
    case StructValue(Struct(f)) =>
      a.Map? && a.m.MapOf? && a.m.entries.Keys == f.Keys && forall k :: k in f ==> Means(f[k], a.m.entries[k])
    case ListValue(List(vs)) =>
      a.Slice? && |a.items| == |vs| && forall i :: 0 <= i < |vs| ==> Means(vs[i], a.items[i])
    case _ => false
  }

  ghost predicate DecodesTo(v: Value, a: Any) {
    DecodeValueOf(v) == Some(a)
  }

  /** Decoding gives what the value means, and panics when it means nothing. */
  lemma {:induction false} DecodesExactly(v: Value, a: Any)
    ensures DecodesTo(v, a) <==> Means(v, a)
    decreases v
  {
    match v
    case StructValue(Struct(f)) =>
      if a.Map? && a.m.MapOf? && a.m.entries.Keys == f.Keys {
        var e := a.m.entries;
        forall k | k in f ensures DecodesTo(f[k], e[k]) <==> Means(f[k], e[k]) {
          DecodesExactly(f[k], e[k]);
        }
        DecodedEntries(f, e);
      } else if DecodeToMapOf(Struct(f)).Some? {
        assert DecodeToMapOf(Struct(f)).value.entries.Keys == f.Keys;
      }
    case ListValue(List(vs)) =>
      if a.Slice? && |a.items| == |vs| {
        var xs := a.items;
        forall i | 0 <= i < |vs| ensures DecodesTo(vs[i], xs[i]) <==> Means(vs[i], xs[i]) {
          DecodesExactly(vs[i], xs[i]);
        }
        DecodedItems(vs, xs);
      }
    case _ =>
  }

  lemma DecodedItems(vs: seq<Value>, xs: seq<Any>)
    requires |vs| == |xs|
    ensures DecodesTo(ListValue(List(vs)), Slice(xs)) <==> forall i :: 0 <= i < |vs| ==> DecodesTo(vs[i], xs[i])
  {
    var r := DecodeValueOf(ListValue(List(vs)));
    if r.Some? {
      assert forall i :: 0 <= i < |vs| ==> DecodeValueOf(vs[i]) == Some(r.value.items[i]);
      assert r.value.items == xs <==> forall i :: 0 <= i < |vs| ==> r.value.items[i] == xs[i];
    }
  }

  /** No empty or nil slice or map in the tree. */
  ghost predicate NoEmpties(a: Any)
    decreases a
  {
    match a
    case Slice(xs) => xs != [] && forall i :: 0 <= i < |xs| ==> NoEmpties(xs[i])
    case Map(NilMap) => false
    case Map(MapOf(e)) => e != map[] && forall k :: k in e ==> NoEmpties(e[k])
    case _ => true
  }

  /** The tree with numbers as floats, and each nil as the text that stands for it. */
  function Printed(a: Any): Any
    decreases a
  {
    match a
    case Nil => String("<invalid reflect.Value>")
    case Int(i) => Float(Float64(i))
    case Slice(xs) => Slice(seq(|xs|, i requires 0 <= i < |xs| => Printed(xs[i])))
    case Map(MapOf(e)) => Map(MapOf(map k | k in e :: Printed(e[k])))
    case _ => a
  }

  lemma {:induction false} ReflectMeans(a: Any)
    requires NoEmpties(a)
    ensures Means(ReflectOf(a), Printed(a))
    decreases a
  {
    match a
    case Slice(xs) =>
      forall i | 0 <= i < |xs| ensures Means(ReflectOf(xs[i]), Printed(xs[i])) {
        ReflectMeans(xs[i]);
      }
    case Map(MapOf(e)) =>
      forall k | k in e ensures Means(ReflectOf(e[k]), Printed(e[k])) {
        ReflectMeans(e[k]);
      }
      MapMeans(e);
    case _ =>
  }

  lemma MapMeans(e: map<string, Any>)
    requires e != map[] && forall k :: k in e ==> Means(ReflectOf(e[k]), Printed(e[k]))
    ensures Means(ReflectOf(Map(MapOf(e))), Printed(Map(MapOf(e))))
  {
    var f, p := ReflectOf(Map(MapOf(e))).st.fields, Printed(Map(MapOf(e))).m.entries;
    assert f.Keys == e.Keys && p.Keys == e.Keys;
    assert forall k :: k in e ==> f[k] == ReflectOf(e[k]) && p[k] == Printed(e[k]);
  }

  lemma {:induction false} EmptiesPanic(a: Any)
    requires !NoEmpties(a)
    ensures DecodeValueOf(ReflectOf(a)).None?
    decreases a
  {
    match a
    case Slice(xs) =>
      if xs != [] {
        var i :| 0 <= i < |xs| && !NoEmpties(xs[i]);
        EmptiesPanic(xs[i]);
        assert ReflectOf(a).l.values[i] == ReflectOf(xs[i]);
      }
    case Map(MapOf(e)) =>
      if e != map[] {
        var k :| k in e && !NoEmpties(e[k]);
        EmptiesPanic(e[k]);
        var f := ReflectOf(a).st.fields;
        assert k in f && f[k] == ReflectOf(e[k]);
      }
    case _ =>
  }

  /** Inside a container, the way there and back prints nils and turns numbers to floats, or panics on what is empty. */
  lemma ThereAndBack(a: Any)
    ensures DecodeValueOf(ReflectOf(a)) == if NoEmpties(a) then Some(Printed(a)) else None
  {
    if NoEmpties(a) {
      ReflectMeans(a);
      DecodesExactly(ReflectOf(a), Printed(a));
      assert DecodesTo(ReflectOf(a), Printed(a));
    } else {
      EmptiesPanic(a);
    }
  }

  /** Entries that come back: not nil themselves, and nothing empty in them. */
  ghost predicate ComesBack(a: Any) {
    !a.Nil? && NoEmpties(a)
  }

  lemma EntryThereAndBack(a: Any)
    ensures DecodeValueOf(ToValueOf(a)) == if ComesBack(a) then Some(Printed(a)) else None
  {
    ThereAndBack(a);
  }

  /** And for a whole map: an empty one becomes nil, and a nil at its top level is a nil pointer. */
  lemma MapThereAndBack(m: GoMap)
    ensures DecodeToMapOf(ToStructOf(m)) ==
            if m.NilMap? || m.entries == map[] then Some(NilMap)
            else if forall k :: k in m.entries ==> ComesBack(m.entries[k]) then Some(Printed(Map(m)).m)
            else None
  {
    if m.MapOf? && m.entries != map[] {
      var e, f := m.entries, ToStructOf(m).fields;
      assert f.Keys == e.Keys;
      forall k | k in e
        ensures f[k] == ToValueOf(e[k]) && (if ComesBack(e[k]) then DecodesTo(f[k], Printed(e[k]))
                                            else DecodeValueOf(f[k]).None?)
      {
        EntryThereAndBack(e[k]);
      }
      EntriesThereAndBack(e, f);
    }
  }

  lemma EntriesThereAndBack(e: map<string, Any>, f: map<string, Value>)
    requires f.Keys == e.Keys && forall k :: k in e ==>
               if ComesBack(e[k]) then DecodesTo(f[k], Printed(e[k])) else DecodeValueOf(f[k]).None?
    ensures DecodeToMapOf(Struct(f)) ==
            if forall k :: k in e ==> ComesBack(e[k]) then Some(Printed(Map(MapOf(e))).m) else None
  {
    if forall k :: k in e ==> ComesBack(e[k]) {
      var p := Printed(Map(MapOf(e))).m.entries;
      assert p.Keys == e.Keys && forall k :: k in e ==> p[k] == Printed(e[k]);
      DecodedEntries(f, p);
    } else {
      var k :| k in e && !ComesBack(e[k]);
      assert k in f && DecodeValueOf(f[k]).None?;
    }
  }

  // ---------------------------------------------------------------- struct to map and back

  /** No nulls, no nil pointers and nothing empty, at any depth. */
  ghost predicate CleanStruct(st: Struct)
    decreases st
  {
    st.Struct? && st.fields != map[] && forall k :: k in st.fields ==> CleanValue(st.fields[k])
  }

  ghost predicate CleanValue(v: Value)
    decreases v
  {
    match v
    case NumberValue(_) => true
    case StringValue(_) => true
    case BoolValue(_) => true
    case StructValue(st) => CleanStruct(st)
    case ListValue(List(vs)) => vs != [] && forall i :: 0 <= i < |vs| ==> CleanValue(vs[i])
    case _ => false
  }

  /** Decoding and reflecting gives v back. */
  ghost predicate Returns(v: Value) {
    DecodeValueOf(v).Some? && ReflectOf(DecodeValueOf(v).value) == v
  }

  /** Inside a container: decoding and reflecting gives a value back exactly when it is clean. */
  lemma {:induction false} ValueRoundTrip(v: Value)
    ensures Returns(v) <==> CleanValue(v)
    decreases v
  {
    match v
    case StructValue(Struct(f)) =>
      forall k | k in f ensures Returns(f[k]) <==> CleanValue(f[k]) {
        ValueRoundTrip(f[k]);
      }
      FieldsReturn(f);
    case ListValue(List(vs)) =>
      forall i | 0 <= i < |vs| ensures Returns(vs[i]) <==> CleanValue(vs[i]) {
        ValueRoundTrip(vs[i]);
      }
      ItemsReturn(vs);
    case _ =>
  }

  lemma ItemsReturn(vs: seq<Value>)
    ensures Returns(ListValue(List(vs))) <==> vs != [] && forall i :: 0 <= i < |vs| ==> Returns(vs[i])
  {
    var v := ListValue(List(vs));
    if DecodeValueOf(v).Some? && vs != [] {
      var items := DecodeValueOf(v).value.items;
      var back := ReflectOf(Slice(items)).l.values;
      assert forall i :: 0 <= i < |vs| ==> DecodeValueOf(vs[i]) == Some(items[i]) && back[i] == ReflectOf(items[i]);
      assert back == vs <==> forall i :: 0 <= i < |vs| ==> back[i] == vs[i];
    }
  }

  lemma FieldsReturn(f: map<string, Value>)
    ensures Returns(StructValue(Struct(f))) <==> f != map[] && forall k :: k in f ==> Returns(f[k])
  {
    var st := DecodeToMapOf(Struct(f));
    if st.Some? && f != map[] {
      var e := st.value.entries;
      assert e.Keys == f.Keys;
      assert exists k :: k in f && k in e;
      var back := ReflectOf(Map(MapOf(e))).st.fields;
      assert back.Keys == f.Keys;
      assert forall k :: k in f ==> DecodeValueOf(f[k]) == Some(e[k]) && back[k] == ReflectOf(e[k]);
      assert back == f <==> forall k :: k in f ==> back[k] == f[k];
    }
  }

  /** ToStruct after DecodeToMap is the identity exactly on the nil struct and on clean structs. */
  lemma StructRoundTrip(st: Struct)
    ensures DecodeToMapOf(st).Some? && ToStructOf(DecodeToMapOf(st).value) == st <==> st.NilStruct? || CleanStruct(st)
  {
    if st.Struct? {
      var f := st.fields;
      forall k | k in f ensures Returns(f[k]) <==> CleanValue(f[k]) {
        ValueRoundTrip(f[k]);
      }
      if DecodeToMapOf(st).Some? && f != map[] {
        var e := DecodeToMapOf(st).value.entries;
        assert e.Keys == f.Keys;
        assert exists k :: k in f && k in e;
        var back := ToStructOf(MapOf(e)).fields;
        assert back.Keys == f.Keys;
        assert forall k :: k in f ==> DecodeValueOf(f[k]) == Some(e[k]) && back[k] == ToValueOf(e[k]);
        assert forall k :: k in f ==> (back[k] == f[k] <==> Returns(f[k]));
        assert back == f <==> forall k :: k in f ==> back[k] == f[k];
      }
    }
  }

  // ---------------------------------------------------------------- map to struct and back

  /** No nils and nothing empty, at any depth. */
  ghost predicate Full(a: Any)
    decreases a
  {
    match a
    case Nil => false
    case Slice(xs) => xs != [] && forall i :: 0 <= i < |xs| ==> Full(xs[i])
    case Map(NilMap) => false
    case Map(MapOf(e)) => e != map[] && forall k :: k in e ==> Full(e[k])
    case _ => true
  }

  /** The same tree with every number as a float. */
  function AsFloats(a: Any): Any
    decreases a
  {
    match a
    case Int(i) => Float(Float64(i))
    case Slice(xs) => Slice(seq(|xs|, i requires 0 <= i < |xs| => AsFloats(xs[i])))
    case Map(MapOf(e)) => Map(MapOf(map k | k in e :: AsFloats(e[k])))
    case _ => a
  }

  ghost predicate Survives(a: Any) {
    DecodeValueOf(ReflectOf(a)) == Some(AsFloats(a))
  }

  lemma {:induction false} AnyRoundTrip(a: Any)
    ensures Survives(a) <==> Full(a)
    decreases a
  {
    match a
    case Slice(xs) =>
      forall i | 0 <= i < |xs| ensures Survives(xs[i]) <==> Full(xs[i]) {
        AnyRoundTrip(xs[i]);
      }
      ItemsSurvive(xs);
    case Map(MapOf(e)) =>
      forall k | k in e ensures Survives(e[k]) <==> Full(e[k]) {
        AnyRoundTrip(e[k]);
      }
      EntriesSurvive(e);
    case _ =>
  }

  lemma ItemsSurvive(xs: seq<Any>)
    ensures Survives(Slice(xs)) <==> xs != [] && forall i :: 0 <= i < |xs| ==> Survives(xs[i])
  {
    if xs != [] {
      var vs := ReflectOf(Slice(xs)).l.values;
      assert forall i :: 0 <= i < |xs| ==> vs[i] == ReflectOf(xs[i]);
      var r, want := DecodeValueOf(ListValue(List(vs))), AsFloats(Slice(xs)).items;
      if r.Some? {
        assert forall i :: 0 <= i < |xs| ==> DecodeValueOf(vs[i]) == Some(r.value.items[i]);
        assert r.value.items == want <==> forall i :: 0 <= i < |xs| ==> r.value.items[i] == want[i];
      }
    }
  }

  lemma EntriesSurvive(e: map<string, Any>)
    ensures Survives(Map(MapOf(e))) <==> e != map[] && forall k :: k in e ==> Survives(e[k])
  {
    if e == map[] {
      assert ReflectOf(Map(MapOf(e))) == NilValue;
    } else {
      MapSurvives(e);
      var f, want := ReflectOf(Map(MapOf(e))).st.fields, AsFloats(Map(MapOf(e))).m.entries;
      KeysSurvive(e, f, want);
      DecodedEntries(f, want);
    }
  }

  lemma MapSurvives(e: map<string, Any>)
    requires e != map[]
    ensures var a := Map(MapOf(e)); var st, m := ReflectOf(a).st, AsFloats(a).m;
      && (Survives(a) <==> DecodeToMapOf(st) == Some(m))
      && st.Struct? && m.MapOf? && st.fields.Keys == m.entries.Keys == e.Keys
      && forall k :: k in e ==> st.fields[k] == ReflectOf(e[k]) && m.entries[k] == AsFloats(e[k])
  {
  }

  lemma KeysSurvive(e: map<string, Any>, f: map<string, Value>, want: map<string, Any>)
    requires f.Keys == want.Keys == e.Keys
    requires forall k :: k in e ==> f[k] == ReflectOf(e[k]) && want[k] == AsFloats(e[k])
    ensures (forall k :: k in f ==> DecodeValueOf(f[k]) == Some(want[k])) <==> forall k :: k in e ==> Survives(e[k])
  {
    assert forall k :: k in e ==> (DecodeValueOf(f[k]) == Some(want[k]) <==> Survives(e[k]));
  }

  /** Decoding the fields f gives the entries want exactly when it does so key by key. */
  lemma DecodedEntries(f: map<string, Value>, want: map<string, Any>)
    requires f.Keys == want.Keys
    ensures DecodeToMapOf(Struct(f)) == Some(MapOf(want))
            <==> forall k :: k in f ==> DecodeValueOf(f[k]) == Some(want[k])
  {
    var r := DecodeToMapOf(Struct(f));
    if r.Some? {
      var e := r.value.entries;
      assert e.Keys == f.Keys && forall k :: k in f ==> DecodeValueOf(f[k]) == Some(e[k]);
      assert e == want <==> forall k :: k in f ==> e[k] == want[k];
    }
  }

  /** DecodeToMap after ToStruct gives the map with its numbers as floats exactly for the nil map and full maps. */
  lemma {:induction false} MapRoundTrip(m: GoMap)
    ensures DecodeToMapOf(ToStructOf(m)) == Some(AsFloats(Map(m)).m) <==> m.NilMap? || Full(Map(m))
  {
    if m.MapOf? && m.entries != map[] {
      var e := m.entries;
      forall k | k in e ensures Survives(e[k]) <==> Full(e[k]) {
        AnyRoundTrip(e[k]);
      }
      var f := ToStructOf(m).fields;
      assert f.Keys == e.Keys && forall k :: k in e ==> f[k] == ToValueOf(e[k]);
      assert forall k :: k in e ==> (DecodeValueOf(f[k]) == Some(AsFloats(e[k])) <==> Survives(e[k]));
      DecodedEntries(f, map k | k in e :: AsFloats(e[k]));
    }
  }

  /** No whole number in the tree lies outside the range floats count exactly. */
  ghost predicate Small(a: Any)
    decreases a
  {
    match a
    case Int(i) => -PRECISION <= i <= PRECISION
    case Slice(xs) => forall i :: 0 <= i < |xs| ==> Small(xs[i])
    case Map(MapOf(e)) => forall k :: k in e ==> Small(e[k])
    case _ => true
  }

  /** Same tree, and numbers of the same value. */
  ghost predicate SameNumbers(a: Any, b: Any)
    decreases a
  {
    match a
    case Int(i) => b == Float(i as real)
    case Slice(xs) => b.Slice? && |b.items| == |xs| && forall i :: 0 <= i < |xs| ==> SameNumbers(xs[i], b.items[i])
    case Map(MapOf(e)) =>
      b.Map? && b.m.MapOf? && b.m.entries.Keys == e.Keys && forall k :: k in e ==> SameNumbers(e[k], b.m.entries[k])
    case _ => b == a
  }

  /** Every whole number in the tree is a float. */
  ghost predicate AllFloats(a: Any)
    decreases a
  {
    match a
    case Int(i) => IsFloat(i)
    case Slice(xs) => forall i :: 0 <= i < |xs| ==> AllFloats(xs[i])
    case Map(MapOf(e)) => forall k :: k in e ==> AllFloats(e[k])
    case _ => true
  }

  /** The numbers keep their values exactly for the trees whose whole numbers are floats. */
  lemma {:induction false} NumbersKeptExactly(a: Any)
    ensures SameNumbers(a, AsFloats(a)) <==> AllFloats(a)
    decreases a
  {
    match a
    case Int(i) => Float64Exactly(i);
    case Slice(xs) =>
      forall i | 0 <= i < |xs| ensures SameNumbers(xs[i], AsFloats(xs[i])) <==> AllFloats(xs[i]) {
        NumbersKeptExactly(xs[i]);
      }
    case Map(MapOf(e)) =>
      forall k | k in e ensures SameNumbers(e[k], AsFloats(e[k])) <==> AllFloats(e[k]) {
        NumbersKeptExactly(e[k]);
      }
      assert AsFloats(a).m.entries.Keys == e.Keys;
    case _ =>
  }

  lemma {:induction false} SmallAreFloats(a: Any)
    requires Small(a)
    ensures AllFloats(a)
    decreases a
  {
    match a
    case Int(i) => SmallIsFloat(i);
    case Slice(xs) =>
      forall i | 0 <= i < |xs| ensures AllFloats(xs[i]) {
        SmallAreFloats(xs[i]);
      }
    case Map(MapOf(e)) =>
      forall k | k in e ensures AllFloats(e[k]) {
        SmallAreFloats(e[k]);
      }
    case _ =>
  }

  lemma {:induction false} SmallNumbersKept(a: Any)
    requires Small(a)
    ensures SameNumbers(a, AsFloats(a))
  {
    SmallAreFloats(a);
    NumbersKeptExactly(a);
  }

  /** The first integer a float cannot hold. */
  lemma BeyondPrecision()
    ensures Float64(PRECISION + 1) == PRECISION as real
  {
    assert Spacing(PRECISION + 1, 1) == Spacing(PRECISION + 1, 2) == 2;
  }
}
