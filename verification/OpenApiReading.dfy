/** What the readings of `OpenApiMeaning` make of a schema with a single keyword, keyword by keyword. */
module OpenApiReading {
  import opened Json
  import Wrappers
  import opened OpenApiDowngrade
  import opened OpenApiMeaning

  /** A schema that says `k: x` and nothing else. */
  function Only(k: Key, x: Json): Json {
    Obj(map[k := x])
  }

  lemma RestOfOne(d: Draft, c: Context, k: Key, x: Json, v: Json)
    ensures Rest(d, c, Only(k, x), v) <==> Keyword(d, c, Only(k, x), k, v)
  {
  }

  lemma OneKeyword(d: Draft, c: Context, k: Key, x: Json, v: Json)
    requires k != Type && (d.Draft30? ==> k != Ref) && (d.Referred? ==> k != OneOf)
    ensures Accepts(d, c, Only(k, x), v) <==> Keyword(d, c, Only(k, x), k, v)
  {
    RestOfOne(d, c, k, x, v);
    assert !IsReferenceUnion(Only(k, x).fields) || !d.Referred?;
  }

  lemma TrivialSchemas(d: Draft, c: Context, b: bool, note: string, x: Json, v: Json)
    ensures Accepts(d, c, Bool(b), v) <==> b
    ensures !Accepts(d, c, Null, v) && !Accepts(d, c, Arr([]), v)
    ensures Accepts(d, c, Obj(map[]), v) && Accepts(d, c, Only(Annotation(note), x), v)
  {
    OneKeyword(d, c, Annotation(note), x, v);
  }

  /** A schema that says no more than its type is read by that alone. */
  lemma TypeAlone(d: Draft, c: Context, fields: map<Key, Json>, v: Json)
    requires forall k | k in fields :: k == Type || k == Nullable
    ensures Accepts(d, c, Obj(fields), v) <==> TypeOk(d, fields, v)
  {
    assert Rest(d, c, Obj(fields), v);
  }

  predicate IsWhole(n: real, i: int) {
    i as real == n
  }

  lemma FloorIsWhole(n: real)
    ensures n == n.Floor as real <==> exists i :: IsWhole(n, i)
  {
    if n == n.Floor as real {
      assert IsWhole(n, n.Floor);
    }
  }

  lemma TypeIsRead(d: Draft, c: Context, t: string, v: Json)
    ensures Accepts(d, c, Only(Type, Str(t)), v) <==>
      match v
      case Null => t == "null"
      case Bool(_) => t == "boolean"
      case Num(n) => t == "number" || (t == "integer" && exists i :: IsWhole(n, i))
      case Str(_) => t == "string"
      case Arr(_) => t == "array"
      case Obj(_) => t == "object"
  {
    TypeAlone(d, c, map[Type := Str(t)], v);
    if v.Num? {
      FloorIsWhole(v.n);
    }
  }

  /** Only OpenAPI 3.0 reads `nullable`, and only where it is true. */
  lemma NullableIsRead(d: Draft, c: Context, t: string, x: Json, v: Json)
    ensures Accepts(d, c, Obj(map[Type := Str(t), Nullable := x]), v)
      <==> Accepts(d, c, Only(Type, Str(t)), v) || (d == Draft30 && x == Bool(true) && v == Null)
  {
    TypeAlone(d, c, map[Type := Str(t), Nullable := x], v);
    TypeAlone(d, c, map[Type := Str(t)], v);
  }

  /** Only JSON Schema lets a type be an array, of which any member may hold. */
  lemma TypeArrayIsRead(d: Draft, c: Context, a: string, b: string, v: Json)
    ensures Accepts(d, c, Only(Type, Arr([Str(a), Str(b)])), v)
      <==> d != Draft30 && (Accepts(d, c, Only(Type, Str(a)), v) || Accepts(d, c, Only(Type, Str(b)), v))
  {
    var both := [Str(a), Str(b)];
    TypeAlone(d, c, map[Type := Arr(both)], v);
    TypeAlone(d, c, map[Type := Str(a)], v);
    TypeAlone(d, c, map[Type := Str(b)], v);
    assert both[0].s == a && both[1].s == b;
    assert HasType(v, a) ==> both[0].Str? && HasType(v, both[0].s);
    assert HasType(v, b) ==> both[1].Str? && HasType(v, both[1].s);
  }

  /** A reference is its component, whatever stands beside it in 3.0. */
  lemma ReferenceIsRead(d: Draft, c: Context, name: string, x: Json, v: Json)
    ensures Accepts(d, c, Only(Ref, Str(name)), v) <==> c.component(name, v)
    ensures Accepts(Draft30, c, Obj(map[Ref := Str(name), Nullable := x]), v) <==> c.component(name, v)
  {
    if !d.Draft30? {
      OneKeyword(d, c, Ref, Str(name), v);
    }
  }

  predicate Within(i: int, items: seq<Json>) {
    0 <= i < |items|
  }

  ghost predicate Takes(d: Draft, c: Context, items: seq<Json>, i: int, v: Json) {
    Within(i, items) && Accepts(d, c, items[i], v)
  }

  lemma AcceptedAre(d: Draft, c: Context, items: seq<Json>, i: int, v: Json)
    ensures i in AcceptedBy(d, c, Arr(items), v) <==> Takes(d, c, items, i, v)
  {
  }

  lemma AllOfIsRead(d: Draft, c: Context, items: seq<Json>, v: Json)
    ensures Accepts(d, c, Only(AllOf, Arr(items)), v) <==> forall i | Within(i, items) :: Takes(d, c, items, i, v)
  {
    OneKeyword(d, c, AllOf, Arr(items), v);
    forall i ensures i in AcceptedBy(d, c, Arr(items), v) <==> Takes(d, c, items, i, v) {
      AcceptedAre(d, c, items, i, v);
    }
  }

  lemma AnyOfIsRead(d: Draft, c: Context, items: seq<Json>, v: Json)
    ensures Accepts(d, c, Only(AnyOf, Arr(items)), v) <==> exists i :: Takes(d, c, items, i, v)
  {
    OneKeyword(d, c, AnyOf, Arr(items), v);
    forall i ensures i in AcceptedBy(d, c, Arr(items), v) <==> Takes(d, c, items, i, v) {
      AcceptedAre(d, c, items, i, v);
    }
    if AcceptedBy(d, c, Arr(items), v) != {} {
      var i :| i in AcceptedBy(d, c, Arr(items), v);
    }
  }

  /** Branch `i` and no other. */
  ghost predicate TakesAlone(d: Draft, c: Context, items: seq<Json>, i: int, v: Json) {
    Takes(d, c, items, i, v) && forall j | Takes(d, c, items, j, v) :: j == i
  }

  lemma TheMember<T>(s: set<T>) returns (i: T)
    requires |s| == 1
    ensures s == {i}
  {
    assert s != {};
    i :| i in s;
    assert |s - {i}| == 0;
  }

  lemma OneAccepted(d: Draft, c: Context, items: seq<Json>, v: Json)
    ensures |AcceptedBy(d, c, Arr(items), v)| == 1 <==> exists i :: TakesAlone(d, c, items, i, v)
  {
    var which := AcceptedBy(d, c, Arr(items), v);
    forall i ensures i in which <==> Takes(d, c, items, i, v) {
      AcceptedAre(d, c, items, i, v);
    }
    if |which| == 1 {
      var i := TheMember(which);
      assert i in which && TakesAlone(d, c, items, i, v);
    }
    if i :| TakesAlone(d, c, items, i, v) {
      assert which == {i};
    }
  }

  lemma OneOfIsRead(d: Draft, c: Context, items: seq<Json>, v: Json)
    requires !d.Referred?
    ensures Accepts(d, c, Only(OneOf, Arr(items)), v) <==> exists i :: TakesAlone(d, c, items, i, v)
  {
    OneKeyword(d, c, OneOf, Arr(items), v);
    OneAccepted(d, c, items, v);
  }

  lemma PropertiesIsRead(d: Draft, c: Context, props: map<Key, Json>, v: Json)
    ensures Accepts(d, c, Only(Properties, Obj(props)), v) <==>
      v.Obj? ==> forall p | p in props && p in v.fields :: Accepts(d, c, props[p], v.fields[p])
  {
    OneKeyword(d, c, Properties, Obj(props), v);
  }

  /** The rest of the properties: those that are declared are not looked at. */
  lemma AdditionalIsRead(d: Draft, c: Context, props: map<Key, Json>, x: Json, v: Json)
    ensures Accepts(d, c, Obj(map[Properties := Obj(props), AdditionalProperties := x]), v) <==>
      v.Obj? ==> forall p | p in v.fields ::
        if p in props then Accepts(d, c, props[p], v.fields[p]) else Accepts(d, c, x, v.fields[p])
  {
    var s := Obj(map[Properties := Obj(props), AdditionalProperties := x]);
    assert s.fields.Keys == {Properties, AdditionalProperties};
    assert Accepts(d, c, s, v) <==> Keyword(d, c, s, Properties, v) && Keyword(d, c, s, AdditionalProperties, v);
  }

  lemma ItemsAreRead(d: Draft, c: Context, x: Json, v: Json)
    ensures Accepts(d, c, Only(Items, x), v) <==>
      v.Arr? ==> forall i | Within(i, v.items) :: Accepts(d, c, x, v.items[i])
  {
    OneKeyword(d, c, Items, x, v);
  }

  /** Only objects must have the properties, each under its spelling. */
  lemma RequiredIsRead(d: Draft, c: Context, name: string, v: Json)
    ensures Accepts(d, c, Only(Required, Arr([Str(name)])), v) <==>
      v.Obj? ==> exists p | p in v.fields :: Spelling(p) == name
  {
    var names := [Str(name)];
    OneKeyword(d, c, Required, Arr(names), v);
    assert names[0].s == name;
    assert HasRequired(Arr(names), v) && v.Obj? ==> names[0].Str? && exists p | p in v.fields :: Spelling(p) == name;
  }

  // ---- what the theorems about meaning apply to ----------------------------------------------------

  /** Null or a type, as build.rs finds it spelt as a union. */
  function NullOrType(t: string): Json {
    Only(OneOf, Arr([Only(Type, Str("null")), Only(Type, Str(t))]))
  }

  lemma NullOrTypeCollapses(t: string)
    requires t != "null"
    ensures var fields := NullOrType(t).fields;
      CollapseOther(fields) == Wrappers.Some(map[Type := Str(t)]) && PlainUnion(fields) && !IsReferenceUnion(fields)
  {
    var a, b := Only(Type, Str("null")), Only(Type, Str(t));
    assert Type in a.fields && Type in b.fields && Ref !in b.fields;
    assert IsNullBranch(a) && !IsNullBranch(b) && IsOtherBranch(b);
    assert SurvivingBranch([a, b]) == Wrappers.Some(1);
    assert NullOrType(t).fields.Keys == {OneOf};
  }

  lemma TypeIsCovered(c: Context, t: string)
    ensures WellFormed(c, Only(Type, Str(t))) && NoReferenceUnion(Only(Type, Str(t)))
  {
    assert Only(Type, Str(t)).fields.Keys == {Type};
  }

  /** Both spellings of a nullable type are schemas to which the theorems apply, and so is a schema true or false. */
  lemma NullableTypesAreCovered(c: Context, t: string, b: bool)
    requires t != "null"
    ensures WellFormed(c, NullOrType(t)) && WellFormed(c, Bool(b))
    ensures WellFormed(c, Only(Type, Arr([Str(t), Str("null")])))
    ensures WellFormed(c, Only(Type, Arr([Str("null"), Str(t)])))
  {
    UnionIsCovered(c, t);
    TypeArrayIsCovered(c, t, "null");
    TypeArrayIsCovered(c, "null", t);
  }

  lemma TypeArrayIsCovered(c: Context, a: string, b: string)
    requires (a == "null") != (b == "null")
    ensures WellFormed(c, Only(Type, Arr([Str(a), Str(b)])))
  {
    assert Only(Type, Arr([Str(a), Str(b)])).fields.Keys == {Type};
  }

  lemma UnionIsCovered(c: Context, t: string)
    requires t != "null"
    ensures WellFormed(c, NullOrType(t)) && NoReferenceUnion(NullOrType(t))
  {
    NullOrTypeCollapses(t);
    TypeIsCovered(c, "null");
    TypeIsCovered(c, t);
    assert NullOrType(t).fields.Keys == {OneOf};
    assert Rest(Referred, c, Obj(map[Type := Str(t)]), Null);
  }

  lemma UnionIsRead(c: Context, t: string, v: Json)
    requires t != "null"
    ensures Accepts(Draft31, c, NullOrType(t), v) <==> v == Null || Accepts(Draft31, c, Only(Type, Str(t)), v)
  {
    var a, b := Only(Type, Str("null")), Only(Type, Str(t));
    var items := [a, b];
    OneOfIsRead(Draft31, c, items, v);
    TypeIsRead(Draft31, c, "null", v);
    TypeIsRead(Draft31, c, t, v);
    assert Takes(Draft31, c, items, 0, v) <==> v == Null;
    assert Takes(Draft31, c, items, 1, v) <==> Accepts(Draft31, c, b, v);
    assert forall i | Takes(Draft31, c, items, i, v) :: i == 0 || i == 1;
    assert TakesAlone(Draft31, c, items, 0, v) <==> v == Null;
    assert TakesAlone(Draft31, c, items, 1, v) <==> Accepts(Draft31, c, b, v);
  }

  /** So the rewritten union takes null and the instances of its type, as the source does. */
  lemma NullableTypeIsKept(c: Context, t: string, v: Json)
    requires t != "null"
    ensures Accepts(Draft30, c, Rewritten(NullOrType(t)), v)
      <==> v == Null || Accepts(Draft31, c, Only(Type, Str(t)), v)
  {
    UnionIsCovered(c, t);
    MeaningPreserved(c, NullOrType(t), v);
    UnionIsRead(c, t, v);
  }
}
