/**
  What a schema means, before and after the rewriting of build.rs: the set of instances it
  accepts. `Draft31` is JSON Schema 2020-12 as OpenAPI 3.1 uses it; `Draft30` is OpenAPI
  3.0.3, where `nullable` widens an explicit `type` (section 4.7.24) and the siblings of
  `$ref` are ignored (section 4.7.23). `Referred` reads a 3.1 schema as `Draft31` does, except
  that a union of null and a reference accepts what the reference accepts.
*/
module OpenApiMeaning {
  import opened Json
  import opened Wrappers
  import opened OpenApiDowngrade

  datatype Draft = Draft31 | Referred | Draft30

  /**
    What lies outside one schema tree: which instances a referenced component accepts, and
    what every keyword without a sub-schema (`enum`, `minimum`, `pattern`, ...) asserts.
  */
  datatype Context = Context(component: (string, Json) -> bool, assertion: (Key, Json, Json) -> bool)

  predicate HasType(v: Json, t: string) {
    match v
    case Null => t == "null"
    case Bool(_) => t == "boolean"
    case Num(n) => t == "number" || (t == "integer" && n == n.Floor as real)
    case Str(_) => t == "string"
    case Arr(_) => t == "array"
    case Obj(_) => t == "object"
  }

  /**
    `type`, which only 2020-12 lets be an array, and which only 3.0 widens by `nullable`, where it is written.
    A bare "null", which 3.0 does not list, is read as in 2020-12.
  */
  predicate TypeOk(d: Draft, fields: map<Key, Json>, v: Json) {
    Type in fields ==>
      match fields[Type]
      case Str(t) =>
        HasType(v, t) || (d.Draft30? && v.Null? && Nullable in fields && fields[Nullable] == Bool(true))
      case Arr(ts) => !d.Draft30? && exists i | 0 <= i < |ts| :: ts[i].Str? && HasType(v, ts[i].s)
      case _ => false
  }

  predicate IsRef(fields: map<Key, Json>) {
    Ref in fields && fields[Ref].Str?
  }

  /** `k` beside annotations alone. */
  predicate OnlyKey(fields: map<Key, Json>, k: Key) {
    forall j | j in fields :: j == k || j.Annotation?
  }

  /** `oneOf` of two branches, one of them the null type, the other not an empty schema. */
  predicate IsNullableUnion(fields: map<Key, Json>) {
    CollapseOther(fields).Some?
  }

  /** Annotations beside the union, and a null branch that says nothing but null. */
  predicate PlainUnion(fields: map<Key, Json>)
    requires IsNullableUnion(fields)
  {
    && OnlyKey(fields, OneOf)
    && forall i | 0 <= i < 2 && IsNullBranch(fields[OneOf].items[i]) ::
         OnlyKey(fields[OneOf].items[i].fields, Type)
  }

  /** A plain union of null and a reference. */
  predicate IsReferenceUnion(fields: map<Key, Json>) {
    IsNullableUnion(fields) && PlainUnion(fields)
    && IsRef(CollapseOther(fields).value) && OnlyKey(CollapseOther(fields).value, Ref)
  }

  ghost predicate Accepts(d: Draft, c: Context, s: Json, v: Json)
    decreases s, 1
  {
    match s
    case Bool(b) => b
    case Obj(fields) =>
      if d.Draft30? && IsRef(fields) then c.component(fields[Ref].s, v)
      else if d.Referred? && IsReferenceUnion(fields) then c.component(CollapseOther(fields).value[Ref].s, v)
      else TypeOk(d, fields, v) && Rest(d, c, s, v)
    case _ => false
  }

  /** Every keyword of `s` other than `type` and `nullable`. */
  ghost predicate Rest(d: Draft, c: Context, s: Json, v: Json)
    requires s.Obj?
    decreases s, 0, 1
  {
    forall k | k in s.fields :: Keyword(d, c, s, k, v)
  }

  ghost predicate Keyword(d: Draft, c: Context, s: Json, k: Key, v: Json)
    requires s.Obj? && k in s.fields
    decreases s, 0, 0
  {
    var x := s.fields[k];
    if k == Type || k == Nullable || k.Annotation? then true
    else if k == Ref then x.Str? && c.component(x.s, v)
    else if k == OneOf then x.Arr? && |AcceptedBy(d, c, x, v)| == 1
    else if k == AnyOf then x.Arr? && AcceptedBy(d, c, x, v) != {}
    else if k == AllOf then x.Arr? && forall i | 0 <= i < |x.items| :: i in AcceptedBy(d, c, x, v)
    else if k == Properties then
      x.Obj? && (v.Obj? ==> forall p | p in x.fields && p in v.fields :: Accepts(d, c, x.fields[p], v.fields[p]))
    else if k == AdditionalProperties then
      v.Obj? ==> forall p | p in v.fields && !DeclaresProperty(s.fields, p) :: Accepts(d, c, x, v.fields[p])
    else if k == Items then v.Arr? ==> forall i | 0 <= i < |v.items| :: Accepts(d, c, x, v.items[i])
    else if k == Required then HasRequired(x, v)
    else c.assertion(k, x, v)
  }

  predicate HasRequired(names: Json, v: Json) {
    names.Arr? && (v.Obj? ==> forall i | 0 <= i < |names.items| ::
      names.items[i].Str? && exists p | p in v.fields :: Spelling(p) == names.items[i].s)
  }

  /** The positions of the branches that accept `v`. */
  ghost function AcceptedBy(d: Draft, c: Context, branches: Json, v: Json): set<int>
    requires branches.Arr?
    decreases branches, 2
  {
    set i | 0 <= i < |branches.items| && Accepts(d, c, branches.items[i], v)
  }

  predicate DeclaresProperty(fields: map<Key, Json>, p: Key) {
    Properties in fields && fields[Properties].Obj? && p in fields[Properties].fields
  }

  // ---- which 3.1 schemas the rewriting is meant for ----------------------------

  predicate IsCombinator(k: Key) {
    k.OneOf? || k.AnyOf? || k.AllOf?
  }

  predicate IsSubschema(k: Key) {
    k.Items? || k.AdditionalProperties?
  }

  /** This node alone: each keyword holds what JSON Schema says it holds, and other data is nothing to rewrite. */
  predicate NodeShaped(fields: map<Key, Json>) {
    && Nullable !in fields
    && (Type in fields ==> fields[Type].Str? || IsNullableArray(fields[Type]))
    && (Ref in fields ==> fields[Ref].Str? && OnlyKey(fields, Ref))
    && (forall k | k in fields && IsCombinator(k) :: fields[k].Arr?)
    && (Properties in fields ==> fields[Properties].Obj?)
    && forall k | k in fields && !HoldsSchemas(k) && k != Type && !k.Annotation? :: LeftAlone(fields[k])
  }

  predicate HoldsSchemas(k: Key) {
    IsCombinator(k) || IsSubschema(k) || k == Properties
  }

  /** What the surviving branch must be for the union to be collapsible. */
  ghost predicate BranchTakesNullable(c: Context, other: map<Key, Json>) {
    && Type in other && other[Type].Str?
    && Rest(Referred, c, Obj(other), Null)
  }

  /** A plain union whose surviving branch is a reference or can be made nullable. */
  ghost predicate Collapsible(c: Context, fields: map<Key, Json>)
    requires IsNullableUnion(fields)
  {
    PlainUnion(fields) && (IsReferenceUnion(fields) || BranchTakesNullable(c, CollapseOther(fields).value))
  }

  /** Every nullable union in the tree is plain, and its surviving branch is a reference or can be made nullable. */
  ghost predicate WellFormed(c: Context, s: Json)
    decreases s, 1
  {
    match s
    case Bool(_) => true
    case Obj(fields) =>
      && NodeShaped(fields)
      && (IsNullableUnion(fields) ==> Collapsible(c, fields))
      && WellFormedChildren(c, s)
    case _ => false
  }

  ghost predicate WellFormedChildren(c: Context, s: Json)
    requires s.Obj?
    decreases s, 0
  {
    var fields := s.fields;
    && (forall k | k in fields && IsCombinator(k) :: fields[k].Arr? ==>
          forall i | 0 <= i < |fields[k].items| :: WellFormed(c, fields[k].items[i]))
    && (Properties in fields && fields[Properties].Obj? ==>
          forall p | p in fields[Properties].fields :: WellFormed(c, fields[Properties].fields[p]))
    && forall k | k in fields && IsSubschema(k) :: WellFormed(c, fields[k])
  }

  // ---- meaning preservation ----------------------------------------------------

  /** The walk leaves a map of properties a map of properties: no property schema is an array. */
  lemma RewrittenProperties(c: Context, props: map<Key, Json>)
    requires forall p | p in props :: WellFormed(c, props[p])
    ensures Rewritten(Obj(props)) == Obj(map p | p in props :: Rewritten(props[p]))
  {
    RewrittenObj(props);
    if OneOf in props && props[OneOf].Obj? {
      RewrittenObj(props[OneOf].fields);
    }
    assert CollapseOther(NodeFields(props)).None?;
  }

  lemma NodeKeepsItsKind(fields: map<Key, Json>)
    requires NodeShaped(fields)
    ensures IsNullBranch(Obj(NodeFields(fields))) == IsNullBranch(Obj(fields))
    ensures Type in NodeFields(fields) <==> Type in fields
    ensures NodeFields(fields) == map[] <==> fields == map[]
  {
    var n := NodeFields(fields);
    assert fields.Keys <= n.Keys;
    if fields == map[] {
      assert RewriteType(fields) == map[];
    } else {
      var k :| k in fields;
      assert k in n;
    }
  }

  lemma PlainUnionHasNoType(fields: map<Key, Json>)
    requires IsNullableUnion(fields) && PlainUnion(fields)
    ensures Type !in fields
  {
  }

  /** A collapsed node takes its type from the surviving branch. */
  lemma CollapsedNodeIsOther(n: map<Key, Json>)
    requires IsNullableUnion(n) && Type !in n
    ensures IsOtherBranch(Obj(CollapseNode(n)))
  {
    var other := CollapseOther(n).value;
    assert IsOtherBranch(Obj(other));
    assert Nullable in CollapseNode(n);
  }

  /** Whether a branch is the null type, or a schema that says something, is the same after rewriting. */
  lemma {:induction false} BranchKeepsItsKind(c: Context, s: Json)
    requires WellFormed(c, s)
    ensures IsNullBranch(Rewritten(s)) == IsNullBranch(s) && IsOtherBranch(Rewritten(s)) == IsOtherBranch(s)
    decreases s, 1
  {
    if s.Obj? {
      RewrittenObj(s.fields);
      UnionKeepsItsBranch(c, s);
      NodeKeepsItsKind(s.fields);
      var n := NodeFields(s.fields);
      assert Rewritten(s) == Obj(CollapseNode(n));
      if IsNullableUnion(s.fields) {
        PlainUnionHasNoType(s.fields);
        CollapsedNodeIsOther(n);
      } else {
        assert CollapseNode(n) == n;
      }
    }
  }

  /** The rewritten node collapses exactly when the source node is a nullable union, to the same branch. */
  lemma {:induction false} UnionKeepsItsBranch(c: Context, s: Json)
    requires s.Obj? && NodeShaped(s.fields) && WellFormedChildren(c, s)
    ensures IsNullableUnion(NodeFields(s.fields)) <==> IsNullableUnion(s.fields)
    ensures IsNullableUnion(s.fields) ==>
      Rewritten(Obj(CollapseOther(s.fields).value)) == Obj(CollapseOther(NodeFields(s.fields)).value)
    decreases s, 0
  {
    if OneOf in s.fields {
      BranchesKeepTheirKind(c, s.fields[OneOf]);
      RewrittenArr(s.fields[OneOf].items);
      assert NodeFields(s.fields)[OneOf] == Rewritten(s.fields[OneOf]);
    }
  }

  lemma {:induction false} BranchesKeepTheirKind(c: Context, branches: Json)
    requires branches.Arr? && forall i | 0 <= i < |branches.items| :: WellFormed(c, branches.items[i])
    ensures Rewritten(branches).Arr? && SurvivingBranch(Rewritten(branches).items) == SurvivingBranch(branches.items)
    decreases branches, 2
  {
    RewrittenArr(branches.items);
    if |branches.items| == 2 {
      BranchKeepsItsKind(c, branches.items[0]);
      BranchKeepsItsKind(c, branches.items[1]);
    }
  }

  /**
    Rewriting every schema of the document, unions of null and a reference included, at whatever depth:
    the target accepts what the source does when each such union is read as its reference.
  */
  lemma {:induction false} ReadingPreserved(c: Context, s: Json, v: Json)
    requires WellFormed(c, s)
    ensures Accepts(Draft30, c, Rewritten(s), v) == Accepts(Referred, c, s, v)
    decreases s, 3
  {
    if s.Obj? {
      if IsNullableUnion(s.fields) {
        UnionPreserved(c, s, v);
      } else {
        NodePreserved(c, s, v);
      }
    }
  }

  lemma {:induction false} NodePreserved(c: Context, s: Json, v: Json)
    requires WellFormed(c, s) && s.Obj? && !IsNullableUnion(s.fields)
    ensures Accepts(Draft30, c, Rewritten(s), v) == Accepts(Referred, c, s, v)
    decreases s, 2
  {
    var n := NodeFields(s.fields);
    assert Rewritten(s) == Obj(n) by {
      RewrittenObj(s.fields);
      UnionKeepsItsBranch(c, s);
    }
    RestPreserved(c, s, v);
    TypePreserved(s.fields, v);
    RefPreserved(c, s, v);
  }

  /** A reference has only annotations beside it, so ignoring its siblings loses nothing. */
  lemma RefPreserved(c: Context, s: Json, v: Json)
    requires s.Obj? && NodeShaped(s.fields)
    ensures IsRef(NodeFields(s.fields)) <==> IsRef(s.fields)
    ensures IsRef(s.fields) ==> NodeFields(s.fields)[Ref] == s.fields[Ref]
    ensures IsRef(s.fields) ==> Accepts(Referred, c, s, v) == c.component(s.fields[Ref].s, v)
  {
    if IsRef(s.fields) {
      ReferenceAccepts(Referred, c, s, v);
    }
  }

  lemma ReferenceAccepts(d: Draft, c: Context, s: Json, v: Json)
    requires s.Obj? && IsRef(s.fields) && OnlyKey(s.fields, Ref)
    ensures Accepts(d, c, s, v) == c.component(s.fields[Ref].s, v)
  {
    assert Type !in s.fields && OneOf !in s.fields;
    forall k | k in s.fields && k != Ref ensures Keyword(d, c, s, k, v) {
      assert k.Annotation?;
    }
    assert Rest(d, c, s, v) == Keyword(d, c, s, Ref, v);
  }

  lemma TypePreserved(fields: map<Key, Json>, v: Json)
    requires NodeShaped(fields)
    ensures TypeOk(Draft30, NodeFields(fields), v) == TypeOk(Referred, fields, v)
  {
    var n := NodeFields(fields);
    if Type in fields && fields[Type].Arr? {
      var ts := fields[Type].items;
      assert ts == [ts[0], ts[1]];
      assert n[Nullable] == Bool(true);
    }
  }

  lemma {:induction false} RestPreserved(c: Context, s: Json, v: Json)
    requires s.Obj? && NodeShaped(s.fields) && WellFormedChildren(c, s)
    ensures Rest(Draft30, c, Obj(NodeFields(s.fields)), v) == Rest(Referred, c, s, v)
    decreases s, 1
  {
    var n := NodeFields(s.fields);
    forall k | k in s.fields
      ensures Keyword(Draft30, c, Obj(n), k, v) == Keyword(Referred, c, s, k, v)
    {
      KeywordPreserved(c, s, k);
      AgreementSuffices(c, s, Obj(n), k, v);
    }
    assert forall k | k in n :: k in s.fields || k == Nullable;
  }

  /** A keyword says the same in two nodes whose sub-schemas there accept the same instances. */
  ghost predicate SubschemasAgree(c: Context, s: Json, t: Json, k: Key)
    requires s.Obj? && t.Obj? && k in s.fields && k in t.fields
  {
    var x, y := s.fields[k], t.fields[k];
    if IsCombinator(k) then
      x.Arr? && y.Arr? && |x.items| == |y.items|
      && forall i, v | 0 <= i < |x.items| :: Accepts(Referred, c, x.items[i], v) == Accepts(Draft30, c, y.items[i], v)
    else if k == Properties then
      x.Obj? && y.Obj? && x.fields.Keys == y.fields.Keys
      && forall p, v | p in x.fields :: Accepts(Referred, c, x.fields[p], v) == Accepts(Draft30, c, y.fields[p], v)
    else if IsSubschema(k) then
      (forall p :: DeclaresProperty(s.fields, p) == DeclaresProperty(t.fields, p))
      && forall v :: Accepts(Referred, c, x, v) == Accepts(Draft30, c, y, v)
    else x == y || k.Annotation? || k == Type
  }

  lemma AgreementSuffices(c: Context, s: Json, t: Json, k: Key, v: Json)
    requires s.Obj? && t.Obj? && k in s.fields && k in t.fields && SubschemasAgree(c, s, t, k)
    ensures Keyword(Referred, c, s, k, v) == Keyword(Draft30, c, t, k, v)
  {
    if IsCombinator(k) {
      assert AcceptedBy(Referred, c, s.fields[k], v) == AcceptedBy(Draft30, c, t.fields[k], v);
    } else if k == Properties {
    } else if IsSubschema(k) {
    } else {
    }
  }

  lemma {:induction false} KeywordPreserved(c: Context, s: Json, k: Key)
    requires s.Obj? && k in s.fields && NodeShaped(s.fields) && WellFormedChildren(c, s)
    ensures SubschemasAgree(c, s, Obj(NodeFields(s.fields)), k)
    decreases s, 0
  {
    var x := s.fields[k];
    assert k != Type ==> NodeFields(s.fields)[k] == Rewritten(x);
    if IsCombinator(k) {
      BranchesPreserved(c, x);
    } else if k == Properties {
      PropertiesPreserved(c, x);
    } else if IsSubschema(k) {
      SubschemaPreserved(c, x);
      DeclaredPropertiesKept(c, s);
    }
  }

  lemma {:induction false} BranchesPreserved(c: Context, x: Json)
    requires x.Arr? && forall i | 0 <= i < |x.items| :: WellFormed(c, x.items[i])
    ensures Rewritten(x).Arr? && |Rewritten(x).items| == |x.items|
    ensures forall i, v | 0 <= i < |x.items| ::
      Accepts(Referred, c, x.items[i], v) == Accepts(Draft30, c, Rewritten(x).items[i], v)
    decreases x, 4
  {
    RewrittenArr(x.items);
    forall i, v | 0 <= i < |x.items|
      ensures Accepts(Referred, c, x.items[i], v) == Accepts(Draft30, c, Rewritten(x).items[i], v)
    {
      ReadingPreserved(c, x.items[i], v);
    }
  }

  lemma {:induction false} SubschemaPreserved(c: Context, x: Json)
    requires WellFormed(c, x)
    ensures forall v :: Accepts(Referred, c, x, v) == Accepts(Draft30, c, Rewritten(x), v)
    decreases x, 4
  {
    forall v ensures Accepts(Referred, c, x, v) == Accepts(Draft30, c, Rewritten(x), v) {
      ReadingPreserved(c, x, v);
    }
  }

  lemma DeclaredPropertiesKept(c: Context, s: Json)
    requires s.Obj? && NodeShaped(s.fields) && WellFormedChildren(c, s)
    ensures forall p :: DeclaresProperty(NodeFields(s.fields), p) == DeclaresProperty(s.fields, p)
  {
    if Properties in s.fields {
      RewrittenProperties(c, s.fields[Properties].fields);
    }
  }

  lemma {:induction false} PropertiesPreserved(c: Context, x: Json)
    requires x.Obj? && forall p | p in x.fields :: WellFormed(c, x.fields[p])
    ensures Rewritten(x).Obj? && Rewritten(x).fields.Keys == x.fields.Keys
    ensures forall p, v | p in x.fields ::
      Accepts(Referred, c, x.fields[p], v) == Accepts(Draft30, c, Rewritten(x).fields[p], v)
    decreases x, 4
  {
    RewrittenProperties(c, x.fields);
    forall p, v | p in x.fields
      ensures Accepts(Referred, c, x.fields[p], v) == Accepts(Draft30, c, Rewritten(x).fields[p], v)
    {
      ReadingPreserved(c, x.fields[p], v);
    }
  }

  /** The null branch of a plain union accepts null and nothing else. */
  lemma NullBranchAcceptsNull(d: Draft, c: Context, a: Json, v: Json)
    requires IsNullBranch(a) && OnlyKey(a.fields, Type) && !d.Draft30?
    ensures Accepts(d, c, a, v) == v.Null?
  {
    assert TypeOk(d, a.fields, v) == v.Null?;
    forall k | k in a.fields ensures Keyword(d, c, a, k, v) {
    }
  }

  lemma OneOfTwo(d: Draft, c: Context, branches: Json, v: Json)
    requires branches.Arr? && |branches.items| == 2
    ensures |AcceptedBy(d, c, branches, v)| == 1
      <==> Accepts(d, c, branches.items[0], v) != Accepts(d, c, branches.items[1], v)
  {
    var first, second := Accepts(d, c, branches.items[0], v), Accepts(d, c, branches.items[1], v);
    assert AcceptedBy(d, c, branches, v) == (if first then {0} else {}) + (if second then {1} else {});
  }

  /** Beside `oneOf` a plain union asserts nothing. */
  lemma PlainUnionIsItsOneOf(d: Draft, c: Context, s: Json, v: Json)
    requires s.Obj? && IsNullableUnion(s.fields) && PlainUnion(s.fields)
    requires d.Draft31? || (d.Referred? && !IsReferenceUnion(s.fields))
    ensures Accepts(d, c, s, v) == Keyword(d, c, s, OneOf, v)
  {
    forall k | k in s.fields && k != OneOf ensures Keyword(d, c, s, k, v) {
      assert k.Annotation?;
    }
    assert Rest(d, c, s, v) == Keyword(d, c, s, OneOf, v);
  }

  /** The `oneOf` of a plain union: null, unless the other branch takes it too, and whatever that branch takes. */
  lemma PlainUnionAccepts(d: Draft, c: Context, s: Json, v: Json)
    requires s.Obj? && IsNullableUnion(s.fields) && PlainUnion(s.fields) && !d.Draft30?
    ensures Keyword(d, c, s, OneOf, v) == (Accepts(d, c, Obj(CollapseOther(s.fields).value), v) != v.Null?)
  {
    var x := s.fields[OneOf];
    var i := SurvivingBranch(x.items).value;
    assert x.items[i] == Obj(CollapseOther(s.fields).value);
    NullBranchAcceptsNull(d, c, x.items[1 - i], v);
    OneOfTwo(d, c, x, v);
  }

  /** Merging a branch into a node that has only annotations of its own adds no assertion. */
  lemma MergedRest(c: Context, n: map<Key, Json>, v: Json)
    requires IsNullableUnion(n) && OnlyKey(n, OneOf)
    ensures Rest(Draft30, c, Obj(CollapseNode(n)), v) == Rest(Draft30, c, Obj(CollapseOther(n).value), v)
  {
    var other := CollapseOther(n).value;
    var merged := CollapseNode(n);
    forall k | k in other ensures Keyword(Draft30, c, Obj(merged), k, v) == Keyword(Draft30, c, Obj(other), k, v) {
      SameKeywordSamePart(c, merged, other, k, v);
    }
    forall k | k in merged && k !in other ensures Keyword(Draft30, c, Obj(merged), k, v) {
      assert k.Annotation? || k == Nullable;
    }
  }

  lemma SameKeywordSamePart(c: Context, m: map<Key, Json>, n: map<Key, Json>, k: Key, v: Json)
    requires k in m && k in n && (k == Nullable || m[k] == n[k])
    requires forall p :: DeclaresProperty(m, p) == DeclaresProperty(n, p)
    ensures Keyword(Draft30, c, Obj(m), k, v) == Keyword(Draft30, c, Obj(n), k, v)
  {
  }

  /** The merged node takes its type from the branch, made nullable, and is no reference unless the branch is. */
  lemma MergedType(n: map<Key, Json>, v: Json)
    requires IsNullableUnion(n) && OnlyKey(n, OneOf)
    ensures TypeOk(Draft30, CollapseNode(n), v) == TypeOk(Draft30, CollapseOther(n).value[Nullable := Bool(true)], v)
    ensures IsRef(CollapseNode(n)) == IsRef(CollapseOther(n).value)
  {
    assert Type in CollapseNode(n) <==> Type in CollapseOther(n).value;
  }

  /** A collapsed node in 3.0: the branch's own keywords, with null let in by an explicit type. */
  lemma CollapsedNodeAccepts(c: Context, n: map<Key, Json>, v: Json)
    requires IsNullableUnion(n) && OnlyKey(n, OneOf)
    requires !IsRef(CollapseOther(n).value)
    ensures var other := CollapseOther(n).value;
      Accepts(Draft30, c, Obj(CollapseNode(n)), v)
        == (TypeOk(Draft30, other[Nullable := Bool(true)], v) && Rest(Draft30, c, Obj(other), v))
  {
    MergedType(n, v);
    MergedRest(c, n, v);
  }

  /** An explicit type, made nullable, takes null and whatever it took before. */
  lemma NullableType(fields: map<Key, Json>, v: Json)
    requires NodeShaped(fields) && Type in fields && fields[Type].Str? && fields[Type].s != "null"
    ensures TypeOk(Draft30, NodeFields(fields)[Nullable := Bool(true)], v) == (v.Null? || TypeOk(Referred, fields, v))
    ensures v.Null? ==> !TypeOk(Referred, fields, v)
  {
  }

  lemma {:induction false} UnionPreserved(c: Context, s: Json, v: Json)
    requires WellFormed(c, s) && s.Obj? && IsNullableUnion(s.fields)
    ensures Accepts(Draft30, c, Rewritten(s), v) == Accepts(Referred, c, s, v)
    decreases s, 2
  {
    if IsReferenceUnion(s.fields) {
      ReferenceUnionAccepts(c, s, v);
    } else {
      TypedUnionPreserved(c, s, v);
      PlainUnionIsItsOneOf(Referred, c, s, v);
    }
  }

  /** A plain union whose branch can be made nullable: the rewritten node accepts what the `oneOf` does. */
  lemma {:induction false} TypedUnionPreserved(c: Context, s: Json, v: Json)
    requires s.Obj? && NodeShaped(s.fields) && WellFormedChildren(c, s)
    requires IsNullableUnion(s.fields) && PlainUnion(s.fields) && BranchTakesNullable(c, CollapseOther(s.fields).value)
    ensures Accepts(Draft30, c, Rewritten(s), v) == Keyword(Referred, c, s, OneOf, v)
    decreases s, 1
  {
    var other := CollapseOther(s.fields).value;
    var x := Obj(other);
    assert WellFormed(c, x);
    TypedBranchIsPlain(c, other);
    RestPreserved(c, x, v);
    assert Keyword(Referred, c, s, OneOf, v)
      == ((TypeOk(Referred, other, v) && Rest(Referred, c, x, v)) != v.Null?) by {
      PlainUnionAccepts(Referred, c, s, v);
    }
    NullableType(other, v);
    CollapsedUnionAccepts(c, s, v);
  }

  lemma TypedBranchIsPlain(c: Context, other: map<Key, Json>)
    requires WellFormed(c, Obj(other)) && Type in other
    ensures !IsNullableUnion(other) && !IsRef(other)
  {
    if IsNullableUnion(other) {
      PlainUnionHasNoType(other);
      assert false;
    }
  }

  /** The rewritten form of a plain union: its rewritten branch merged into its annotations. */
  lemma RewrittenUnion(c: Context, s: Json)
    requires s.Obj? && NodeShaped(s.fields) && WellFormedChildren(c, s)
    requires IsNullableUnion(s.fields) && PlainUnion(s.fields)
    ensures var n := NodeFields(s.fields);
      && IsNullableUnion(n) && OnlyKey(n, OneOf)
      && Rewritten(s) == Obj(CollapseNode(n))
      && Rewritten(Obj(CollapseOther(s.fields).value)) == Obj(CollapseOther(n).value)
      && WellFormed(c, Obj(CollapseOther(s.fields).value))
  {
    UnionKeepsItsBranch(c, s);
    RewrittenObj(s.fields);
  }

  lemma RewrittenPlainBranch(c: Context, other: map<Key, Json>)
    requires WellFormed(c, Obj(other)) && !IsNullableUnion(other)
    ensures Rewritten(Obj(other)) == Obj(NodeFields(other))
  {
    UnionKeepsItsBranch(c, Obj(other));
    RewrittenObj(other);
  }

  /** A plain union over a branch that is no union itself is rewritten to that branch, made nullable. */
  lemma CollapsedUnionAccepts(c: Context, s: Json, v: Json)
    requires s.Obj? && NodeShaped(s.fields) && WellFormedChildren(c, s)
    requires IsNullableUnion(s.fields) && PlainUnion(s.fields)
    requires var other := CollapseOther(s.fields).value; !IsNullableUnion(other) && !IsRef(other)
    ensures var t := NodeFields(CollapseOther(s.fields).value);
      Accepts(Draft30, c, Rewritten(s), v)
        == (TypeOk(Draft30, t[Nullable := Bool(true)], v) && Rest(Draft30, c, Obj(t), v))
  {
    var other := CollapseOther(s.fields).value;
    RewrittenUnion(c, s);
    RewrittenPlainBranch(c, other);
    RefPreserved(c, Obj(other), v);
    CollapsedNodeAccepts(c, NodeFields(s.fields), v);
  }

  // ---- unions over a reference ---------------------------------------------------

  lemma MergedReference(n: map<Key, Json>)
    requires IsNullableUnion(n) && IsRef(CollapseOther(n).value)
    ensures IsRef(CollapseNode(n)) && CollapseNode(n)[Ref] == CollapseOther(n).value[Ref]
  {
  }

  lemma ReferenceIsNoUnion(fields: map<Key, Json>)
    requires NodeShaped(fields) && Ref in fields
    ensures !IsNullableUnion(fields)
  {
  }

  /** A union of null and a reference keeps the reference, and 3.0 ignores the `nullable` beside it. */
  lemma ReferenceUnionAccepts(c: Context, s: Json, v: Json)
    requires s.Obj? && NodeShaped(s.fields) && WellFormedChildren(c, s) && IsReferenceUnion(s.fields)
    ensures Rewritten(s).Obj? && IsRef(Rewritten(s).fields)
      && Rewritten(s).fields[Ref] == CollapseOther(s.fields).value[Ref]
    ensures Accepts(Draft30, c, Rewritten(s), v) == c.component(CollapseOther(s.fields).value[Ref].s, v)
  {
    var other := CollapseOther(s.fields).value;
    RewrittenUnion(c, s);
    ReferenceIsNoUnion(other);
    RewrittenPlainBranch(c, other);
    RefPreserved(c, Obj(other), v);
    MergedReference(NodeFields(s.fields));
  }

  /** The `oneOf` of such a union: the reference, but for null, which it takes exactly if the reference does not. */
  lemma ReferenceUnionIsItsReference(d: Draft, c: Context, s: Json, v: Json)
    requires s.Obj? && IsReferenceUnion(s.fields) && !d.Draft30?
    ensures Keyword(d, c, s, OneOf, v) == (c.component(CollapseOther(s.fields).value[Ref].s, v) != v.Null?)
  {
    PlainUnionAccepts(d, c, s, v);
    ReferenceAccepts(d, c, Obj(CollapseOther(s.fields).value), v);
  }

  /** Over every instance: such a union means the same before and after exactly for the instances other than null. */
  lemma ReferenceUnionExactly(c: Context, s: Json, v: Json)
    requires s.Obj? && NodeShaped(s.fields) && WellFormedChildren(c, s) && IsReferenceUnion(s.fields)
    ensures Accepts(Draft30, c, Rewritten(s), v) == Accepts(Draft31, c, s, v) <==> !v.Null?
  {
    ReferenceUnionAccepts(c, s, v);
    PlainUnionIsItsOneOf(Draft31, c, s, v);
    ReferenceUnionIsItsReference(Draft31, c, s, v);
  }

  // ---- where nothing is lost ---------------------------------------------------------

  /** No union of null and a reference at any position of a schema in `s`. */
  predicate NoReferenceUnion(s: Json)
    decreases s, 1
  {
    s.Obj? ==> !IsReferenceUnion(s.fields) && NoReferenceUnionInside(s)
  }

  predicate NoReferenceUnionInside(s: Json)
    requires s.Obj?
    decreases s, 0
  {
    var fields := s.fields;
    && (forall k | k in fields && IsCombinator(k) :: fields[k].Arr? ==>
          forall i | 0 <= i < |fields[k].items| :: NoReferenceUnion(fields[k].items[i]))
    && (Properties in fields && fields[Properties].Obj? ==>
          forall p | p in fields[Properties].fields :: NoReferenceUnion(fields[Properties].fields[p]))
    && forall k | k in fields && IsSubschema(k) :: NoReferenceUnion(fields[k])
  }

  /** No null anywhere in an instance. */
  predicate NoNulls(v: Json) {
    match v
    case Null => false
    case Arr(items) => forall i | 0 <= i < |items| :: NoNulls(items[i])
    case Obj(fields) => forall k | k in fields :: NoNulls(fields[k])
    case _ => true
  }

  /** Reading null-or-reference unions as their reference changes nothing without such unions, or without null. */
  lemma {:induction false} ReadAsWritten(c: Context, s: Json, v: Json)
    requires NoReferenceUnion(s) || NoNulls(v)
    ensures Accepts(Referred, c, s, v) == Accepts(Draft31, c, s, v)
    decreases s, 2
  {
    if s.Obj? {
      if IsReferenceUnion(s.fields) {
        PlainUnionIsItsOneOf(Draft31, c, s, v);
        ReferenceUnionIsItsReference(Draft31, c, s, v);
      } else {
        RestAsWritten(c, s, v);
      }
    }
  }

  lemma {:induction false} RestAsWritten(c: Context, s: Json, v: Json)
    requires s.Obj? && (NoReferenceUnionInside(s) || NoNulls(v))
    ensures Rest(Referred, c, s, v) == Rest(Draft31, c, s, v)
    decreases s, 1
  {
    forall k | k in s.fields ensures Keyword(Referred, c, s, k, v) == Keyword(Draft31, c, s, k, v) {
      KeywordAsWritten(c, s, k, v);
    }
  }

  lemma {:induction false} KeywordAsWritten(c: Context, s: Json, k: Key, v: Json)
    requires s.Obj? && k in s.fields && (NoReferenceUnionInside(s) || NoNulls(v))
    ensures Keyword(Referred, c, s, k, v) == Keyword(Draft31, c, s, k, v)
    decreases s, 0
  {
    var x := s.fields[k];
    if IsCombinator(k) && x.Arr? {
      BranchesAsWritten(c, x, v);
    } else if k == Properties && x.Obj? && v.Obj? {
      forall p | p in x.fields && p in v.fields
        ensures Accepts(Referred, c, x.fields[p], v.fields[p]) == Accepts(Draft31, c, x.fields[p], v.fields[p])
      {
        ReadAsWritten(c, x.fields[p], v.fields[p]);
      }
    } else if k == AdditionalProperties && v.Obj? {
      forall p | p in v.fields ensures Accepts(Referred, c, x, v.fields[p]) == Accepts(Draft31, c, x, v.fields[p]) {
        ReadAsWritten(c, x, v.fields[p]);
      }
    } else if k == Items && v.Arr? {
      forall i | 0 <= i < |v.items| ensures Accepts(Referred, c, x, v.items[i]) == Accepts(Draft31, c, x, v.items[i]) {
        ReadAsWritten(c, x, v.items[i]);
      }
    }
  }

  lemma {:induction false} BranchesAsWritten(c: Context, x: Json, v: Json)
    requires x.Arr? && (NoNulls(v) || forall i | 0 <= i < |x.items| :: NoReferenceUnion(x.items[i]))
    ensures AcceptedBy(Referred, c, x, v) == AcceptedBy(Draft31, c, x, v)
    decreases x, 3
  {
    forall i | 0 <= i < |x.items| ensures Accepts(Referred, c, x.items[i], v) == Accepts(Draft31, c, x.items[i], v) {
      ReadAsWritten(c, x.items[i], v);
    }
  }

  /**
    Meaning preservation: over every well-formed schema, at every depth. A schema without unions of null and
    a reference accepts exactly what it accepted; one with such unions does so for every instance without a null.
  */
  lemma MeaningPreserved(c: Context, s: Json, v: Json)
    requires WellFormed(c, s) && (NoReferenceUnion(s) || NoNulls(v))
    ensures Accepts(Draft30, c, Rewritten(s), v) == Accepts(Draft31, c, s, v)
  {
    ReadingPreserved(c, s, v);
    ReadAsWritten(c, s, v);
  }

  // ---- when a union is collapsible ---------------------------------------------

  lemma CollapsedNodeIsNullable(n: map<Key, Json>)
    requires IsNullableUnion(n) && OnlyKey(n, OneOf) && !IsRef(CollapseOther(n).value)
    ensures CollapseNode(n)[Nullable := Bool(true)] == CollapseNode(n) && !IsRef(CollapseNode(n))
  {
  }

  lemma PlainBranchIsNoReference(c: Context, other: map<Key, Json>)
    requires WellFormed(c, Obj(other)) && Type in other
    ensures Rewritten(Obj(other)).Obj? && !IsRef(Rewritten(Obj(other)).fields)
  {
    TypedBranchIsPlain(c, other);
    RewrittenPlainBranch(c, other);
    RefPreserved(c, Obj(other), Null);
  }

  /** A node that collapsed over a typed branch is nullable already. */
  lemma CollapsedBranchIsNullable(c: Context, x: Json)
    requires WellFormed(c, x) && x.Obj? && IsNullableUnion(x.fields) && !IsReferenceUnion(x.fields)
    ensures Rewritten(x).Obj? && !IsRef(Rewritten(x).fields)
    ensures Rewritten(x).fields[Nullable := Bool(true)] == Rewritten(x).fields
  {
    RewrittenUnion(c, x);
    PlainBranchIsNoReference(c, CollapseOther(x.fields).value);
    CollapsedNodeIsNullable(NodeFields(x.fields));
  }

  lemma WellFormedUnionTakesNull(c: Context, x: Json)
    requires WellFormed(c, x) && x.Obj? && IsNullableUnion(x.fields) && !IsReferenceUnion(x.fields)
    ensures Accepts(Referred, c, x, Null)
  {
    PlainUnionIsItsOneOf(Referred, c, x, Null);
    PlainUnionAccepts(Referred, c, x, Null);
    NullableType(CollapseOther(x.fields).value, Null);
  }

  /** A union of a typed union lets null in twice: the source rejects it and the target takes it. */
  lemma NestedUnionAtNull(c: Context, s: Json)
    requires s.Obj? && NodeShaped(s.fields) && WellFormedChildren(c, s)
    requires IsNullableUnion(s.fields) && PlainUnion(s.fields)
    requires IsNullableUnion(CollapseOther(s.fields).value) && !IsReferenceUnion(CollapseOther(s.fields).value)
    ensures !Keyword(Referred, c, s, OneOf, Null) && Accepts(Draft30, c, Rewritten(s), Null)
  {
    var x := Obj(CollapseOther(s.fields).value);
    RewrittenUnion(c, s);
    WellFormedUnionTakesNull(c, x);
    PlainUnionAccepts(Referred, c, s, Null);
    ReadingPreserved(c, x, Null);
    CollapsedBranchIsNullable(c, x);
    CollapsedNodeAccepts(c, NodeFields(s.fields), Null);
  }

  /** A union of null and a reference, collapsed, disagrees with its `oneOf` at null. */
  lemma ReferenceAtNull(c: Context, s: Json)
    requires s.Obj? && NodeShaped(s.fields) && WellFormedChildren(c, s)
    requires IsNullableUnion(s.fields) && PlainUnion(s.fields) && IsRef(CollapseOther(s.fields).value)
    ensures Accepts(Draft30, c, Rewritten(s), Null) != Keyword(Referred, c, s, OneOf, Null)
  {
    assert WellFormed(c, Obj(CollapseOther(s.fields).value));
    ReferenceUnionAccepts(c, s, Null);
    ReferenceUnionIsItsReference(Referred, c, s, Null);
  }

  /** So does a union of null and such a union. */
  lemma NestedReferenceAtNull(c: Context, s: Json)
    requires s.Obj? && NodeShaped(s.fields) && WellFormedChildren(c, s)
    requires IsNullableUnion(s.fields) && PlainUnion(s.fields)
    requires var other := CollapseOther(s.fields).value; IsNullableUnion(other) && IsReferenceUnion(other)
    ensures Accepts(Draft30, c, Rewritten(s), Null) != Keyword(Referred, c, s, OneOf, Null)
  {
    var x := Obj(CollapseOther(s.fields).value);
    RewrittenUnion(c, s);
    PlainUnionAccepts(Referred, c, s, Null);
    ReferenceUnionAccepts(c, x, Null);
    MergedReference(NodeFields(s.fields));
  }

  lemma PlainBranchAtNull(c: Context, s: Json)
    requires s.Obj? && NodeShaped(s.fields) && WellFormedChildren(c, s)
    requires IsNullableUnion(s.fields) && PlainUnion(s.fields)
    requires var other := CollapseOther(s.fields).value; !IsNullableUnion(other) && !IsRef(other)
    ensures Accepts(Draft30, c, Rewritten(s), Null) == Keyword(Referred, c, s, OneOf, Null)
      <==> BranchTakesNullable(c, CollapseOther(s.fields).value)
  {
    var other := CollapseOther(s.fields).value;
    assert WellFormed(c, Obj(other));
    PlainUnionAccepts(Referred, c, s, Null);
    RestPreserved(c, Obj(other), Null);
    CollapsedUnionAccepts(c, s, Null);
    NullInBranch(other);
  }

  /** Null and the type of a branch: before, only a type array lets it in; after, any type does. */
  lemma NullInBranch(fields: map<Key, Json>)
    requires NodeShaped(fields) && !IsNullBranch(Obj(fields))
    ensures TypeOk(Referred, fields, Null) <==> !(Type in fields && fields[Type].Str?)
    ensures TypeOk(Draft30, NodeFields(fields)[Nullable := Bool(true)], Null)
  {
    if Type in fields && fields[Type].Arr? {
      var ts := fields[Type].items;
      assert ts == [ts[0], ts[1]];
      var i := if ts[0] == Str("null") then 0 else 1;
      assert ts[i].Str? && HasType(Null, ts[i].s);
    }
  }

  /**
    One union, with whatever beneath it: collapsing it keeps the meaning of its `oneOf` exactly when the
    surviving branch writes a single type and nothing else in it rejects null.
  */
  lemma CollapseExact(c: Context, s: Json)
    requires s.Obj? && NodeShaped(s.fields) && WellFormedChildren(c, s)
    requires IsNullableUnion(s.fields) && PlainUnion(s.fields)
    ensures (forall v :: Accepts(Draft30, c, Rewritten(s), v) == Keyword(Referred, c, s, OneOf, v))
      <==> BranchTakesNullable(c, CollapseOther(s.fields).value)
  {
    var other := CollapseOther(s.fields).value;
    assert WellFormed(c, Obj(other));
    if BranchTakesNullable(c, other) {
      forall v ensures Accepts(Draft30, c, Rewritten(s), v) == Keyword(Referred, c, s, OneOf, v) {
        TypedUnionPreserved(c, s, v);
      }
    } else if IsRef(other) {
      ReferenceAtNull(c, s);
    } else if IsReferenceUnion(other) {
      NestedReferenceAtNull(c, s);
    } else if IsNullableUnion(other) {
      NestedUnionAtNull(c, s);
    } else {
      PlainBranchAtNull(c, s);
    }
  }

  /** The same for the whole meaning of the node, when no union beneath it is over a reference. */
  lemma CollapseExactly31(c: Context, s: Json)
    requires s.Obj? && NodeShaped(s.fields) && WellFormedChildren(c, s) && NoReferenceUnionInside(s)
    requires IsNullableUnion(s.fields) && PlainUnion(s.fields)
    ensures (forall v :: Accepts(Draft30, c, Rewritten(s), v) == Accepts(Draft31, c, s, v))
      <==> BranchTakesNullable(c, CollapseOther(s.fields).value)
  {
    CollapseExact(c, s);
    forall v ensures Accepts(Draft31, c, s, v) == Keyword(Referred, c, s, OneOf, v) {
      PlainUnionIsItsOneOf(Draft31, c, s, v);
      KeywordAsWritten(c, s, OneOf, v);
    }
  }

  /** The shape of every nullable union in the explorer's document. */
  function NullOr(component: string): Json {
    Obj(map[OneOf := Arr([Obj(map[Type := Str("null")]), Obj(map[Ref := Str(component)])])])
  }

  lemma LeafIsWellFormed(c: Context, k: Key, value: string)
    requires k == Type || k == Ref
    ensures WellFormed(c, Obj(map[k := Str(value)])) && !IsNullableUnion(map[k := Str(value)])
  {
  }

  lemma NullOrIsReferenceUnion(component: string)
    ensures var union := NullOr(component);
      IsReferenceUnion(union.fields) && CollapseOther(union.fields).value[Ref].s == component
  {
    var a, b := Obj(map[Type := Str("null")]), Obj(map[Ref := Str(component)]);
    assert Type in a.fields && Ref in b.fields;
    assert IsNullBranch(a) && IsOtherBranch(b);
    assert SurvivingBranch([a, b]) == Option.Some(1);
    assert CollapseOther(NullOr(component).fields) == Option.Some(b.fields);
  }

  lemma NullOrIsWellFormed(c: Context, component: string)
    ensures WellFormed(c, NullOr(component))
  {
    LeafIsWellFormed(c, Type, "null");
    LeafIsWellFormed(c, Ref, component);
    NullOrIsReferenceUnion(component);
  }

  /** 3.1 takes null there and, read strictly, the rewritten schema does not, whatever else the component accepts. */
  lemma ReferenceUnionLosesNull(c: Context, component: string)
    requires !c.component(component, Null)
    ensures var union := NullOr(component);
      WellFormed(c, union) && Accepts(Draft31, c, union, Null) && !Accepts(Draft30, c, Rewritten(union), Null)
  {
    var union := NullOr(component);
    NullOrIsReferenceUnion(component);
    NullOrIsWellFormed(c, component);
    ReferenceUnionAccepts(c, union, Null);
    ReferenceUnionExactly(c, union, Null);
  }

  /**
    Whole documents: whatever meaning solves the equations of the 3.1 components, recursive ones
    included, with each union of null and a reference read as its reference, solves those of the
    rewritten components, and the other way round.
  */
  lemma ComponentsPreserved(c: Context, components: map<string, Json>)
    requires forall r | r in components :: WellFormed(c, components[r])
    ensures (forall r, v | r in components :: c.component(r, v) == Accepts(Referred, c, components[r], v))
      <==> (forall r, v | r in components :: c.component(r, v) == Accepts(Draft30, c, Rewritten(components[r]), v))
  {
    forall r, v | r in components
      ensures Accepts(Referred, c, components[r], v) == Accepts(Draft30, c, Rewritten(components[r]), v)
    {
      ReadingPreserved(c, components[r], v);
    }
  }

  /** And as 2020-12 reads them, for the documents that have no such union. */
  lemma ComponentsPreserved31(c: Context, components: map<string, Json>)
    requires forall r | r in components :: WellFormed(c, components[r]) && NoReferenceUnion(components[r])
    ensures (forall r, v | r in components :: c.component(r, v) == Accepts(Draft31, c, components[r], v))
      <==> (forall r, v | r in components :: c.component(r, v) == Accepts(Draft30, c, Rewritten(components[r]), v))
  {
    forall r, v | r in components
      ensures Accepts(Draft31, c, components[r], v) == Accepts(Draft30, c, Rewritten(components[r]), v)
    {
      MeaningPreserved(c, components[r], v);
    }
  }
}
