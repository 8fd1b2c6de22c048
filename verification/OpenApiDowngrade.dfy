/**
  The two in-place passes of build.rs that turn the explorer's OpenAPI 3.1 document
  into a 3.0 one. Rust owns the tree uniquely, so a pass is a method from a tree to the
  tree it leaves behind, proved equal to a function on trees.
 */
module OpenApiDowngrade {
  import opened Json
  import opened Wrappers

  // ---- downgrade_type_arrays -------------------------------------------------

  /** The type a two-element array holding "null" and another string is rewritten to. */
  function NonNullType(t: Json): Option<string> {
    if t.Arr? && |t.items| == 2 && Str("null") in t.items then
      if t.items[0].Str? && t.items[0].s != "null" then Some(t.items[0].s)
      else if t.items[1].Str? && t.items[1].s != "null" then Some(t.items[1].s)
      else None
    else None
  }

  /** Two strings of which exactly one is "null". */
  predicate IsNullableArray(t: Json) {
    t.Arr? && |t.items| == 2 && t.items[0].Str? && t.items[1].Str?
    && (t.items[0].s == "null") != (t.items[1].s == "null")
  }

  /** Which arrays are rewritten, and to what: those of one other string and "null", in either order. */
  lemma NonNullTypeExactly(t: Json, s: string)
    ensures NonNullType(t) == Some(s)
      <==> s != "null" && (t == Arr([Str(s), Str("null")]) || t == Arr([Str("null"), Str(s)]))
    ensures NonNullType(t).Some? <==> IsNullableArray(t)
  {
    if t.Arr? && |t.items| == 2 {
      assert t.items == [t.items[0], t.items[1]];
    }
  }

  function RewrittenType(fields: map<Key, Json>): Option<string> {
    if Type in fields then NonNullType(fields[Type]) else None
  }

  function RewriteType(fields: map<Key, Json>): (r: map<Key, Json>)
    ensures forall k | k in r && IsContainer(r[k]) :: k in fields && r[k] == fields[k]
  {
    match RewrittenType(fields)
    case None => fields
    case Some(t) => fields[Type := Str(t)][Nullable := Bool(true)]
  }

  /** Top-down: rewrite this node, then walk whatever it now holds. */
  function Downgraded(v: Json): Json
    decreases v
  {
    match v
    case Obj(fields) =>
      var m := RewriteType(fields);
      Obj(map k | k in m :: if IsContainer(m[k]) then Downgraded(m[k]) else m[k])
    case Arr(items) => Arr(seq(|items|, i requires 0 <= i < |items| => Downgraded(items[i])))
    case _ => v
  }

  /** A type array with "null" becomes the other type, made nullable; the other keys stay, rewritten in turn. */
  lemma TypeArrayIsDowngraded(fields: map<Key, Json>, t: string)
    requires Type in fields && t != "null"
    requires fields[Type] == Arr([Str(t), Str("null")]) || fields[Type] == Arr([Str("null"), Str(t)])
    ensures var r := Downgraded(Obj(fields));
      && r.Obj? && r.fields.Keys == fields.Keys + {Nullable}
      && r.fields[Type] == Str(t) && r.fields[Nullable] == Bool(true)
      && forall k | k in fields && k != Type && k != Nullable :: r.fields[k] == Downgraded(fields[k])
  {
    NonNullTypeExactly(fields[Type], t);
  }

  /** Any other node keeps its keys, each rewritten in turn. */
  lemma OtherNodesAreKept(fields: map<Key, Json>)
    requires Type in fields ==> !IsNullableArray(fields[Type])
    ensures var r := Downgraded(Obj(fields));
      r.Obj? && r.fields.Keys == fields.Keys && forall k | k in fields :: r.fields[k] == Downgraded(fields[k])
  {
    if Type in fields {
      NonNullTypeExactly(fields[Type], "");
    }
  }

  method DowngradeTypeArrays(value: Json) returns (r: Json)
    ensures r == Downgraded(value)
    decreases value
  {
    match value {
      case Obj(fields) =>
        var m := RewriteType(fields);
        var done, todo := map[], m.Keys;
        while todo != {}
          invariant todo <= m.Keys && done.Keys == m.Keys - todo
          invariant forall k | k in done :: done[k] == if IsContainer(m[k]) then Downgraded(m[k]) else m[k]
          decreases todo
        {
          var k :| k in todo;
          var child := m[k];
          if IsContainer(child) {
            child := DowngradeTypeArrays(child);
          }
          done, todo := done[k := child], todo - {k};
        }
        r := Obj(done);
        assert done == Downgraded(value).fields;
      case Arr(items) =>
        var out := [];
        for i := 0 to |items|
          invariant |out| == i && forall j | 0 <= j < i :: out[j] == Downgraded(items[j])
        {
          var child := DowngradeTypeArrays(items[i]);
          out := out + [child];
        }
        r := Arr(out);
      case _ => r := value;
    }
  }

  // ---- collapse_nullable_oneof -----------------------------------------------

  predicate IsNullBranch(v: Json) {
    v.Obj? && Type in v.fields && v.fields[Type] == Str("null")
  }

  predicate IsOtherBranch(v: Json) {
    !IsNullBranch(v) && v.Obj? && v.fields != map[]
  }

  /** The position of the branch that survives, if `arr` is a nullable union. */
  function SurvivingBranch(arr: seq<Json>): (r: Option<nat>)
    ensures r.Some? ==> |arr| == 2 && r.value < 2 && IsOtherBranch(arr[r.value]) && IsNullBranch(arr[1 - r.value])
    ensures r.None? ==> |arr| != 2 || forall i | 0 <= i < 2 :: IsOtherBranch(arr[i]) ==> !IsNullBranch(arr[1 - i])
  {
    if |arr| == 2 && (IsNullBranch(arr[0]) || IsNullBranch(arr[1])) then
      if IsOtherBranch(arr[0]) then Some(0)
      else if IsOtherBranch(arr[1]) then Some(1)
      else None
    else None
  }

  /** The keys of the branch a nullable union is collapsed to, if this node is one. */
  function CollapseOther(fields: map<Key, Json>): Option<map<Key, Json>> {
    if OneOf in fields && fields[OneOf].Arr? && SurvivingBranch(fields[OneOf].items).Some?
    then Some(fields[OneOf].items[SurvivingBranch(fields[OneOf].items).value].fields)
    else None
  }

  function CollapseNode(fields: map<Key, Json>): map<Key, Json> {
    match CollapseOther(fields)
    case None => fields
    case Some(other) => ((fields - {OneOf}) + other)[Nullable := Bool(true)]
  }

  /** Which pairs are collapsed, and to which of the two: an object of type "null" and one with any other keys. */
  lemma SurvivingBranchExactly(arr: seq<Json>, i: nat)
    ensures SurvivingBranch(arr) == Some(i) <==>
      && |arr| == 2 && i < 2
      && arr[1 - i].Obj? && Type in arr[1 - i].fields && arr[1 - i].fields[Type] == Str("null")
      && arr[i].Obj? && arr[i].fields != map[] && (Type in arr[i].fields ==> arr[i].fields[Type] != Str("null"))
  {
  }

  /** The union goes, the keys of its branch take precedence over those of the node, and the node is nullable. */
  lemma UnionIsCollapsed(fields: map<Key, Json>, arr: seq<Json>, i: nat)
    requires OneOf in fields && fields[OneOf] == Arr(arr) && SurvivingBranch(arr) == Some(i)
    ensures var r, other := CollapseNode(fields), arr[i].fields;
      && r.Keys == (fields.Keys - {OneOf}) + other.Keys + {Nullable} && r[Nullable] == Bool(true)
      && (forall k | k in other && k != Nullable :: r[k] == other[k])
      && forall k | k in fields && k != OneOf && k != Nullable && k !in other :: r[k] == fields[k]
  {
  }

  /** Any other node stays. */
  lemma OtherNodesStay(fields: map<Key, Json>)
    requires OneOf in fields && fields[OneOf].Arr? ==> SurvivingBranch(fields[OneOf].items).None?
    ensures CollapseNode(fields) == fields
  {
  }

  /** Bottom-up: walk the children first, then collapse this node. */
  function Collapsed(v: Json): Json
    decreases v
  {
    match v
    case Obj(fields) => Obj(CollapseNode(map k | k in fields :: Collapsed(fields[k])))
    case Arr(items) => Arr(seq(|items|, i requires 0 <= i < |items| => Collapsed(items[i])))
    case _ => v
  }

  /** The inner loop over the branch's keys: each is inserted, replacing what the node had there. */
  method InsertAll(node: map<Key, Json>, branch: map<Key, Json>) returns (m: map<Key, Json>)
    ensures m == node + branch
  {
    m := node;
    var keys := branch.Keys;
    while keys != {}
      invariant keys <= branch.Keys
      invariant m == node + (branch - keys)
      decreases keys
    {
      var k :| k in keys;
      m, keys := m[k := branch[k]], keys - {k};
    }
    assert branch - {} == branch;
  }

  method CollapseNullableOneof(value: Json) returns (r: Json)
    ensures r == Collapsed(value)
    decreases value
  {
    match value {
      case Obj(fields) =>
        ghost var children := map k | k in fields :: Collapsed(fields[k]);
        var m, todo := map[], fields.Keys;
        while todo != {}
          invariant todo <= fields.Keys && m.Keys == fields.Keys - todo
          invariant forall k | k in m :: m[k] == Collapsed(fields[k])
          decreases todo
        {
          var k :| k in todo;
          var child := CollapseNullableOneof(fields[k]);
          m, todo := m[k := child], todo - {k};
        }
        assert m == children;
        var collapseOther := CollapseOther(m);
        if collapseOther.Some? {
          var other := collapseOther.value;
          m := m - {OneOf};
          m := InsertAll(m, other);
          m := m[Nullable := Bool(true)];
        }
        r := Obj(m);
      case Arr(items) =>
        var out := [];
        for i := 0 to |items|
          invariant |out| == i && forall j | 0 <= j < i :: out[j] == Collapsed(items[j])
        {
          var child := CollapseNullableOneof(items[i]);
          out := out + [child];
        }
        r := Arr(out);
      case _ => r := value;
    }
  }

  /** What build.rs does to the document, in its order. */
  function Rewritten(v: Json): Json {
    Collapsed(Downgraded(v))
  }

  // ---- the two passes fuse into one ------------------------------------------

  /** The fields of a node once its own type is rewritten and its children are fully rewritten. */
  function NodeFields(fields: map<Key, Json>): map<Key, Json> {
    var m := RewriteType(fields);
    map k | k in m :: Rewritten(m[k])
  }

  function CollapsedFields(fields: map<Key, Json>): map<Key, Json> {
    map k | k in fields :: Collapsed(fields[k])
  }

  lemma ChildrenFuse(fields: map<Key, Json>)
    ensures CollapsedFields(Downgraded(Obj(fields)).fields) == NodeFields(fields)
  {
    var m := RewriteType(fields);
    var d := Downgraded(Obj(fields)).fields;
    assert d.Keys == m.Keys;
    forall k | k in m ensures d[k] == Downgraded(m[k]) {
    }
  }

  lemma RewrittenObj(fields: map<Key, Json>)
    ensures Rewritten(Obj(fields)) == Obj(CollapseNode(NodeFields(fields)))
  {
    var d := Downgraded(Obj(fields));
    assert Collapsed(d) == Obj(CollapseNode(CollapsedFields(d.fields)));
    ChildrenFuse(fields);
  }

  lemma RewrittenArr(items: seq<Json>)
    ensures Rewritten(Arr(items)) == Arr(seq(|items|, i requires 0 <= i < |items| => Rewritten(items[i])))
  {
  }

  /** The walks do not change `v`. */
  predicate LeftAlone(v: Json) {
    Rewritten(v) == v
  }

  /** Data without objects in it passes through both walks untouched. */
  lemma {:induction false} DataIsFixed(v: Json)
    requires NoObjects(v)
    ensures Downgraded(v) == v && Collapsed(v) == v && LeftAlone(v)
  {
    if v.Arr? {
      forall i | 0 <= i < |v.items|
        ensures Downgraded(v.items[i]) == v.items[i] && Collapsed(v.items[i]) == v.items[i]
      {
        DataIsFixed(v.items[i]);
      }
      assert Downgraded(v).items == v.items;
      assert Collapsed(v).items == v.items;
    }
  }

  // ---- normal form -----------------------------------------------------------

  /** No node anywhere has a type of two strings of which exactly one is "null". */
  predicate NoTypeArray(v: Json) {
    match v
    case Obj(fields) =>
      (Type in fields ==> !IsNullableArray(fields[Type])) && forall k | k in fields :: NoTypeArray(fields[k])
    case Arr(items) => forall i | 0 <= i < |items| :: NoTypeArray(items[i])
    case _ => true
  }

  /** No node anywhere has a two-element nullable union left to collapse. */
  predicate NoNullableUnion(v: Json) {
    match v
    case Obj(fields) => CollapseOther(fields).None? && forall k | k in fields :: NoNullableUnion(fields[k])
    case Arr(items) => forall i | 0 <= i < |items| :: NoNullableUnion(items[i])
    case _ => true
  }

  /** Whether a type array is rewritable depends on its two strings alone, which a walk keeps. */
  lemma WalkKeepsTypeArray(t: Json)
    ensures NonNullType(Downgraded(t)) == NonNullType(t) && NonNullType(Collapsed(t)) == NonNullType(t)
    ensures IsNullableArray(Downgraded(t)) == IsNullableArray(t) && IsNullableArray(Collapsed(t)) == IsNullableArray(t)
  {
    if t.Arr? && |t.items| == 2 {
      assert t.items == [t.items[0], t.items[1]];
      assert Downgraded(t).items == [Downgraded(t.items[0]), Downgraded(t.items[1])];
      assert Collapsed(t).items == [Collapsed(t.items[0]), Collapsed(t.items[1])];
    }
  }

  lemma {:induction false} DowngradedHasNoTypeArray(v: Json)
    ensures NoTypeArray(Downgraded(v))
    decreases v
  {
    match v
    case Obj(fields) =>
      var m := RewriteType(fields);
      var d := Downgraded(v).fields;
      forall k | k in d ensures NoTypeArray(d[k]) {
        if IsContainer(m[k]) {
          DowngradedHasNoTypeArray(m[k]);
        }
      }
      if Type in m {
        WalkKeepsTypeArray(m[Type]);
      }
    case Arr(items) =>
      forall i | 0 <= i < |items| ensures NoTypeArray(Downgraded(items[i])) {
        DowngradedHasNoTypeArray(items[i]);
      }
    case _ =>
  }

  lemma {:induction false} DowngradedIsFixed(v: Json)
    requires NoTypeArray(v)
    ensures Downgraded(v) == v
    decreases v
  {
    match v
    case Obj(fields) =>
      forall k | k in fields ensures Downgraded(fields[k]) == fields[k] {
        DowngradedIsFixed(fields[k]);
      }
      assert Downgraded(v).fields == fields;
    case Arr(items) =>
      forall i | 0 <= i < |items| ensures Downgraded(items[i]) == items[i] {
        DowngradedIsFixed(items[i]);
      }
      assert Downgraded(v).items == items;
    case _ =>
  }

  /** The branch was itself in normal form, so the keys it contributes cannot form a new union. */
  lemma MergedHasNoNullableUnion(children: map<Key, Json>)
    requires forall k | k in children :: NoNullableUnion(children[k])
    ensures NoNullableUnion(Obj(CollapseNode(children)))
  {
    match CollapseOther(children) {
      case None =>
      case Some(other) =>
        var arr := children[OneOf];
        assert NoNullableUnion(arr);
        var i :| 0 <= i < 2 && arr.items[i] == Obj(other);
        assert NoNullableUnion(arr.items[i]);
    }
  }

  lemma {:induction false} CollapsedHasNoNullableUnion(v: Json)
    ensures NoNullableUnion(Collapsed(v))
    decreases v
  {
    match v
    case Obj(fields) =>
      var children := CollapsedFields(fields);
      forall k | k in fields ensures NoNullableUnion(children[k]) {
        CollapsedHasNoNullableUnion(fields[k]);
      }
      MergedHasNoNullableUnion(children);
    case Arr(items) =>
      forall i | 0 <= i < |items| ensures NoNullableUnion(Collapsed(items[i])) {
        CollapsedHasNoNullableUnion(items[i]);
      }
    case _ =>
  }

  lemma {:induction false} CollapsedIsFixed(v: Json)
    requires NoNullableUnion(v)
    ensures Collapsed(v) == v
    decreases v
  {
    match v
    case Obj(fields) =>
      forall k | k in fields ensures Collapsed(fields[k]) == fields[k] {
        CollapsedIsFixed(fields[k]);
      }
      assert (map k | k in fields :: Collapsed(fields[k])) == fields;
    case Arr(items) =>
      forall i | 0 <= i < |items| ensures Collapsed(items[i]) == items[i] {
        CollapsedIsFixed(items[i]);
      }
      assert Collapsed(v).items == items;
    case _ =>
  }

  /** Merging a branch's keys upward creates no new type array to rewrite. */
  lemma CollapseNodeKeepsNoTypeArray(fields: map<Key, Json>)
    requires NoTypeArray(Obj(fields))
    ensures NoTypeArray(Obj(CollapseNode(fields)))
  {
    match CollapseOther(fields)
    case None =>
    case Some(other) =>
      var arr := fields[OneOf];
      assert NoTypeArray(arr);
      assert NoTypeArray(arr.items[0]) && NoTypeArray(arr.items[1]);
      assert NoTypeArray(Obj(other));
      var merged := CollapseNode(fields);
      forall k | k in merged ensures NoTypeArray(merged[k]) {
        assert k == Nullable || (k in other && merged[k] == other[k]) || merged[k] == fields[k];
      }
  }

  lemma {:induction false} CollapsedKeepsNoTypeArray(v: Json)
    requires NoTypeArray(v)
    ensures NoTypeArray(Collapsed(v))
    decreases v
  {
    match v
    case Obj(fields) =>
      var children := CollapsedFields(fields);
      forall k | k in fields ensures NoTypeArray(children[k]) {
        CollapsedKeepsNoTypeArray(fields[k]);
      }
      if Type in fields {
        WalkKeepsTypeArray(fields[Type]);
      }
      CollapseNodeKeepsNoTypeArray(children);
    case Arr(items) =>
      forall i | 0 <= i < |items| ensures NoTypeArray(Collapsed(items[i])) {
        CollapsedKeepsNoTypeArray(items[i]);
      }
    case _ =>
  }

  /** After both passes nothing is left for either, so running the pair again changes nothing. */
  lemma RewrittenIsNormalForm(v: Json)
    ensures NoTypeArray(Rewritten(v)) && NoNullableUnion(Rewritten(v))
    ensures Rewritten(Rewritten(v)) == Rewritten(v)
    ensures Downgraded(Downgraded(v)) == Downgraded(v) && Collapsed(Collapsed(v)) == Collapsed(v)
  {
    DowngradedHasNoTypeArray(v);
    CollapsedKeepsNoTypeArray(Downgraded(v));
    CollapsedHasNoNullableUnion(Downgraded(v));
    CollapsedHasNoNullableUnion(v);
    DowngradedIsFixed(Rewritten(v));
    CollapsedIsFixed(Rewritten(v));
    DowngradedIsFixed(Downgraded(v));
    CollapsedIsFixed(Collapsed(v));
  }
}
