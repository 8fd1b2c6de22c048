/** The path-derived operation ids of build.rs, and when they are unique. */
module OperationIds {
  import opened Json

  const METHODS: seq<string> := ["get", "post", "put", "delete", "patch"]

  /** The methods of OpenAPI 3.0.3 section 4.7.9 that the rewriting passes over. */
  const OTHER_METHODS: seq<string> := ["head", "options", "trace"]

  function TrimStart(s: string): string {
    if s != [] && s[0] == '/' then TrimStart(s[1..]) else s
  }

  function TrimEnd(s: string): string {
    if s != [] && s[|s| - 1] == '/' then TrimEnd(s[..|s| - 1]) else s
  }

  /** Slashes and dashes become underscores, braces go. */
  function Substituted(s: string): string {
    if s == [] then []
    else
      (if s[0] == '/' || s[0] == '-' then "_" else if s[0] == '{' || s[0] == '}' then "" else [s[0]])
      + Substituted(s[1..])
  }

  function Cleaned(path: string): string {
    Substituted(TrimEnd(TrimStart(path)))
  }

  function SynthesizeOpId(verb: string, path: string): string {
    if Cleaned(path) == "" then verb else verb + "_" + Cleaned(path)
  }

  predicate IsOperation(k: Key, op: Json) {
    k.Name? && k.spelling in METHODS && op.Obj?
  }

  function WithId(k: Key, path: Key, op: Json): Json {
    if IsOperation(k, op) then Obj(op.fields[OperationId := Str(SynthesizeOpId(k.spelling, Spelling(path)))]) else op
  }

  function ItemWithIds(path: Key, item: Json): Json {
    if item.Obj? then Obj(map k | k in item.fields :: WithId(k, path, item.fields[k])) else item
  }

  function PathsWithIds(paths: map<Key, Json>): map<Key, Json> {
    map p | p in paths :: ItemWithIds(p, paths[p])
  }

  function WithOperationIds(spec: Json): Json {
    if spec.Obj? && Paths in spec.fields && spec.fields[Paths].Obj?
    then Obj(spec.fields[Paths := Obj(PathsWithIds(spec.fields[Paths].fields))])
    else spec
  }

  method RewriteItem(path: Key, item: Json) returns (r: Json)
    ensures r == ItemWithIds(path, item)
  {
    if !item.Obj? {
      return item;
    }
    var m, todo := item.fields, item.fields.Keys;
    while todo != {}
      invariant todo <= item.fields.Keys == m.Keys
      invariant forall k | k in m :: m[k] == if k in todo then item.fields[k] else WithId(k, path, item.fields[k])
      decreases todo
    {
      var k :| k in todo;
      var op := m[k];
      if IsOperation(k, op) {
        m := m[k := Obj(op.fields[OperationId := Str(SynthesizeOpId(k.spelling, Spelling(path)))])];
      }
      todo := todo - {k};
    }
    assert m == ItemWithIds(path, item).fields;
    r := Obj(m);
  }

  method RewriteOperationIds(spec: Json) returns (r: Json)
    ensures r == WithOperationIds(spec)
  {
    if !spec.Obj? || Paths !in spec.fields || !spec.fields[Paths].Obj? {
      return spec;
    }
    var paths := spec.fields[Paths].fields;
    var m, todo := paths, paths.Keys;
    while todo != {}
      invariant todo <= paths.Keys == m.Keys
      invariant forall p | p in m :: m[p] == if p in todo then paths[p] else ItemWithIds(p, paths[p])
      decreases todo
    {
      var p :| p in todo;
      var item := RewriteItem(p, m[p]);
      m, todo := m[p := item], todo - {p};
    }
    assert m == PathsWithIds(paths);
    r := Obj(spec.fields[Paths := Obj(m)]);
  }

  // ---- uniqueness --------------------------------------------------------------

  /** The first two letters tell the five methods apart, whatever follows. */
  lemma VerbIsRecoverable(a: string, x: string, b: string, y: string)
    requires a in METHODS && b in METHODS && a + x == b + y
    ensures a == b && x == y
  {
    assert |a| >= 3 && |b| >= 3;
    assert a[0] == (a + x)[0] == b[0] && a[1] == (a + x)[1] == b[1];
    assert x == (a + x)[|a|..] && y == (b + y)[|b|..];
  }

  function Suffix(cleaned: string): string {
    if cleaned == "" then "" else "_" + cleaned
  }

  lemma SuffixIsInjective(c: string, d: string)
    ensures Suffix(c) == Suffix(d) <==> c == d
  {
    assert c != "" ==> c == Suffix(c)[1..];
    assert d != "" ==> d == Suffix(d)[1..];
  }

  /** Two ids agree exactly when the methods do and the cleaned paths do. */
  lemma SameIdExactly(a: string, p: string, b: string, q: string)
    requires a in METHODS && b in METHODS
    ensures SynthesizeOpId(a, p) == SynthesizeOpId(b, q) <==> a == b && Cleaned(p) == Cleaned(q)
  {
    var c, d := Cleaned(p), Cleaned(q);
    IdIsVerbAndSuffix(a, p);
    IdIsVerbAndSuffix(b, q);
    SuffixIsInjective(c, d);
    if a + Suffix(c) == b + Suffix(d) {
      VerbIsRecoverable(a, Suffix(c), b, Suffix(d));
    }
  }

  lemma IdIsVerbAndSuffix(verb: string, path: string)
    ensures SynthesizeOpId(verb, path) == verb + Suffix(Cleaned(path))
  {
    assert verb + "" == verb;
    assert Cleaned(path) != "" ==> verb + "_" + Cleaned(path) == verb + ("_" + Cleaned(path));
  }

  /** An operation of any of the eight methods, whether or not the rewriting touches it. */
  predicate HasOperation(paths: map<Key, Json>, p: Key, k: Key) {
    && p in paths && paths[p].Obj? && k in paths[p].fields && paths[p].fields[k].Obj?
    && k.Name? && (k.spelling in METHODS || k.spelling in OTHER_METHODS)
  }

  predicate HasId(paths: map<Key, Json>, p: Key, k: Key) {
    HasOperation(paths, p, k) && OperationId in paths[p].fields[k].fields
  }

  function IdAt(paths: map<Key, Json>, p: Key, k: Key): Json
    requires HasId(paths, p, k)
  {
    paths[p].fields[k].fields[OperationId]
  }

  /** No two operations of the document share an id. */
  ghost predicate IdsUnique(paths: map<Key, Json>) {
    forall p, k, q, l | HasId(paths, p, k) && HasId(paths, q, l) && (p, k) != (q, l) ::
      IdAt(paths, p, k) != IdAt(paths, q, l)
  }

  /** An operation that gets an id from its path. */
  predicate Rewrites(paths: map<Key, Json>, p: Key, k: Key) {
    HasOperation(paths, p, k) && k.spelling in METHODS
  }

  /** An operation that keeps the id it has. */
  predicate Keeps(paths: map<Key, Json>, p: Key, k: Key) {
    HasId(paths, p, k) && k.spelling !in METHODS
  }

  /** No two paths offering the same method read the same once cleaned. */
  ghost predicate PathsDistinguishable(paths: map<Key, Json>) {
    forall p, q, k | Rewrites(paths, p, k) && Rewrites(paths, q, k) && p != q ::
      Cleaned(Spelling(p)) != Cleaned(Spelling(q))
  }

  /** The ids that are kept differ from each other and from every id made from a path. */
  ghost predicate KeptIdsApart(paths: map<Key, Json>) {
    && (forall p, k, q, l | Keeps(paths, p, k) && Keeps(paths, q, l) && (p, k) != (q, l) ::
          IdAt(paths, p, k) != IdAt(paths, q, l))
    && forall p, k, q, l | Keeps(paths, p, k) && Rewrites(paths, q, l) ::
         IdAt(paths, p, k) != Str(SynthesizeOpId(l.spelling, Spelling(q)))
  }

  /** What the rewriting does to one operation of any method. */
  lemma OperationAfter(paths: map<Key, Json>, p: Key, k: Key)
    ensures var after := PathsWithIds(paths);
      && (HasOperation(after, p, k) <==> HasOperation(paths, p, k))
      && (Rewrites(paths, p, k) ==>
            HasId(after, p, k) && IdAt(after, p, k) == Str(SynthesizeOpId(k.spelling, Spelling(p))))
      && (HasOperation(paths, p, k) && k.spelling !in METHODS ==> after[p].fields[k] == paths[p].fields[k])
  {
  }

  lemma KeptAfter(paths: map<Key, Json>, p: Key, k: Key)
    ensures Keeps(PathsWithIds(paths), p, k) <==> Keeps(paths, p, k)
    ensures Keeps(paths, p, k) ==> IdAt(PathsWithIds(paths), p, k) == IdAt(paths, p, k)
  {
    OperationAfter(paths, p, k);
  }

  lemma RewrittenIdsAgree(paths: map<Key, Json>, p: Key, k: Key, q: Key, l: Key)
    requires Rewrites(paths, p, k) && Rewrites(paths, q, l)
    ensures var after := PathsWithIds(paths);
      && HasId(after, p, k) && HasId(after, q, l)
      && (IdAt(after, p, k) == IdAt(after, q, l) <==> k == l && Cleaned(Spelling(p)) == Cleaned(Spelling(q)))
  {
    OperationAfter(paths, p, k);
    OperationAfter(paths, q, l);
    SameIdExactly(k.spelling, Spelling(p), l.spelling, Spelling(q));
  }

  /** A kept id and one made from a path, after the rewriting. */
  lemma KeptAndRewritten(paths: map<Key, Json>, p: Key, k: Key, q: Key, l: Key)
    requires Keeps(paths, p, k) && Rewrites(paths, q, l)
    ensures var after := PathsWithIds(paths);
      && HasId(after, p, k) && HasId(after, q, l) && (p, k) != (q, l)
      && (IdAt(after, p, k) == IdAt(after, q, l)
          <==> IdAt(paths, p, k) == Str(SynthesizeOpId(l.spelling, Spelling(q))))
  {
    KeptAfter(paths, p, k);
    OperationAfter(paths, q, l);
  }

  /** Unique ids need the paths of each method told apart, and the kept ids out of the way. */
  lemma UniqueIdsNeed(paths: map<Key, Json>)
    requires IdsUnique(PathsWithIds(paths))
    ensures PathsDistinguishable(paths) && KeptIdsApart(paths)
  {
    forall p, q, k | Rewrites(paths, p, k) && Rewrites(paths, q, k) && p != q
      ensures Cleaned(Spelling(p)) != Cleaned(Spelling(q))
    {
      RewrittenIdsAgree(paths, p, k, q, k);
    }
    forall p, k, q, l | Keeps(paths, p, k) && Keeps(paths, q, l) && (p, k) != (q, l)
      ensures IdAt(paths, p, k) != IdAt(paths, q, l)
    {
      KeptAfter(paths, p, k);
      KeptAfter(paths, q, l);
    }
    forall p, k, q, l | Keeps(paths, p, k) && Rewrites(paths, q, l)
      ensures IdAt(paths, p, k) != Str(SynthesizeOpId(l.spelling, Spelling(q)))
    {
      KeptAndRewritten(paths, p, k, q, l);
    }
  }

  /** And that is enough. */
  lemma UniqueIdsFollow(paths: map<Key, Json>)
    requires PathsDistinguishable(paths) && KeptIdsApart(paths)
    ensures IdsUnique(PathsWithIds(paths))
  {
    var after := PathsWithIds(paths);
    forall p, k, q, l | HasId(after, p, k) && HasId(after, q, l) && (p, k) != (q, l)
      ensures IdAt(after, p, k) != IdAt(after, q, l)
    {
      RewritesOrKeeps(paths, p, k);
      RewritesOrKeeps(paths, q, l);
      if Rewrites(paths, p, k) && Rewrites(paths, q, l) {
        RewrittenIdsAgree(paths, p, k, q, l);
      } else if Rewrites(paths, q, l) {
        KeptAndRewritten(paths, p, k, q, l);
      } else if Rewrites(paths, p, k) {
        KeptAndRewritten(paths, q, l, p, k);
      } else {
        KeptAfter(paths, p, k);
        KeptAfter(paths, q, l);
      }
    }
  }

  lemma RewritesOrKeeps(paths: map<Key, Json>, p: Key, k: Key)
    requires HasId(PathsWithIds(paths), p, k)
    ensures Rewrites(paths, p, k) || Keeps(paths, p, k)
  {
    OperationAfter(paths, p, k);
  }

  /**
    What the generator needs of the rewritten document, that no two operations of any method share an id,
    holds exactly when cleaning keeps the paths of each rewritten method apart and the ids of the other
    operations, which the rewriting leaves alone, differ from each other and from those made from paths.
  */
  lemma IdsUniqueExactly(spec: Json)
    requires spec.Obj? && Paths in spec.fields && spec.fields[Paths].Obj?
    ensures IdsUnique(WithOperationIds(spec).fields[Paths].fields)
      <==> PathsDistinguishable(spec.fields[Paths].fields) && KeptIdsApart(spec.fields[Paths].fields)
  {
    var paths := spec.fields[Paths].fields;
    if IdsUnique(PathsWithIds(paths)) {
      UniqueIdsNeed(paths);
    }
    if PathsDistinguishable(paths) && KeptIdsApart(paths) {
      UniqueIdsFollow(paths);
    }
  }

  /** One path with two operations; the second has the id that the first will be given. */
  function TwoOperations(path: Key, first: Key, second: Key): map<Key, Json>
    requires first.Name?
  {
    var kept := Obj(map[OperationId := Str(SynthesizeOpId(first.spelling, Spelling(path)))]);
    map[path := Obj(map[first := Obj(map[]), second := kept])]
  }

  lemma GetIsRewrittenHeadIsNot()
    ensures "get" in METHODS && "head" in OTHER_METHODS && "head" !in METHODS
  {
    assert METHODS[0] == "get" && OTHER_METHODS[0] == "head";
  }

  lemma TwoOperationsHave(path: Key, first: Key, second: Key)
    requires first.Name? && first.spelling in METHODS
    requires second.Name? && second.spelling in OTHER_METHODS && second.spelling !in METHODS
    ensures var paths := TwoOperations(path, first, second);
      && Rewrites(paths, path, first) && Keeps(paths, path, second)
      && IdAt(paths, path, second) == Str(SynthesizeOpId(first.spelling, Spelling(path)))
  {
  }

  lemma OnePathIsDistinguishable(paths: map<Key, Json>, path: Key)
    requires forall p | p in paths :: p == path
    ensures PathsDistinguishable(paths)
  {
    forall p, k | Rewrites(paths, p, k) ensures p == path {
    }
  }

  lemma SameIdIsNotUnique(paths: map<Key, Json>, p: Key, k: Key, q: Key, l: Key)
    requires Keeps(paths, p, k) && Rewrites(paths, q, l)
    requires IdAt(paths, p, k) == Str(SynthesizeOpId(l.spelling, Spelling(q)))
    ensures !IdsUnique(PathsWithIds(paths))
  {
    KeptAndRewritten(paths, p, k, q, l);
  }

  /** Whatever the path is: it is told apart from every other, there being none, and the document has an id twice. */
  lemma KeptIdCollides(path: Key)
    ensures var paths := TwoOperations(path, Name("get"), Name("head"));
      PathsDistinguishable(paths) && !IdsUnique(PathsWithIds(paths))
  {
    var first, second := Name("get"), Name("head");
    GetIsRewrittenHeadIsNot();
    OnePathIsDistinguishable(TwoOperations(path, first, second), path);
    TwoOperationsHave(path, first, second);
    SameIdIsNotUnique(TwoOperations(path, first, second), path, second, path, first);
  }

  // ---- nothing else changes ------------------------------------------------------

  function WithoutId(k: Key, op: Json): Json {
    if IsOperation(k, op) then Obj(op.fields - {OperationId}) else op
  }

  function ItemWithoutIds(item: Json): Json {
    if item.Obj? then Obj(map k | k in item.fields :: WithoutId(k, item.fields[k])) else item
  }

  /** A document with the ids of its operations taken out. */
  function WithoutOperationIds(spec: Json): Json {
    if spec.Obj? && Paths in spec.fields && spec.fields[Paths].Obj? then
      var paths := spec.fields[Paths].fields;
      Obj(spec.fields[Paths := Obj(map p | p in paths :: ItemWithoutIds(paths[p]))])
    else spec
  }

  lemma ItemKeepsTheRest(path: Key, item: Json)
    ensures ItemWithoutIds(ItemWithIds(path, item)) == ItemWithoutIds(item)
  {
    if item.Obj? {
      forall k | k in item.fields
        ensures WithoutId(k, WithId(k, path, item.fields[k])) == WithoutId(k, item.fields[k])
      {
        if IsOperation(k, item.fields[k]) {
          var op := item.fields[k].fields;
          assert op[OperationId := Str(SynthesizeOpId(k.spelling, Spelling(path)))] - {OperationId}
            == op - {OperationId};
        }
      }
      assert ItemWithoutIds(ItemWithIds(path, item)).fields == ItemWithoutIds(item).fields;
    }
  }

  /** Nothing but the ids of operations changes, whatever the document looks like. */
  lemma OnlyIdsChange(spec: Json)
    ensures WithoutOperationIds(WithOperationIds(spec)) == WithoutOperationIds(spec)
  {
    if spec.Obj? && Paths in spec.fields && spec.fields[Paths].Obj? {
      var paths, after := spec.fields[Paths].fields, WithOperationIds(spec).fields[Paths].fields;
      forall p | p in paths ensures ItemWithoutIds(after[p]) == ItemWithoutIds(paths[p]) {
        ItemKeepsTheRest(p, paths[p]);
      }
      assert (map p | p in after :: ItemWithoutIds(after[p])) == map p | p in paths :: ItemWithoutIds(paths[p]);
      assert WithoutOperationIds(WithOperationIds(spec)).fields == WithoutOperationIds(spec).fields;
    }
  }

  lemma {:induction false} SubstitutedSplits(x: string, y: string)
    ensures Substituted(x + y) == Substituted(x) + Substituted(y)
  {
    if x == "" {
      assert x + y == y;
    } else {
      assert (x + y)[1..] == x[1..] + y;
      SubstitutedSplits(x[1..], y);
    }
  }

  lemma TrimmedPath(inner: string)
    requires inner != "" && inner[0] != '/' && inner[|inner| - 1] != '/'
    ensures TrimEnd(TrimStart(['/'] + inner)) == inner
  {
    assert (['/'] + inner)[1..] == inner;
  }

  lemma SeparatorBecomesUnderscore(separator: char, y: string)
    requires separator == '/' || separator == '-'
    ensures Substituted([separator] + y) == "_" + Substituted(y)
  {
    assert ([separator] + y)[1..] == y;
  }

  /** Inside a path, a separator reads as an underscore. */
  lemma CleanedAtSeparator(x: string, separator: char, y: string)
    requires x != "" && x[0] != '/' && y != "" && y[|y| - 1] != '/' && (separator == '/' || separator == '-')
    ensures Cleaned(['/'] + (x + ([separator] + y))) == Substituted(x) + ("_" + Substituted(y))
  {
    TrimmedPath(x + ([separator] + y));
    SubstitutedSplits(x, [separator] + y);
    SeparatorBecomesUnderscore(separator, y);
  }

  /** Distinct paths can read the same: a dash is as good as a slash. */
  lemma DashReadsAsSlash(verb: string, x: string, y: string)
    requires x != "" && x[0] != '/' && y != "" && y[|y| - 1] != '/'
    ensures SynthesizeOpId(verb, ['/'] + (x + (['/'] + y))) == SynthesizeOpId(verb, ['/'] + (x + (['-'] + y)))
  {
    CleanedAtSeparator(x, '/', y);
    CleanedAtSeparator(x, '-', y);
  }

  // ---- what an id is made of -------------------------------------------------------------------

  /** The five methods whose operations get an id, and the three whose operations do not. */
  lemma MethodsExactly(m: string)
    ensures m in METHODS <==> m == "get" || m == "post" || m == "put" || m == "delete" || m == "patch"
    ensures m in OTHER_METHODS <==> m == "head" || m == "options" || m == "trace"
  {
    assert METHODS[0] == "get" && METHODS[1] == "post" && METHODS[2] == "put";
    assert METHODS[3] == "delete" && METHODS[4] == "patch";
    assert OTHER_METHODS[0] == "head" && OTHER_METHODS[1] == "options" && OTHER_METHODS[2] == "trace";
  }

  predicate AllSlashes(s: string) {
    forall i | 0 <= i < |s| :: s[i] == '/'
  }

  lemma {:induction false} TrimStartExactly(s: string) returns (lead: string)
    ensures AllSlashes(lead) && s == lead + TrimStart(s) && (TrimStart(s) != "" ==> TrimStart(s)[0] != '/')
  {
    if s != [] && s[0] == '/' {
      var rest := TrimStartExactly(s[1..]);
      lead := ['/'] + rest;
      assert s == ['/'] + s[1..];
    } else {
      lead := "";
    }
  }

  lemma {:induction false} TrimEndExactly(s: string) returns (trail: string)
    ensures AllSlashes(trail) && s == TrimEnd(s) + trail
    ensures TrimEnd(s) != "" ==> TrimEnd(s)[|TrimEnd(s)| - 1] != '/' && TrimEnd(s)[0] == s[0]
  {
    if s != [] && s[|s| - 1] == '/' {
      var rest := TrimEndExactly(s[..|s| - 1]);
      trail := rest + ['/'];
      assert s == s[..|s| - 1] + ['/'];
    } else {
      trail := "";
    }
  }

  /** A path is trimmed of all slashes at its ends and of nothing else. */
  lemma TrimmedExactly(path: string) returns (lead: string, trail: string)
    ensures var inner := TrimEnd(TrimStart(path));
      && AllSlashes(lead) && AllSlashes(trail) && path == lead + inner + trail
      && (inner != "" ==> inner[0] != '/' && inner[|inner| - 1] != '/')
  {
    lead := TrimStartExactly(path);
    trail := TrimEndExactly(TrimStart(path));
  }

  /** At any place: slash and dash become an underscore, braces go, and every other character stays. */
  lemma SubstitutedExactly(x: string, c: char, y: string)
    ensures c == '/' || c == '-' ==> Substituted(x + [c] + y) == Substituted(x) + "_" + Substituted(y)
    ensures c == '{' || c == '}' ==> Substituted(x + [c] + y) == Substituted(x) + Substituted(y)
    ensures c !in "/-{}" ==> Substituted(x + [c] + y) == Substituted(x) + [c] + Substituted(y)
    ensures Substituted("") == ""
  {
    assert x + [c] + y == x + ([c] + y);
    SubstitutedSplits(x, [c] + y);
    OneSubstituted(c, y);
    assert c !in "/-{}" <==> c != '/' && c != '-' && c != '{' && c != '}' by {
      assert "/-{}"[0] == '/' && "/-{}"[1] == '-' && "/-{}"[2] == '{' && "/-{}"[3] == '}';
    }
  }

  lemma OneSubstituted(c: char, y: string)
    ensures c == '/' || c == '-' ==> Substituted([c] + y) == "_" + Substituted(y)
    ensures c == '{' || c == '}' ==> Substituted([c] + y) == Substituted(y)
    ensures c != '/' && c != '-' && c != '{' && c != '}' ==> Substituted([c] + y) == [c] + Substituted(y)
  {
    assert ([c] + y)[1..] == y;
  }

  /** An id is the method, and an underscore and the cleaned path unless that is empty. */
  lemma IdsOfPaths(verb: string)
    ensures SynthesizeOpId(verb, "/") == verb
    ensures SynthesizeOpId(verb, "/a-{c}/") == verb + "_a_c"
  {
    assert TrimStart("/") == "" && TrimEnd("") == "" && Substituted("") == "";
    PathExample();
  }

  lemma PathExample()
    ensures Cleaned("/a-{c}/") == "a_c"
  {
    TrimExample();
    SubstitutionExample();
  }

  lemma TrimExample()
    ensures TrimEnd(TrimStart("/a-{c}/")) == "a-{c}"
  {
    var inner := "a-{c}";
    assert "/a-{c}/" == ['/'] + (inner + "/") && (['/'] + (inner + "/"))[1..] == inner + "/";
    assert TrimStart("/a-{c}/") == inner + "/";
    assert (inner + "/")[..|inner|] == inner;
  }

  lemma SubstitutionExample()
    ensures Substituted("a-{c}") == "a_c"
  {
    assert "a-{c}" == ['a'] + "-{c}" && "-{c}" == ['-'] + "{c}" && "{c}" == ['{'] + "c}";
    assert "c}" == ['c'] + "}" && "}" == ['}'] + "";
    OneSubstituted('}', "");
    OneSubstituted('c', "}");
    OneSubstituted('{', "c}");
    OneSubstituted('-', "{c}");
    OneSubstituted('a', "-{c}");
  }
}
