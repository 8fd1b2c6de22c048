/** Reading a paged list to its end (orchestrator.rs): the loop stops on a cursor it has followed before. */
module DelegatorPages {
  import opened Sequences
  import opened Wrappers

  type Cursor = string

  datatype Page<T> = Page(data: seq<T>, next: Option<Cursor>)

  predicate Follows<T(==)>(pages: Option<Cursor> -> Page<T>, from: Option<Cursor>, next: Option<Cursor>) {
    pages(from).data != [] && next.Some? && pages(from).next == next
  }

  /** Each request after the first follows the cursor of the page before it, none empty, and none is made twice. */
  ghost predicate IsTrail<T(!new)>(pages: Option<Cursor> -> Page<T>, trail: seq<Option<Cursor>>) {
    && trail != [] && trail[0] == None && Distinct(trail)
    && forall i | 1 <= i < |trail| :: Follows(pages, trail[i - 1], trail[i])
  }

  /** It goes no further: the last page is empty, names no next one, or names one already requested. */
  ghost predicate Ends<T(!new)>(pages: Option<Cursor> -> Page<T>, trail: seq<Option<Cursor>>)
    requires trail != []
  {
    var last := pages(trail[|trail| - 1]);
    last.data == [] || last.next.None? || last.next in trail
  }

  /** The rows of the first `n` pages. */
  function Rows<T>(pages: Option<Cursor> -> Page<T>, trail: seq<Option<Cursor>>, n: nat): seq<T>
    requires n <= |trail|
    decreases n
  {
    if n == 0 then [] else Rows(pages, trail, n - 1) + pages(trail[n - 1]).data
  }

  lemma {:induction false} RowsKeep<T>(pages: Option<Cursor> -> Page<T>, trail: seq<Option<Cursor>>,
                                       more: seq<Option<Cursor>>, n: nat)
    requires n <= |trail|
    ensures Rows(pages, trail + more, n) == Rows(pages, trail, n)
    decreases n
  {
    if n > 0 {
      RowsKeep(pages, trail, more, n - 1);
    }
  }

  lemma TrailExtends<T(!new)>(pages: Option<Cursor> -> Page<T>, trail: seq<Option<Cursor>>)
    requires IsTrail(pages, trail) && !Ends(pages, trail)
    ensures IsTrail(pages, trail + [pages(trail[|trail| - 1]).next])
    ensures Rows(pages, trail + [pages(trail[|trail| - 1]).next], |trail|) == Rows(pages, trail, |trail|)
  {
    var next := pages(trail[|trail| - 1]).next;
    var longer := trail + [next];
    forall i, j | 0 <= i < j < |longer| ensures longer[i] != longer[j] {
      assert j == |trail| ==> trail[i] in trail;
    }
    forall i | 1 <= i < |longer| ensures Follows(pages, longer[i - 1], longer[i]) {
      assert i < |trail| ==> Follows(pages, trail[i - 1], trail[i]);
    }
    RowsKeep(pages, trail, [next], |trail|);
  }

  /** The trail a server's answers lay out is the only one that ends. */
  lemma {:induction false} TrailIsUnique<T(!new)>(pages: Option<Cursor> -> Page<T>, a: seq<Option<Cursor>>,
                                           b: seq<Option<Cursor>>)
    requires IsTrail(pages, a) && IsTrail(pages, b) && Ends(pages, a) && Ends(pages, b)
    ensures a == b
  {
    TrailsAgree(pages, a, b, if |a| < |b| then |a| else |b|);
    if |a| < |b| {
      assert a == b[..|a|];
      StepsOn(pages, b, |a|);
    } else if |b| < |a| {
      assert b == a[..|b|];
      StepsOn(pages, a, |b|);
    }
  }

  lemma {:induction false} TrailsAgree<T(!new)>(pages: Option<Cursor> -> Page<T>, a: seq<Option<Cursor>>,
                                         b: seq<Option<Cursor>>, n: nat)
    requires IsTrail(pages, a) && IsTrail(pages, b) && 1 <= n <= |a| && n <= |b|
    ensures a[..n] == b[..n]
    decreases n
  {
    if n > 1 {
      TrailsAgree(pages, a, b, n - 1);
      assert Follows(pages, a[n - 2], a[n - 1]) && Follows(pages, b[n - 2], b[n - 1]);
      assert a[n - 2] == a[..n - 1][n - 2] == b[n - 2];
      assert a[..n] == a[..n - 1] + [a[n - 1]] && b[..n] == b[..n - 1] + [b[n - 1]];
    }
  }

  /** A proper beginning of a trail does not end there. */
  lemma StepsOn<T(!new)>(pages: Option<Cursor> -> Page<T>, trail: seq<Option<Cursor>>, n: nat)
    requires IsTrail(pages, trail) && 1 <= n < |trail|
    ensures !Ends(pages, trail[..n])
  {
    assert trail[..n][n - 1] == trail[n - 1] && Follows(pages, trail[n - 1], trail[n]);
    forall i | 0 <= i < n ensures trail[..n][i] != trail[n] {
    }
  }

  /** The loop over the pages. */
  method Follow<T(!new)>(pages: Option<Cursor> -> Page<T>, ghost cursors: set<Cursor>)
    returns (out: seq<T>, ghost trail: seq<Option<Cursor>>)
    requires forall c :: pages(c).next.Some? ==> pages(c).next.value in cursors
    ensures IsTrail(pages, trail) && Ends(pages, trail) && out == Rows(pages, trail, |trail|)
    ensures |trail| <= |cursors| + 1
  {
    var cursor: Option<Cursor>, seen: set<Cursor> := None, {};
    out, trail := [], [None];
    while true
      invariant IsTrail(pages, trail) && trail[|trail| - 1] == cursor && out == Rows(pages, trail, |trail| - 1)
      invariant seen <= cursors && |seen| == |trail| - 1 && forall c :: c in seen <==> Some(c) in trail
      decreases cursors - seen
    {
      Subsets(seen, cursors);
      var resp := pages(cursor);
      if resp.data == [] {
        return;
      }
      out := out + resp.data;
      if resp.next.None? || resp.next.value in seen {
        return;
      }
      TrailExtends(pages, trail);
      cursor, seen, trail := resp.next, seen + {resp.next.value}, trail + [resp.next];
    }
  }

  /** Whatever the server answers, the loop ends if it has finitely many cursors to hand out. */
  method FetchAll<T(!new)>(pages: Option<Cursor> -> Page<T>, ghost cursors: set<Cursor>)
    returns (out: seq<T>, ghost trail: seq<Option<Cursor>>)
    requires forall c :: pages(c).next.Some? ==> pages(c).next.value in cursors
    ensures IsTrail(pages, trail) && Ends(pages, trail) && out == Rows(pages, trail, |trail|)
    ensures forall t | IsTrail(pages, t) && Ends(pages, t) :: out == Rows(pages, t, |t|)
    ensures |trail| <= |cursors| + 1
  {
    out, trail := Follow(pages, cursors);
    forall t | IsTrail(pages, t) && Ends(pages, t) ensures t == trail {
      TrailIsUnique(pages, t, trail);
    }
  }

  lemma Subsets<T>(a: set<T>, b: set<T>)
    requires a <= b
    ensures |a| <= |b|
  {
    assert |b| == |a| + |b - a| by {
      assert b == a + (b - a) && a !! (b - a);
    }
  }
}
