/** Route records and their classification into the four display groups
    (the grouping pass of `displayResults` in frontend/index.js). */
module Routes {
  import opened Wrappers
  import opened Text

  /** A route record as returned by the lookup; every field may be missing. */
  datatype Route = Route(
    routeString: Option<string>,
    source: Option<string>,
    restrictions: Option<string>,
    justification: Option<string>)

  /** JavaScript truthiness of an optional string field: a missing field and `""` are falsy. */
  predicate Truthy(v: Option<string>)
  {
    v.Some? && v.value != ""
  }

  /** JavaScript's `a || b` on optional string fields. */
  function Or(a: Option<string>, b: Option<string>): Option<string>
  {
    if Truthy(a) then a else b
  }

  /** JavaScript's `a || d` with a string fallback `d`. */
  function OrElse(a: Option<string>, d: string): string
  {
    match Or(a, Some(d))
    case Some(v) => v
    case None => d
  }

  /** The four display groups, in display order. */
  datatype Bucket = Preferred | NoCoordination | CoordinationRequired | Other

  /** Position of a group in the priority (and display) order. */
  function Rank(b: Bucket): nat
  {
    match b
    case Preferred => 0
    case NoCoordination => 1
    case CoordinationRequired => 2
    case Other => 3
  }

  const PreferredMarker := "Preferred"
  const NoCoordMarker := "No Coord"
  const CdrMarker := "CDR"

  /** The route's `Source` is present and contains `marker`. */
  ghost predicate SourceContains(r: Route, marker: string)
  {
    r.source.Some? && Contains(r.source.value, marker)
  }

  /** `route.Source?.includes(marker)`: false when `Source` is missing. */
  function SourceIncludes(r: Route, marker: string): (b: bool)
    ensures b <==> SourceContains(r, marker)
  {
    r.source.Some? && Includes(r.source.value, marker)
  }

  /** The test for group `b`, taken on its own; the last group takes every route. */
  ghost predicate Accepts(b: Bucket, r: Route)
  {
    match b
    case Preferred => SourceContains(r, PreferredMarker)
    case NoCoordination => SourceContains(r, NoCoordMarker)
    case CoordinationRequired => SourceContains(r, CdrMarker)
    case Other => true
  }

  /** The group of a route: the three source tests of the grouping pass, in order.
      It is the first group, in priority order, whose test accepts the route. */
  function Classify(r: Route): (b: Bucket)
    ensures Accepts(b, r)
    ensures forall b' :: Rank(b') < Rank(b) ==> !Accepts(b', r)
  {
    if SourceIncludes(r, PreferredMarker) then Preferred
    else if SourceIncludes(r, NoCoordMarker) then NoCoordination
    else if SourceIncludes(r, CdrMarker) then CoordinationRequired
    else Other
  }

  /** First match wins, and the first match is unique: any group whose test accepts
      while every earlier test rejects is the group `Classify` picks. */
  lemma ClassifyIsFirstMatch(r: Route, b: Bucket)
    requires Accepts(b, r)
    requires forall b' :: Rank(b') < Rank(b) ==> !Accepts(b', r)
    ensures Classify(r) == b
  {
  }

  /** A source naming both "Preferred" and "CDR" is a preferred route. */
  lemma PreferredBeatsCdr(r: Route)
    requires SourceContains(r, PreferredMarker) && SourceContains(r, CdrMarker)
    ensures Classify(r) == Preferred
  {
  }

  /** A source naming "No Coord" and "CDR" but not "Preferred" needs no coordination. */
  lemma NoCoordinationBeatsCdr(r: Route)
    requires !SourceContains(r, PreferredMarker)
    requires SourceContains(r, NoCoordMarker) && SourceContains(r, CdrMarker)
    ensures Classify(r) == NoCoordination
  {
  }

  /** A route lands in the last group exactly when it has no source or its source
      contains none of the three markers. */
  lemma OtherIffNoMarker(r: Route)
    ensures Classify(r) == Other <==>
      (r.source.None? ||
       (!Contains(r.source.value, PreferredMarker)
        && !Contains(r.source.value, NoCoordMarker)
        && !Contains(r.source.value, CdrMarker)))
  {
  }

  /** The routes of group `b`, in input order (reference definition). */
  function Filter(rs: seq<Route>, b: Bucket): seq<Route>
  {
    if rs == [] then []
    else
      var last := rs[|rs| - 1];
      Filter(rs[..|rs| - 1], b) + (if Classify(last) == b then [last] else [])
  }

  /** `g` is the selection of the group-`b` routes of `rs` at the strictly increasing
      positions `ps`, and `ps` holds every position whose route is in group `b`. */
  ghost predicate Selects(rs: seq<Route>, b: Bucket, ps: seq<nat>, g: seq<Route>)
  {
    && |ps| == |g|
    && (forall k :: 0 <= k < |ps| ==> ps[k] < |rs| && rs[ps[k]] == g[k])
    && (forall k, l :: 0 <= k < l < |ps| ==> ps[k] < ps[l])
    && (forall i :: 0 <= i < |rs| ==> (Classify(rs[i]) == b <==> i in ps))
  }

  /** Each group keeps exactly its routes, in their input order. */
  lemma {:induction false} FilterSelects(rs: seq<Route>, b: Bucket) returns (ps: seq<nat>)
    ensures Selects(rs, b, ps, Filter(rs, b))
  {
    if rs == [] {
      ps := [];
    } else {
      var n := |rs| - 1;
      var front := rs[..n];
      var ps' := FilterSelects(front, b);
      if Classify(rs[n]) == b {
        ps := ps' + [n];
      } else {
        ps := ps';
      }
      var g := Filter(rs, b);
      forall k | 0 <= k < |ps|
        ensures ps[k] < |rs| && rs[ps[k]] == g[k]
      {
        if k < |ps'| {
          assert rs[ps'[k]] == front[ps'[k]];
        }
      }
      forall i | 0 <= i < |rs|
        ensures Classify(rs[i]) == b <==> i in ps
      {
        if i < n {
          assert rs[i] == front[i];
          assert i in ps <==> i in ps';
        } else {
          assert n !in ps';
        }
      }
    }
  }

  /** Dropping the last route from a selection whose last route is in group `b`. */
  lemma SelectsDropIn(rs: seq<Route>, b: Bucket, ps: seq<nat>, g: seq<Route>)
    requires rs != [] && Classify(rs[|rs| - 1]) == b
    requires Selects(rs, b, ps, g)
    ensures |ps| > 0 && g[|g| - 1] == rs[|rs| - 1]
    ensures Selects(rs[..|rs| - 1], b, ps[..|ps| - 1], g[..|g| - 1])
  {
    var n := |rs| - 1;
    assert n in ps;
    var m := |ps| - 1;
    var front, ps' := rs[..n], ps[..m];
    forall i | 0 <= i < |front|
      ensures Classify(front[i]) == b <==> i in ps'
    {
      assert front[i] == rs[i];
      if i in ps {
        var j :| 0 <= j < |ps| && ps[j] == i;
        assert j != m;
        assert ps'[j] == i;
      }
    }
  }

  /** Dropping the last route from a selection whose last route is not in group `b`. */
  lemma SelectsDropOut(rs: seq<Route>, b: Bucket, ps: seq<nat>, g: seq<Route>)
    requires rs != [] && Classify(rs[|rs| - 1]) != b
    requires Selects(rs, b, ps, g)
    ensures Selects(rs[..|rs| - 1], b, ps, g)
  {
    var n := |rs| - 1;
    forall k | 0 <= k < |ps|
      ensures ps[k] < n
    {
      assert ps[k] in ps;
    }
  }

  /** Conversely, the order-preserving selection of group `b` is unique: it is `Filter(rs, b)`. */
  lemma {:induction false} SelectionIsFilter(rs: seq<Route>, b: Bucket, ps: seq<nat>, g: seq<Route>)
    requires Selects(rs, b, ps, g)
    ensures g == Filter(rs, b)
  {
    if rs != [] {
      var n := |rs| - 1;
      var front := rs[..n];
      if Classify(rs[n]) == b {
        var ps', g' := ps[..|ps| - 1], g[..|g| - 1];
        assert Selects(front, b, ps', g') && g == g' + [rs[n]] by {
          SelectsDropIn(rs, b, ps, g);
        }
        SelectionIsFilter(front, b, ps', g');
      } else {
        assert Selects(front, b, ps, g) by {
          SelectsDropOut(rs, b, ps, g);
        }
        SelectionIsFilter(front, b, ps, g);
      }
    }
  }

  /** One more route at the end of the input extends only the group it falls in. */
  lemma FilterSnoc(rs: seq<Route>, r: Route, b: Bucket)
    ensures Filter(rs + [r], b) == Filter(rs, b) + (if Classify(r) == b then [r] else [])
  {
    assert (rs + [r])[..|rs|] == rs;
  }

  /** The four groups of `rs`, merged back into one multiset. */
  ghost function GroupUnion(rs: seq<Route>): multiset<Route>
  {
    multiset(Filter(rs, Preferred)) + multiset(Filter(rs, NoCoordination))
      + multiset(Filter(rs, CoordinationRequired)) + multiset(Filter(rs, Other))
  }

  /** One more route at the end of the input adds exactly that route to the merged groups. */
  lemma MultisetShift<T>(x: multiset<T>, y: multiset<T>, z: multiset<T>, w: multiset<T>, e: multiset<T>)
    ensures (x + e) + y + z + w == x + y + z + w + e
    ensures x + (y + e) + z + w == x + y + z + w + e
    ensures x + y + (z + e) + w == x + y + z + w + e
    ensures x + y + z + (w + e) == x + y + z + w + e
  {
  }

  lemma GroupUnionSnoc(rs: seq<Route>, r: Route)
    ensures GroupUnion(rs + [r]) == GroupUnion(rs) + multiset{r}
  {
    var rs' := rs + [r];
    var p, n, c, o := multiset(Filter(rs, Preferred)), multiset(Filter(rs, NoCoordination)),
      multiset(Filter(rs, CoordinationRequired)), multiset(Filter(rs, Other));
    var p', n', c', o' := multiset(Filter(rs', Preferred)), multiset(Filter(rs', NoCoordination)),
      multiset(Filter(rs', CoordinationRequired)), multiset(Filter(rs', Other));
    FilterSnoc(rs, r, Preferred);
    FilterSnoc(rs, r, NoCoordination);
    FilterSnoc(rs, r, CoordinationRequired);
    FilterSnoc(rs, r, Other);
    var e := multiset{r};
    MultisetShift(p, n, c, o, e);
    match Classify(r)
    case Preferred =>
      assert p' == p + e && n' == n && c' == c && o' == o;
    case NoCoordination =>
      assert p' == p && n' == n + e && c' == c && o' == o;
    case CoordinationRequired =>
      assert p' == p && n' == n && c' == c + e && o' == o;
    case Other =>
      assert p' == p && n' == n && c' == c && o' == o + e;
  }

  /** Every route lands in exactly one group: the four groups together hold the input, as a multiset. */
  lemma {:induction false} PartitionMultiset(rs: seq<Route>)
    ensures GroupUnion(rs) == multiset(rs)
  {
    if rs != [] {
      var n := |rs| - 1;
      PartitionMultiset(rs[..n]);
      assert rs == rs[..n] + [rs[n]];
      GroupUnionSnoc(rs[..n], rs[n]);
    }
  }

  /** The four group sizes add up to the number of input routes. */
  lemma PartitionSizes(rs: seq<Route>)
    ensures |Filter(rs, Preferred)| + |Filter(rs, NoCoordination)|
      + |Filter(rs, CoordinationRequired)| + |Filter(rs, Other)| == |rs|
  {
    PartitionMultiset(rs);
  }

  /** A route value is in group `b` exactly when it occurs in the input and classifies as `b`. */
  lemma FilterMembership(rs: seq<Route>, b: Bucket, r: Route)
    ensures r in Filter(rs, b) <==> r in rs && Classify(r) == b
  {
    var ps := FilterSelects(rs, b);
    var g := Filter(rs, b);
    if r in g {
      var k :| 0 <= k < |g| && g[k] == r;
      assert rs[ps[k]] == r;
      assert Classify(rs[ps[k]]) == b <==> ps[k] in ps;
    }
    if r in rs && Classify(r) == b {
      var i :| 0 <= i < |rs| && rs[i] == r;
      assert i in ps;
      var k :| 0 <= k < |ps| && ps[k] == i;
      assert g[k] == r;
    }
  }

  /** The four groups, indexed by bucket. */
  datatype Groups = Groups(
    preferred: seq<Route>,
    noCoordination: seq<Route>,
    coordinationRequired: seq<Route>,
    other: seq<Route>)
  {
    function Get(b: Bucket): seq<Route>
    {
      match b
      case Preferred => preferred
      case NoCoordination => noCoordination
      case CoordinationRequired => coordinationRequired
      case Other => other
    }
  }

  /** The groups of a route list, by the reference definition. */
  function GroupsOf(rs: seq<Route>): (g: Groups)
    ensures forall b :: g.Get(b) == Filter(rs, b)
  {
    Groups(Filter(rs, Preferred), Filter(rs, NoCoordination), Filter(rs, CoordinationRequired), Filter(rs, Other))
  }

  /** The grouping pass: one forward pass over the routes, appending each route
      to the group of the first test it passes. */
  method GroupRoutes(routes: seq<Route>) returns (g: Groups)
    ensures forall b :: g.Get(b) == Filter(routes, b)
    ensures g == GroupsOf(routes)
  {
    g := Groups([], [], [], []);
    for i := 0 to |routes|
      invariant forall b :: g.Get(b) == Filter(routes[..i], b)
    {
      var route := routes[i];
      if SourceIncludes(route, PreferredMarker) {
        g := g.(preferred := g.preferred + [route]);
      } else if SourceIncludes(route, NoCoordMarker) {
        g := g.(noCoordination := g.noCoordination + [route]);
      } else if SourceIncludes(route, CdrMarker) {
        g := g.(coordinationRequired := g.coordinationRequired + [route]);
      } else {
        g := g.(other := g.other + [route]);
      }
      assert routes[..i + 1][..i] == routes[..i];
    }
    assert routes[..|routes|] == routes;
    assert g.Get(Preferred) == g.preferred && g.Get(NoCoordination) == g.noCoordination;
    assert g.Get(CoordinationRequired) == g.coordinationRequired && g.Get(Other) == g.other;
  }
}
