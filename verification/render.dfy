/** Rendering of a route list: the row cells with their fallbacks, the titled
    tables in fixed order, the placeholder for an empty list, and the HTML text
    the widget writes (`createTableHTML` and the tail of `displayResults`). */
module Render {
  import opened Text
  import opened Routes

  /** The three cells of a table row: Route, Type and Notes. */
  datatype Row = Row(route: string, kind: string, notes: string)

  /** The row shown for a route. */
  function RowOf(r: Route): (row: Row)
    ensures row.route == (if Truthy(r.routeString) then r.routeString.value else "N/A")
    ensures row.kind == (if Truthy(r.source) then r.source.value else "N/A")
    ensures Truthy(r.restrictions) ==> row.notes == r.restrictions.value
    ensures !Truthy(r.restrictions) && Truthy(r.justification) ==> row.notes == r.justification.value
    ensures !Truthy(r.restrictions) && !Truthy(r.justification) ==> row.notes == ""
  {
    Row(OrElse(r.routeString, "N/A"), OrElse(r.source, "N/A"), OrElse(Or(r.restrictions, r.justification), ""))
  }

  function RowsOf(rs: seq<Route>): seq<Row>
  {
    seq(|rs|, k requires 0 <= k < |rs| => RowOf(rs[k]))
  }

  /** The heading shown above the table of a group. */
  function Title(b: Bucket): string
  {
    match b
    case Preferred => "Preferred Routes"
    case NoCoordination => "CDRs (No Coordination)"
    case CoordinationRequired => "CDRs (Coordination Required)"
    case Other => "Other"
  }

  /** A titled table: the group it shows and one row per route of that group. */
  datatype Table = Table(bucket: Bucket, rows: seq<Row>)

  /** What the result area shows for a route list. */
  datatype View = NoRoutes | Tables(tables: seq<Table>)

  /** The table of group `b`, or nothing when the group is empty. */
  function TableOf(g: Groups, b: Bucket): seq<Table>
  {
    if g.Get(b) == [] then [] else [Table(b, RowsOf(g.Get(b)))]
  }

  /** The tables of the non-empty groups, in display order. */
  function TablesOf(g: Groups): seq<Table>
  {
    TableOf(g, Preferred) + TableOf(g, NoCoordination) + TableOf(g, CoordinationRequired) + TableOf(g, Other)
  }

  /** The layout of a route list: the placeholder for an empty list, otherwise
      the tables of the non-empty groups in display order. */
  function Layout(rs: seq<Route>): (v: View)
    ensures v == NoRoutes <==> rs == []
  {
    if rs == [] then NoRoutes else Tables(TablesOf(GroupsOf(rs)))
  }

  /** Every table of `ts` shows the rows of its group of `g`, and none is empty. */
  ghost predicate ShowsGroups(g: Groups, ts: seq<Table>)
  {
    forall k :: 0 <= k < |ts| ==> ts[k].rows == RowsOf(g.Get(ts[k].bucket)) && ts[k].rows != []
  }

  /** The groups of the tables of `ts` appear in strictly increasing display order. */
  ghost predicate Ascending(ts: seq<Table>)
  {
    forall k, l :: 0 <= k < l < |ts| ==> Rank(ts[k].bucket) < Rank(ts[l].bucket)
  }

  ghost predicate RanksBelow(ts: seq<Table>, bound: nat)
  {
    forall k :: 0 <= k < |ts| ==> Rank(ts[k].bucket) < bound
  }

  /** Appending the table of group `b` after tables of earlier groups keeps the
      tables well formed and ascending. */
  lemma AppendTableOf(g: Groups, ts: seq<Table>, b: Bucket, ts': seq<Table>)
    requires ShowsGroups(g, ts) && Ascending(ts) && RanksBelow(ts, Rank(b))
    requires ts' == ts + TableOf(g, b)
    ensures ShowsGroups(g, ts') && Ascending(ts') && RanksBelow(ts', Rank(b) + 1)
  {
    var u := TableOf(g, b);
    if u != [] {
      assert ts'[|ts|] == Table(b, RowsOf(g.Get(b)));
      forall k | 0 <= k < |ts|
        ensures ts'[k] == ts[k]
      {
      }
    }
  }

  /** The tables are non-empty, show their groups' rows, and come in strictly
      increasing display order. */
  lemma TablesOfWellFormed(g: Groups)
    ensures ShowsGroups(g, TablesOf(g)) && Ascending(TablesOf(g))
  {
    var t1 := TableOf(g, Preferred);
    var t2 := t1 + TableOf(g, NoCoordination);
    var t3 := t2 + TableOf(g, CoordinationRequired);
    var t4 := t3 + TableOf(g, Other);
    assert ShowsGroups(g, t4) && Ascending(t4) by {
      assert ShowsGroups(g, t3) && Ascending(t3) && RanksBelow(t3, 3) by {
        assert ShowsGroups(g, t2) && Ascending(t2) && RanksBelow(t2, 2) by {
          assert ShowsGroups(g, t1) && Ascending(t1) && RanksBelow(t1, 1) by {
            AppendTableOf(g, [], Preferred, t1);
          }
          AppendTableOf(g, t1, NoCoordination, t2);
        }
        AppendTableOf(g, t2, CoordinationRequired, t3);
      }
      AppendTableOf(g, t3, Other, t4);
    }
  }

  /** Every non-empty group has its table. */
  lemma TablesOfComplete(g: Groups)
    ensures forall b :: g.Get(b) != [] ==>
      exists k :: 0 <= k < |TablesOf(g)| && TablesOf(g)[k].bucket == b
  {
    var ts := TablesOf(g);
    var p, n, c, o := TableOf(g, Preferred), TableOf(g, NoCoordination),
      TableOf(g, CoordinationRequired), TableOf(g, Other);
    forall b | g.Get(b) != []
      ensures exists k :: 0 <= k < |ts| && ts[k].bucket == b
    {
      match b
      case Preferred => assert ts[0] == p[0];
      case NoCoordination => assert ts[|p|] == n[0];
      case CoordinationRequired => assert ts[|p| + |n|] == c[0];
      case Other => assert ts[|p| + |n| + |c|] == o[0];
    }
  }

  /** For a non-empty list the layout shows non-empty tables, each with its
      group's rows in input order, in strictly increasing display order. */
  lemma LayoutWellFormed(rs: seq<Route>)
    requires rs != []
    ensures Layout(rs).Tables?
    ensures var ts := Layout(rs).tables;
      && (forall k :: 0 <= k < |ts| ==> ts[k].rows == RowsOf(Filter(rs, ts[k].bucket)) && ts[k].rows != [])
      && (forall k, l :: 0 <= k < l < |ts| ==> Rank(ts[k].bucket) < Rank(ts[l].bucket))
  {
    TablesOfWellFormed(GroupsOf(rs));
  }

  /** The layout of a non-empty list has a table for every non-empty group,
      hence at least one table. */
  lemma LayoutComplete(rs: seq<Route>)
    requires rs != []
    ensures Layout(rs).Tables? && |Layout(rs).tables| >= 1
    ensures forall b :: Filter(rs, b) != [] ==>
      exists k :: 0 <= k < |Layout(rs).tables| && Layout(rs).tables[k].bucket == b
  {
    var g := GroupsOf(rs);
    TablesOfComplete(g);
    PartitionSizes(rs);
    var b: Bucket :| g.Get(b) != [] by {
      if g.Get(Preferred) == [] && g.Get(NoCoordination) == [] && g.Get(CoordinationRequired) == [] {
        assert g.Get(Other) != [];
      }
    }
  }

  /** The rows of all tables, table after table. */
  function AllRows(ts: seq<Table>): seq<Row>
  {
    if ts == [] then [] else ts[0].rows + AllRows(ts[1..])
  }

  lemma {:induction false} AllRowsAppend(xs: seq<Table>, ys: seq<Table>)
    ensures AllRows(xs + ys) == AllRows(xs) + AllRows(ys)
  {
    if xs == [] {
      assert xs + ys == ys;
    } else {
      assert (xs + ys)[0] == xs[0];
      assert (xs + ys)[1..] == xs[1..] + ys;
      AllRowsAppend(xs[1..], ys);
    }
  }

  lemma TableOfRows(g: Groups, b: Bucket)
    ensures AllRows(TableOf(g, b)) == RowsOf(g.Get(b))
  {
    if g.Get(b) != [] {
      assert TableOf(g, b)[1..] == [];
    }
  }

  /** The tables hold the rows of the four groups, group after group. */
  lemma TablesOfRows(g: Groups)
    ensures AllRows(TablesOf(g)) == RowsOf(g.preferred) + RowsOf(g.noCoordination)
      + RowsOf(g.coordinationRequired) + RowsOf(g.other)
  {
    var p, n, c, o := TableOf(g, Preferred), TableOf(g, NoCoordination),
      TableOf(g, CoordinationRequired), TableOf(g, Other);
    TableOfRows(g, Preferred);
    TableOfRows(g, NoCoordination);
    TableOfRows(g, CoordinationRequired);
    TableOfRows(g, Other);
    AllRowsAppend(p, n);
    AllRowsAppend(p + n, c);
    AllRowsAppend(p + n + c, o);
  }

  lemma RowsOfAppend(xs: seq<Route>, ys: seq<Route>)
    ensures RowsOf(xs + ys) == RowsOf(xs) + RowsOf(ys)
  {
  }

  /** The rows of the four groups of `rs`, merged into one multiset. */
  ghost function RowUnion(rs: seq<Route>): multiset<Row>
  {
    multiset(RowsOf(Filter(rs, Preferred))) + multiset(RowsOf(Filter(rs, NoCoordination)))
      + multiset(RowsOf(Filter(rs, CoordinationRequired))) + multiset(RowsOf(Filter(rs, Other)))
  }

  /** The rows of the group of route `r` grow by the row of `r`; the other groups' rows stay. */
  lemma GroupRowsSnoc(rs: seq<Route>, r: Route, b: Bucket)
    ensures multiset(RowsOf(Filter(rs + [r], b))) ==
      multiset(RowsOf(Filter(rs, b))) + (if Classify(r) == b then multiset{RowOf(r)} else multiset{})
  {
    FilterSnoc(rs, r, b);
    if Classify(r) == b {
      RowsOfAppend(Filter(rs, b), [r]);
    } else {
      assert Filter(rs + [r], b) == Filter(rs, b);
    }
  }

  lemma RowUnionSnoc(rs: seq<Route>, r: Route)
    ensures RowUnion(rs + [r]) == RowUnion(rs) + multiset{RowOf(r)}
  {
    var rs' := rs + [r];
    var p, n, c, o := multiset(RowsOf(Filter(rs, Preferred))), multiset(RowsOf(Filter(rs, NoCoordination))),
      multiset(RowsOf(Filter(rs, CoordinationRequired))), multiset(RowsOf(Filter(rs, Other)));
    var p', n', c', o' := multiset(RowsOf(Filter(rs', Preferred))), multiset(RowsOf(Filter(rs', NoCoordination))),
      multiset(RowsOf(Filter(rs', CoordinationRequired))), multiset(RowsOf(Filter(rs', Other)));
    GroupRowsSnoc(rs, r, Preferred);
    GroupRowsSnoc(rs, r, NoCoordination);
    GroupRowsSnoc(rs, r, CoordinationRequired);
    GroupRowsSnoc(rs, r, Other);
    var e := multiset{RowOf(r)};
    MultisetShift(p, n, c, o, e);
    match Classify(r)
    case Preferred =>
      assert p' == p + e && n' == n && c' == c && o' == o;
    case NoCoordination =>
      assert p' == p && n' == n + e && c' == c && o' == o;
    case CoordinationRequired =>
      assert p' == p && n' == n && c' == c + e && o' == o;
    case Other =>
      assert p' == p && n' == n && c' == c && o' == o + e;
  }

  /** Together the groups' rows are the rows of the input, as a multiset. */
  lemma {:induction false} RowPartition(rs: seq<Route>)
    ensures RowUnion(rs) == multiset(RowsOf(rs))
  {
    if rs != [] {
      var n := |rs| - 1;
      var front, r := rs[..n], rs[n];
      assert RowUnion(rs) == RowUnion(front) + multiset{RowOf(r)} by {
        assert rs == front + [r];
        RowUnionSnoc(front, r);
      }
      assert RowsOf(rs) == RowsOf(front) + [RowOf(r)] by {
        RowsOfPrefix(rs, n);
        assert rs[..n + 1] == rs;
      }
      RowPartition(front);
    }
  }

  /** The rows shown over all tables of a non-empty list are the rows of its
      routes, as a multiset: each route is shown in exactly one row, and no row
      is added. */
  lemma LayoutShowsEveryRoute(rs: seq<Route>)
    requires rs != []
    ensures multiset(AllRows(Layout(rs).tables)) == multiset(RowsOf(rs))
    ensures |AllRows(Layout(rs).tables)| == |rs|
  {
    var g := GroupsOf(rs);
    TablesOfRows(g);
    RowPartition(rs);
    assert |multiset(RowsOf(rs))| == |rs|;
  }

  const NoRoutesMessage := "No routes found matching your criteria."

  const PlaceholderOpen := "<p class=\"placeholder\">"

  /** The paragraph shown instead of tables for an empty route list. */
  const PlaceholderHtml := PlaceholderOpen + NoRoutesMessage + "</p>"

  const TableFoot := "</tbody></table>"

  const ColumnHeadings := "<table><thead><tr><th>Route</th><th>Type</th><th>Notes</th></tr></thead><tbody>"

  /** The heading of a table followed by its column headings. */
  function TableHead(title: string): string
  {
    "<h3>" + title + "</h3>" + ColumnHeadings
  }

  /** The HTML of one row; cell text is inserted as it is, without escaping. */
  function RowHtml(row: Row): string
  {
    "<tr><td>" + row.route + "</td><td>" + row.kind + "</td><td>" + row.notes + "</td></tr>"
  }

  function RowsHtml(rows: seq<Row>): string
  {
    if rows == [] then "" else RowsHtml(rows[..|rows| - 1]) + RowHtml(rows[|rows| - 1])
  }

  function TableHtml(t: Table): string
  {
    TableHead(Title(t.bucket)) + RowsHtml(t.rows) + TableFoot
  }

  function TablesHtml(ts: seq<Table>): string
  {
    if ts == [] then "" else TableHtml(ts[0]) + TablesHtml(ts[1..])
  }

  lemma {:induction false} TablesHtmlAppend(xs: seq<Table>, ys: seq<Table>)
    ensures TablesHtml(xs + ys) == TablesHtml(xs) + TablesHtml(ys)
  {
    if xs == [] {
      assert xs + ys == ys;
    } else {
      assert (xs + ys)[0] == xs[0];
      assert (xs + ys)[1..] == xs[1..] + ys;
      TablesHtmlAppend(xs[1..], ys);
    }
  }

  /** The HTML of one or more tables opens with the first table's `<h3>` heading. */
  lemma TablesHtmlHeading(ts: seq<Table>)
    requires ts != []
    ensures |TablesHtml(ts)| >= 4 && TablesHtml(ts)[1] == 'h'
  {
    var title, rows, later := Title(ts[0].bucket), RowsHtml(ts[0].rows), TablesHtml(ts[1..]);
    assert TablesHtml(ts) == TableHead(title) + (rows + TableFoot + later) by {
      ConcatAssociative(TableHead(title) + rows, TableFoot, later);
      ConcatAssociative(TableHead(title), rows, TableFoot + later);
      ConcatAssociative(rows, TableFoot, later);
    }
    HeadingFirst(title, rows + TableFoot + later);
    assert ("<h3>" + title + "</h3>")[1] == 'h';
  }

  /** The HTML written into the result area for a view. */
  function ViewHtml(v: View): string
  {
    match v
    case NoRoutes => PlaceholderHtml
    case Tables(ts) => TablesHtml(ts)
  }

  /** Neither the digit 3 nor the letter b occurs in the placeholder. */
  lemma PlaceholderLetters()
    ensures '3' !in PlaceholderHtml && 'b' !in PlaceholderHtml
  {
    var front, back := NoRoutesMessage[..16], NoRoutesMessage[16..];
    assert NoRoutesMessage == front + back;
    MessageHalvesLetters(front, back);
    assert '3' !in PlaceholderOpen && 'b' !in PlaceholderOpen;
    assert '3' !in "</p>" && 'b' !in "</p>";
  }

  /** The two halves of the "No routes found" message. */
  lemma MessageHalvesLetters(front: string, back: string)
    requires front == "No routes found " && back == "matching your criteria."
    ensures '3' !in front + back && 'b' !in front + back
  {
    assert '3' !in front && 'b' !in front by {}
    assert '3' !in back && 'b' !in back by {}
  }

  /** The placeholder has no heading and no table in it. */
  lemma PlaceholderHasNoTable()
    ensures !Contains(PlaceholderHtml, "<h3>")
    ensures !Contains(PlaceholderHtml, "<table>")
  {
    PlaceholderLetters();
    AbsentChar(PlaceholderHtml, "<h3>", 2);
    AbsentChar(PlaceholderHtml, "<table>", 3);
  }

  lemma RowsOfPrefix(rs: seq<Route>, i: nat)
    requires i < |rs|
    ensures RowsOf(rs[..i + 1]) == RowsOf(rs[..i]) + [RowOf(rs[i])]
  {
  }

  lemma RowsHtmlSnoc(rows: seq<Row>, row: Row)
    ensures RowsHtml(rows + [row]) == RowsHtml(rows) + RowHtml(row)
  {
    assert (rows + [row])[..|rows|] == rows;
  }

  /** A table's HTML opens with its heading. */
  lemma HeadingFirst(title: string, rest: string)
    ensures (TableHead(title) + rest)[..|title| + 9] == "<h3>" + title + "</h3>"
  {
    var h := "<h3>" + title + "</h3>";
    assert TableHead(title) + rest == h + (ColumnHeadings + rest);
  }

  /** String concatenation regroups freely; stated once so that the loop below
      does not ask the solver to rediscover it among many other string terms. */
  lemma ConcatAssociative(a: string, b: string, c: string)
    ensures (a + b) + c == a + (b + c)
  {
  }

  /** The row loop of `createTableHTML`: appends one row per route, in order, to `head`. */
  method AppendRows(head: string, routes: seq<Route>) returns (table: string)
    ensures table == head + RowsHtml(RowsOf(routes))
  {
    table := head;
    for i := 0 to |routes|
      invariant table == head + RowsHtml(RowsOf(routes[..i]))
    {
      var row := RowHtml(RowOf(routes[i]));
      assert table + row == head + RowsHtml(RowsOf(routes[..i + 1])) by {
        RowsOfPrefix(routes, i);
        RowsHtmlSnoc(RowsOf(routes[..i]), RowOf(routes[i]));
        ConcatAssociative(head, RowsHtml(RowsOf(routes[..i])), row);
      }
      table := table + row;
    }
    assert routes[..|routes|] == routes;
  }

  /** The HTML of one group's table under `title`: nothing for an empty group. */
  function GroupHtml(routes: seq<Route>, title: string): string
  {
    if routes == [] then "" else TableHead(title) + RowsHtml(RowsOf(routes)) + TableFoot
  }

  /** `createTableHTML`: nothing for an empty group, otherwise the heading, one
      row per route appended in order, and the closing tags. */
  method CreateTableHtml(routes: seq<Route>, title: string) returns (html: string)
    ensures html == GroupHtml(routes, title)
    ensures routes == [] ==> html == ""
    ensures routes != [] ==> html[..|title| + 9] == "<h3>" + title + "</h3>"
  {
    if |routes| == 0 {
      return "";
    }
    var table := AppendRows(TableHead(title), routes);
    html := table + TableFoot;
    ghost var rows := RowsHtml(RowsOf(routes));
    assert (TableHead(title) + rows) + TableFoot == TableHead(title) + (rows + TableFoot);
    HeadingFirst(title, rows + TableFoot);
  }

  /** The HTML of the tables of group `b`: empty for an empty group. */
  lemma TableOfHtml(g: Groups, b: Bucket)
    ensures TablesHtml(TableOf(g, b)) == GroupHtml(g.Get(b), Title(b))
  {
    var ts := TableOf(g, b);
    if ts != [] {
      assert ts[1..] == [];
    }
  }

  /** The HTML of the tables: the four group tables concatenated in display order. */
  lemma TablesOfHtml(g: Groups)
    ensures TablesHtml(TablesOf(g)) == GroupHtml(g.Get(Preferred), Title(Preferred))
      + GroupHtml(g.Get(NoCoordination), Title(NoCoordination))
      + GroupHtml(g.Get(CoordinationRequired), Title(CoordinationRequired))
      + GroupHtml(g.Get(Other), Title(Other))
  {
    var p, n, c, o := TableOf(g, Preferred), TableOf(g, NoCoordination),
      TableOf(g, CoordinationRequired), TableOf(g, Other);
    TablesHtmlAppend(p, n);
    TablesHtmlAppend(p + n, c);
    TablesHtmlAppend(p + n + c, o);
    TableOfHtml(g, Preferred);
    TableOfHtml(g, NoCoordination);
    TableOfHtml(g, CoordinationRequired);
    TableOfHtml(g, Other);
  }

  /** The route branch of `displayResults`: the placeholder for an empty list,
      otherwise the four group tables concatenated in display order. */
  method DisplayRoutes(routes: seq<Route>) returns (html: string)
    ensures html == ViewHtml(Layout(routes))
  {
    if |routes| == 0 {
      return PlaceholderHtml;
    }
    var groups := GroupRoutes(routes);
    var preferred := CreateTableHtml(groups.Get(Preferred), Title(Preferred));
    var noCoordination := CreateTableHtml(groups.Get(NoCoordination), Title(NoCoordination));
    var coordinationRequired := CreateTableHtml(groups.Get(CoordinationRequired), Title(CoordinationRequired));
    var other := CreateTableHtml(groups.Get(Other), Title(Other));
    html := preferred + noCoordination + coordinationRequired + other;
    TablesOfHtml(groups);
  }
}
