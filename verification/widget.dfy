/** The click handler of the route finder: input validation, the call to the
    route lookup, and the sequence of contents shown in the result area. */
module Widget {
  import opened Wrappers
  import opened Text
  import opened Routes
  import opened Render

  const RequiredMessage := "Origin and Destination are required."
  const LoadingMessage := "Finding routes..."

  /** The request handed to the route lookup. */
  datatype Query = Query(origin: string, destination: string)

  /** `input.value.trim().toUpperCase()`: the input between its whitespace
      margins, upper-cased. It is empty exactly when the input is all whitespace,
      and it is trimmed and free of lower-case ASCII letters. */
  function Normalize(input: string): (n: string)
    ensures exists i: nat, j: nat :: WhitespaceMargins(input, i, j) && n == ToUpper(input[i..j])
    ensures n == [] <==> AllWhitespace(input)
    ensures Trim(n) == n
    ensures forall k :: 0 <= k < |n| ==> !IsAsciiLower(n[k])
  {
    ToUpperKeepsTrimmed(input);
    ToUpper(Trim(input))
  }

  /** The validation at the top of the click handler: both normalized inputs must be non-empty. */
  function Validate(originInput: string, destinationInput: string): (r: Result<Query, string>)
    ensures r.Failure? <==> AllWhitespace(originInput) || AllWhitespace(destinationInput)
    ensures r.Failure? ==> r.error == RequiredMessage
    ensures r.Success? ==>
      (r.value.origin == ToUpper(Trim(originInput)) && r.value.destination == ToUpper(Trim(destinationInput)))
  {
    var origin := Normalize(originInput);
    var destination := Normalize(destinationInput);
    if origin == [] || destination == [] then Failure(RequiredMessage)
    else Success(Query(origin, destination))
  }

  /** A query that passes validation is non-empty, trimmed and upper-case at both ends. */
  lemma ValidQueryIsNormal(originInput: string, destinationInput: string)
    requires !AllWhitespace(originInput) && !AllWhitespace(destinationInput)
    ensures Validate(originInput, destinationInput).Success?
    ensures var q := Validate(originInput, destinationInput).value;
      && q.origin != [] && Trim(q.origin) == q.origin
      && q.destination != [] && Trim(q.destination) == q.destination
      && (forall k :: 0 <= k < |q.origin| ==> !IsAsciiLower(q.origin[k]))
      && (forall k :: 0 <= k < |q.destination| ==> !IsAsciiLower(q.destination[k]))
  {
    ToUpperKeepsTrimmed(originInput);
    ToUpperKeepsTrimmed(destinationInput);
  }

  /** The answer of the route lookup: a route list, or a failure with its message. */
  datatype LookupOutcome = Found(routes: seq<Route>) | Failed(message: string)

  /** What one call of `displayResults` puts in the result area. */
  datatype Display = ErrorDisplay(message: string) | LoadingDisplay(message: string) | RoutesDisplay(routes: seq<Route>)

  const ErrorOpen := "<p class=\"error-message\">"
  const LoadingOpen := "<p class=\"loading-message\">"

  /** The HTML of a display. Message text is inserted without escaping. The
      "No routes found" placeholder shows exactly for an empty route list: no
      message and no table of a non-empty list looks like it. */
  function DisplayHtml(d: Display): (html: string)
    ensures html == PlaceholderHtml <==> d == RoutesDisplay([])
  {
    ParagraphClasses();
    match d
    case ErrorDisplay(m) =>
      MessageIsNotPlaceholder(ErrorOpen, m);
      ErrorOpen + m + "</p>"
    case LoadingDisplay(m) =>
      MessageIsNotPlaceholder(LoadingOpen, m);
      LoadingOpen + m + "</p>"
    case RoutesDisplay(rs) =>
      if rs == [] then ViewHtml(Layout(rs))
      else
        LayoutComplete(rs);
        TablesHtmlHeading(Layout(rs).tables);
        ViewHtml(Layout(rs))
  }

  /** The three paragraphs differ in the first letter of their class name, and
      the placeholder's second character is not the `h` of a heading. */
  lemma ParagraphClasses()
    ensures |ErrorOpen| > 10 && |LoadingOpen| > 10 && |PlaceholderHtml| > 10
    ensures ErrorOpen[10] == 'e' && LoadingOpen[10] == 'l'
    ensures PlaceholderHtml[10] == 'p' && PlaceholderHtml[1] == 'p'
  {
    assert PlaceholderHtml[..11] == PlaceholderOpen[..11];
  }

  lemma MessageIsNotPlaceholder(open: string, m: string)
    requires |open| > 10 && |PlaceholderHtml| > 10 && open[10] != PlaceholderHtml[10]
    ensures open + m + "</p>" != PlaceholderHtml
  {
    assert (open + m + "</p>")[10] == open[10];
  }

  /** The display for the lookup's answer: the routes found, or the failure's
      message after "Error: ", which never reads as the validation message. */
  function Answer(outcome: LookupOutcome): (d: Display)
    ensures d.ErrorDisplay? <==> outcome.Failed?
    ensures outcome.Found? ==> d == RoutesDisplay(outcome.routes)
    ensures outcome.Failed? ==> && |d.message| >= 7 && d.message[..7] == "Error: "
                                && d.message[7..] == outcome.message && d.message != RequiredMessage
  {
    match outcome
    case Found(rs) => RoutesDisplay(rs)
    case Failed(m) =>
      assert ("Error: " + m)[0] != RequiredMessage[0];
      ErrorDisplay("Error: " + m)
  }

  /** The click handler: the displays it shows, in order. The last one stays on screen. */
  function Click(originInput: string, destinationInput: string, lookup: Query -> LookupOutcome): (shown: seq<Display>)
    ensures 1 <= |shown| <= 2
    ensures shown[|shown| - 1].ErrorDisplay? <==>
      || AllWhitespace(originInput) || AllWhitespace(destinationInput)
      || lookup(Validate(originInput, destinationInput).value).Failed?
  {
    match Validate(originInput, destinationInput)
    case Failure(m) => [ErrorDisplay(m)]
    case Success(q) => [LoadingDisplay(LoadingMessage), Answer(lookup(q))]
  }

  /** An empty or all-whitespace input shows only the validation message, and the
      lookup is never consulted: any two lookups give the same displays. */
  lemma InvalidInputSkipsLookup(originInput: string, destinationInput: string,
                                lookup: Query -> LookupOutcome, other: Query -> LookupOutcome)
    requires AllWhitespace(originInput) || AllWhitespace(destinationInput)
    ensures Click(originInput, destinationInput, lookup) == [ErrorDisplay(RequiredMessage)]
    ensures Click(originInput, destinationInput, lookup) == Click(originInput, destinationInput, other)
  {
  }

  /** Valid input shows the loading message, then the lookup's answer for the
      trimmed, upper-cased origin and destination. */
  lemma ValidInputAsksLookup(originInput: string, destinationInput: string, lookup: Query -> LookupOutcome)
    requires !AllWhitespace(originInput) && !AllWhitespace(destinationInput)
    ensures Click(originInput, destinationInput, lookup) ==
      [LoadingDisplay(LoadingMessage),
       Answer(lookup(Query(ToUpper(Trim(originInput)), ToUpper(Trim(destinationInput)))))]
  {
  }

  /** The mocked response of the click handler: one preferred route, one coded
      departure route needing no coordination, and one needing coordination. */
  const MockPreferred := Route(Some("JFK.COATE.TEB"), Some("Preferred Route"), Some("TURBOJETS ONLY"), None)
  const MockNoCoord := Route(Some("JFK.DPK.SWL.BOS"), Some("CDR (No Coord)"), None, None)
  const MockCoordReq := Route(Some("JFK.GAYEL.PUT.MIA"), Some("CDR (Coord Req)"), None, Some("AVOID ZNY"))
  const MockRoutes := [MockPreferred, MockNoCoord, MockCoordReq]

  /** The mocked lookup answers every query with the same three routes. */
  function MockLookup(q: Query): LookupOutcome
  {
    Found(MockRoutes)
  }

  lemma MockPreferredGroup()
    ensures Classify(MockPreferred) == Preferred
  {
    assert OccursAt("Preferred Route", PreferredMarker, 0);
  }

  lemma MockNoCoordGroup()
    ensures Classify(MockNoCoord) == NoCoordination
  {
    AbsentChar("CDR (No Coord)", PreferredMarker, 0);
    assert OccursAt("CDR (No Coord)", NoCoordMarker, 5);
  }

  lemma MockCoordReqGroup()
    ensures Classify(MockCoordReq) == CoordinationRequired
  {
    AbsentChar("CDR (Coord Req)", PreferredMarker, 0);
    AbsentChar("CDR (Coord Req)", NoCoordMarker, 0);
    assert OccursAt("CDR (Coord Req)", CdrMarker, 0);
  }

  /** Three routes of three different groups each make a group of their own. */
  lemma ThreeGroups(r0: Route, r1: Route, r2: Route)
    requires Classify(r0) == Preferred && Classify(r1) == NoCoordination
    requires Classify(r2) == CoordinationRequired
    ensures GroupsOf([r0, r1, r2]) == Groups([r0], [r1], [r2], [])
  {
    FilterSnoc([], r0, Preferred);
    FilterSnoc([r0], r1, Preferred);
    FilterSnoc([r0, r1], r2, Preferred);
    FilterSnoc([], r0, NoCoordination);
    FilterSnoc([r0], r1, NoCoordination);
    FilterSnoc([r0, r1], r2, NoCoordination);
    FilterSnoc([], r0, CoordinationRequired);
    FilterSnoc([r0], r1, CoordinationRequired);
    FilterSnoc([r0, r1], r2, CoordinationRequired);
    FilterSnoc([], r0, Other);
    FilterSnoc([r0], r1, Other);
    FilterSnoc([r0, r1], r2, Other);
    assert [] + [r0] == [r0] && [r0] + [r1] == [r0, r1] && [r0, r1] + [r2] == [r0, r1, r2];
  }

  /** Each mocked route falls in its own group; none is "Other". */
  lemma MockGroups()
    ensures GroupsOf(MockRoutes) == Groups([MockPreferred], [MockNoCoord], [MockCoordReq], [])
  {
    MockPreferredGroup();
    MockNoCoordGroup();
    MockCoordReqGroup();
    ThreeGroups(MockPreferred, MockNoCoord, MockCoordReq);
  }

  lemma MockRows()
    ensures RowsOf([MockPreferred]) == [Row("JFK.COATE.TEB", "Preferred Route", "TURBOJETS ONLY")]
    ensures RowsOf([MockNoCoord]) == [Row("JFK.DPK.SWL.BOS", "CDR (No Coord)", "")]
    ensures RowsOf([MockCoordReq]) == [Row("JFK.GAYEL.PUT.MIA", "CDR (Coord Req)", "AVOID ZNY")]
  {
  }

  /** The mocked routes render as three one-row tables, preferred, no coordination
      and coordination required, in that order, with no table for other routes. */
  lemma MockLayout()
    ensures Layout(MockRoutes) == Tables([
      Table(Preferred, [Row("JFK.COATE.TEB", "Preferred Route", "TURBOJETS ONLY")]),
      Table(NoCoordination, [Row("JFK.DPK.SWL.BOS", "CDR (No Coord)", "")]),
      Table(CoordinationRequired, [Row("JFK.GAYEL.PUT.MIA", "CDR (Coord Req)", "AVOID ZNY")])])
  {
    MockGroups();
    MockRows();
  }

  /** Searching JFK to MIA against the mocked lookup ends with the mocked routes on screen. */
  lemma MockSearch(origin: string, destination: string)
    requires origin == "JFK" && destination == "MIA"
    ensures Click(origin, destination, MockLookup) == [LoadingDisplay(LoadingMessage), RoutesDisplay(MockRoutes)]
  {
    TrimmedAlready(origin);
    TrimmedAlready(destination);
    UpperAlready(origin);
    UpperAlready(destination);
  }
}
