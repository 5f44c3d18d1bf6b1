/** `read_flights`: the flight listing. The `flights` table, scanned in
    ascending id order, is filtered by the optional criteria, counted,
    ordered by non-increasing flight date and cut to the skip/limit
    window; every listed flight carries its robust duration. */
module FlightQuery {
  import opened Types
  import Duration

  datatype FlightRow = FlightRow(id: int, flight: Flight)

  /** The filter parameters of `GET /flights/`. */
  datatype Filters = Filters(
    locationId: Option<int>,
    droneId: Option<int>,
    startDate: Option<int>,
    endDate: Option<int>,
    includeInvalid: bool)

  /** The query parameters of `GET /flights/`: the window and the filters. */
  datatype Query = Query(skip: int, limit: int, filters: Filters)

  datatype Listed = Listed(id: int, flight: Flight, duration: real)

  datatype Page = Page(totalFlights: nat, flights: seq<Listed>)

  /** `if location_id:` and `if drone_id:` — None and 0 both mean "no filter". */
  predicate IdFilterActive(id: Option<int>) {
    id.Some? && id.value != 0
  }

  predicate Matches(f: Flight, c: Filters) {
    && (c.includeInvalid || f.isValid)
    && (IdFilterActive(c.locationId) ==> f.locationId == c.locationId)
    && (IdFilterActive(c.droneId) ==> f.droneId == c.droneId.value)
    && (c.startDate.Some? ==> f.flightDate >= c.startDate.value)
    && (c.endDate.Some? ==> f.flightDate <= c.endDate.value)
  }

  /** The rows the filters keep, in table order. */
  function Filter(rows: seq<FlightRow>, c: Filters): (r: seq<FlightRow>)
    ensures |r| <= |rows|
    ensures forall x :: x in r <==> x in rows && Matches(x.flight, c)
  {
    if rows == [] then []
    else
      var rest := Filter(rows[1..], c);
      assert forall x :: x in rows <==> x == rows[0] || x in rows[1..];
      if Matches(rows[0].flight, c) then [rows[0]] + rest else rest
  }

  ghost predicate DateNonIncreasing(s: seq<FlightRow>) {
    forall i, j :: 0 <= i < j < |s| ==> s[i].flight.flightDate >= s[j].flight.flightDate
  }

  lemma DateHeadIsLatest(s: seq<FlightRow>)
    requires DateNonIncreasing(s) && |s| > 0
    ensures forall y :: y in s ==> s[0].flight.flightDate >= y.flight.flightDate
  {
    forall y | y in s ensures s[0].flight.flightDate >= y.flight.flightDate {
      var k :| 0 <= k < |s| && s[k] == y;
    }
  }

  lemma DateCons(h: FlightRow, t: seq<FlightRow>)
    requires DateNonIncreasing(t)
    requires forall y :: y in t ==> h.flight.flightDate >= y.flight.flightDate
    ensures DateNonIncreasing([h] + t)
  {
    var r := [h] + t;
    forall i, j | 0 <= i < j < |r| ensures r[i].flight.flightDate >= r[j].flight.flightDate {
      if i == 0 {
        assert r[j] == t[j - 1];
        assert t[j - 1] in t;
      } else {
        assert r[i] == t[i - 1] && r[j] == t[j - 1];
      }
    }
  }

  /** Places x before the first row that is not later than x. */
  function InsertByDate(x: FlightRow, s: seq<FlightRow>): (r: seq<FlightRow>)
    requires DateNonIncreasing(s)
    ensures DateNonIncreasing(r)
    ensures multiset(r) == multiset(s) + multiset{x}
  {
    if s == [] then [x]
    else if x.flight.flightDate >= s[0].flight.flightDate then
      DateHeadIsLatest(s);
      DateCons(x, s);
      [x] + s
    else
      assert s == [s[0]] + s[1..];
      assert DateNonIncreasing(s[1..]);
      var tail := InsertByDate(x, s[1..]);
      DateHeadIsLatest(s);
      forall y | y in tail ensures s[0].flight.flightDate >= y.flight.flightDate {
        assert y in multiset(tail);
        if y != x {
          assert y in multiset(s[1..]);
          assert y in s;
        }
      }
      DateCons(s[0], tail);
      [s[0]] + tail
  }

  /** `ORDER BY flight_date DESC`; rows of the same date keep table order. */
  function SortByDateDesc(s: seq<FlightRow>): (r: seq<FlightRow>)
    ensures DateNonIncreasing(r)
    ensures multiset(r) == multiset(s)
  {
    if s == [] then []
    else
      assert s == [s[0]] + s[1..];
      InsertByDate(s[0], SortByDateDesc(s[1..]))
  }

  /** SQLite's OFFSET: a negative offset counts as 0. */
  function WindowStart(skip: int): nat {
    if skip < 0 then 0 else skip
  }

  /** The number of rows `OFFSET skip LIMIT limit` leaves of total rows;
      SQLite reads a negative LIMIT as "no limit". */
  function WindowLength(total: nat, skip: int, limit: int): nat {
    var available := if WindowStart(skip) >= total then 0 else total - WindowStart(skip);
    if limit < 0 || limit > available then available else limit
  }

  /** `OFFSET skip LIMIT limit` applied to s. */
  function Window<T>(s: seq<T>, skip: int, limit: int): (w: seq<T>)
    ensures |w| == WindowLength(|s|, skip, limit)
    ensures WindowLength(|s|, skip, limit) > 0 ==>
              w == s[WindowStart(skip)..WindowStart(skip) + WindowLength(|s|, skip, limit)]
  {
    var start := WindowStart(skip);
    if start >= |s| then []
    else s[start..start + WindowLength(|s|, skip, limit)]
  }

  function ListRow(r: FlightRow): Listed {
    Listed(r.id, r.flight, Duration.RobustDuration(r.flight.data))
  }

  function ListAll(s: seq<FlightRow>): (l: seq<Listed>)
    ensures |l| == |s|
    ensures forall i :: 0 <= i < |s| ==> l[i] == ListRow(s[i])
  {
    if s == [] then [] else [ListRow(s[0])] + ListAll(s[1..])
  }

  /** The listed form of rows that all pass the filters, in date order. */
  lemma ListedRows(s: seq<FlightRow>, rows: seq<FlightRow>, c: Filters)
    requires forall x :: x in s ==> x in rows && Matches(x.flight, c)
    requires DateNonIncreasing(s)
    ensures forall x :: x in ListAll(s) ==>
              FlightRow(x.id, x.flight) in rows && Matches(x.flight, c)
              && x.duration == Duration.RobustDuration(x.flight.data)
    ensures forall i, j :: 0 <= i < j < |ListAll(s)| ==>
              ListAll(s)[i].flight.flightDate >= ListAll(s)[j].flight.flightDate
  {
    var l := ListAll(s);
    forall x | x in l
      ensures FlightRow(x.id, x.flight) in rows && Matches(x.flight, c)
      ensures x.duration == Duration.RobustDuration(x.flight.data)
    {
      var k :| 0 <= k < |l| && l[k] == x;
      assert x == ListRow(s[k]);
      assert s[k] in s;
    }
    forall i, j | 0 <= i < j < |l| ensures l[i].flight.flightDate >= l[j].flight.flightDate {
      assert l[i] == ListRow(s[i]) && l[j] == ListRow(s[j]);
    }
  }

  /** A window of a date-ordered sequence holds rows of it, in date order. */
  lemma WindowOfOrdered(s: seq<FlightRow>, skip: int, limit: int)
    requires DateNonIncreasing(s)
    ensures forall x :: x in Window(s, skip, limit) ==> x in s
    ensures DateNonIncreasing(Window(s, skip, limit))
  {
    var w := Window(s, skip, limit);
    var start := WindowStart(skip);
    forall x | x in w ensures x in s {
      var k :| 0 <= k < |w| && w[k] == x;
      assert w[k] == s[start + k];
    }
    forall i, j | 0 <= i < j < |w| ensures w[i].flight.flightDate >= w[j].flight.flightDate {
      assert w[i] == s[start + i] && w[j] == s[start + j];
    }
  }

  /** `read_flights` over the table rows. */
  function ReadFlights(rows: seq<FlightRow>, q: Query): (page: Page)
    ensures |page.flights| == WindowLength(page.totalFlights, q.skip, q.limit)
  {
    var matching := Filter(rows, q.filters);
    var ordered := SortByDateDesc(matching);
    assert |ordered| == |matching| by {
      assert |multiset(ordered)| == |multiset(matching)|;
    }
    WindowOfOrdered(ordered, q.skip, q.limit);
    Page(|matching|, ListAll(Window(ordered, q.skip, q.limit)))
  }

  /** Every listed flight is a table row that passes the filters, shown
      with its robust duration, and the listing runs from the latest
      flight date to the earliest. */
  lemma ListedFlightsMatch(rows: seq<FlightRow>, q: Query)
    ensures var l := ReadFlights(rows, q).flights;
            && (forall x :: x in l ==>
                  FlightRow(x.id, x.flight) in rows && Matches(x.flight, q.filters)
                  && x.duration == Duration.RobustDuration(x.flight.data))
            && (forall i, j :: 0 <= i < j < |l| ==> l[i].flight.flightDate >= l[j].flight.flightDate)
  {
    ListedWindow(rows, q);
  }

  /** The listing of the requested window of the ordered matching rows. */
  lemma ListedWindow(rows: seq<FlightRow>, q: Query)
    ensures var l := ListAll(Window(SortByDateDesc(Filter(rows, q.filters)), q.skip, q.limit));
            && (forall x :: x in l ==>
                  FlightRow(x.id, x.flight) in rows && Matches(x.flight, q.filters)
                  && x.duration == Duration.RobustDuration(x.flight.data))
            && (forall i, j :: 0 <= i < j < |l| ==> l[i].flight.flightDate >= l[j].flight.flightDate)
  {
    var matching := Filter(rows, q.filters);
    var ordered := SortByDateDesc(matching);
    var window := Window(ordered, q.skip, q.limit);
    WindowOfOrdered(ordered, q.skip, q.limit);
    assert forall x :: x in window ==> x in rows && Matches(x.flight, q.filters) by {
      forall x | x in window ensures x in rows && Matches(x.flight, q.filters) {
        assert x in multiset(ordered);
        assert x in multiset(matching);
      }
    }
    ListedRows(window, rows, q.filters);
  }

  /** The total does not depend on the window. */
  lemma TotalIgnoresWindow(rows: seq<FlightRow>, q: Query, skip: int, limit: int)
    ensures ReadFlights(rows, q).totalFlights == ReadFlights(rows, q.(skip := skip, limit := limit)).totalFlights
  {
  }

  ghost predicate DistinctIds(rows: seq<FlightRow>) {
    forall i, j :: 0 <= i < j < |rows| ==> rows[i].id != rows[j].id
  }

  lemma DistinctTail(rows: seq<FlightRow>)
    requires DistinctIds(rows) && rows != []
    ensures DistinctIds(rows[1..])
    ensures rows[0] !in rows[1..]
  {
    forall i, j | 0 <= i < j < |rows[1..]| ensures rows[1..][i].id != rows[1..][j].id {
      assert rows[1..][i] == rows[i + 1] && rows[1..][j] == rows[j + 1];
    }
    forall k | 0 <= k < |rows[1..]| ensures rows[1..][k] != rows[0] {
      assert rows[1..][k] == rows[k + 1];
    }
  }

  lemma {:induction false} DistinctFilter(rows: seq<FlightRow>, c: Filters)
    requires DistinctIds(rows)
    ensures DistinctIds(Filter(rows, c))
  {
    if rows != [] {
      DistinctTail(rows);
      DistinctFilter(rows[1..], c);
      var rest := Filter(rows[1..], c);
      if Matches(rows[0].flight, c) {
        var r := [rows[0]] + rest;
        forall i, j | 0 <= i < j < |r| ensures r[i].id != r[j].id {
          if i == 0 {
            assert r[j] == rest[j - 1];
            assert rest[j - 1] in rows[1..];
            var k :| 0 <= k < |rows[1..]| && rows[1..][k] == rest[j - 1];
            assert rows[k + 1] == r[j];
          } else {
            assert r[i] == rest[i - 1] && r[j] == rest[j - 1];
          }
        }
      }
    }
  }

  /** Rows of distinct ids are as many as the distinct rows among them. */
  lemma {:induction false} DistinctCount(s: seq<FlightRow>)
    requires DistinctIds(s)
    ensures |set x | x in s| == |s|
  {
    if s != [] {
      DistinctTail(s);
      DistinctCount(s[1..]);
      assert (set x | x in s) == (set x | x in s[1..]) + {s[0]};
    }
  }

  /** With table rows of distinct ids, the total is the number of flights
      that pass the filters. */
  lemma TotalCountsMatchingFlights(rows: seq<FlightRow>, q: Query)
    requires DistinctIds(rows)
    ensures ReadFlights(rows, q).totalFlights == |set x | x in rows && Matches(x.flight, q.filters)|
  {
    DistinctFilter(rows, q.filters);
    DistinctCount(Filter(rows, q.filters));
    assert (set x | x in Filter(rows, q.filters)) == (set x | x in rows && Matches(x.flight, q.filters));
  }

  /** Consecutive windows of one sequence join into the window spanning both. */
  lemma WindowsTile<T>(s: seq<T>, skip: nat, a: nat, b: nat)
    ensures Window(s, skip, a) + Window(s, skip + a, b) == Window(s, skip, a + b)
  {
  }

  /** Two consecutive windows list what one window spanning both lists:
      paging neither skips nor repeats a flight. */
  lemma PagesTile(rows: seq<FlightRow>, q: Query, a: nat, b: nat)
    requires q.skip >= 0
    ensures ReadFlights(rows, q.(limit := a)).flights + ReadFlights(rows, q.(skip := q.skip + a, limit := b)).flights
            == ReadFlights(rows, q.(limit := a + b)).flights
  {
    var ordered := SortByDateDesc(Filter(rows, q.filters));
    var q1, q2, q3 := q.(limit := a), q.(skip := q.skip + a, limit := b), q.(limit := a + b);
    var l1, l2, l3 := ListAll(Window(ordered, q.skip, a)), ListAll(Window(ordered, q.skip + a, b)), ListAll(Window(ordered, q.skip, a + b));
    PageListing(rows, q1);
    assert ReadFlights(rows, q1).flights == l1;
    PageListing(rows, q2);
    assert ReadFlights(rows, q2).flights == l2;
    PageListing(rows, q3);
    assert ReadFlights(rows, q3).flights == l3;
    ListingsTile(ordered, q.skip, a, b);
    assert l1 + l2 == l3;
  }

  /** A page lists the requested window of the matching rows in date order. */
  lemma PageListing(rows: seq<FlightRow>, q: Query)
    ensures ReadFlights(rows, q).flights == ListAll(Window(SortByDateDesc(Filter(rows, q.filters)), q.skip, q.limit))
  {
  }

  /** The listings of two consecutive windows join into the listing of the
      window spanning both. */
  lemma ListingsTile(s: seq<FlightRow>, skip: nat, a: nat, b: nat)
    ensures ListAll(Window(s, skip, a)) + ListAll(Window(s, skip + a, b)) == ListAll(Window(s, skip, a + b))
  {
    WindowsTile(s, skip, a, b);
    ListAllAppend(Window(s, skip, a), Window(s, skip + a, b));
  }

  lemma {:induction false} ListAllAppend(s: seq<FlightRow>, t: seq<FlightRow>)
    ensures ListAll(s + t) == ListAll(s) + ListAll(t)
  {
    if s == [] {
      assert s + t == t;
    } else {
      assert (s + t)[1..] == s[1..] + t;
      ListAllAppend(s[1..], t);
    }
  }

  /** Without a limit and from offset 0, every flight that passes the
      filters is listed. */
  lemma UnlimitedListsAll(rows: seq<FlightRow>, q: Query, x: FlightRow)
    requires q.skip <= 0 && q.limit < 0
    requires x in rows && Matches(x.flight, q.filters)
    ensures ListRow(x) in ReadFlights(rows, q).flights
  {
    var matching := Filter(rows, q.filters);
    var ordered := SortByDateDesc(matching);
    assert |ordered| == |matching| by {
      assert |multiset(ordered)| == |multiset(matching)|;
    }
    assert x in multiset(ordered);
    var k :| 0 <= k < |ordered| && ordered[k] == x;
    assert Window(ordered, q.skip, q.limit) == ordered;
    assert ListAll(ordered)[k] == ListRow(x);
  }
}
