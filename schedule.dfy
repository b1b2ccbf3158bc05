/**
 * The date filter both route managers apply to a storage answer: keep the
 * routes that start in the half-open day [date, date + 24h), in their order.
 */
module Schedule {
  import opened Domain

  /** 24 hours, in seconds. */
  const Day: int := 86400

  /** `start` lies in the 24-hour window that opens at `date`. */
  predicate InWindow(start: int, date: int) {
    0 <= start - date < Day
  }

  /** The routes of `routes` that start in the window, in their original order. */
  function Window(routes: seq<Route>, date: int): seq<Route> {
    if |routes| == 0 then []
    else (if InWindow(routes[0].start, date) then [routes[0]] else []) + Window(routes[1..], date)
  }

  /** Exactly the routes of the input that start in the window survive. */
  lemma {:induction false} WindowMembership(routes: seq<Route>, date: int, x: Route)
    ensures x in Window(routes, date) <==> x in routes && InWindow(x.start, date)
  {
    if |routes| != 0 {
      WindowMembership(routes[1..], date, x);
      assert routes == [routes[0]] + routes[1..];
    }
  }

  /** The filter keeps order: filtering a concatenation concatenates the filtered parts. */
  lemma {:induction false} WindowConcat(a: seq<Route>, b: seq<Route>, date: int)
    ensures Window(a + b, date) == Window(a, date) + Window(b, date)
  {
    if |a| != 0 {
      assert (a + b)[1..] == a[1..] + b;
      WindowConcat(a[1..], b, date);
    } else {
      assert a + b == b;
    }
  }

  /** The filter never adds routes: its result is at most as long as its input. */
  lemma {:induction false} WindowShorter(routes: seq<Route>, date: int)
    ensures |Window(routes, date)| <= |routes|
  {
    if |routes| != 0 {
      WindowShorter(routes[1..], date);
    }
  }

  /** The window of a list in ascending id is itself in ascending id. */
  lemma {:induction false} WindowIncreasing(routes: seq<Route>, date: int)
    requires forall i, j :: 0 <= i < j < |routes| ==> routes[i].id < routes[j].id
    ensures forall i, j :: 0 <= i < j < |Window(routes, date)| ==> Window(routes, date)[i].id < Window(routes, date)[j].id
  {
    if |routes| != 0 {
      WindowIncreasing(routes[1..], date);
      forall x | x in Window(routes[1..], date) ensures routes[0].id < x.id {
        WindowMembership(routes[1..], date, x);
      }
    }
  }

  /** The `for _, route := range routes { if diff >= 0 && diff < 24 { append } }` loop. */
  method FilterWindow(routes: seq<Route>, date: int) returns (routesDate: seq<Route>)
    ensures routesDate == Window(routes, date)
  {
    routesDate := [];
    for i := 0 to |routes|
      invariant routesDate == Window(routes[..i], date)
    {
      var route := routes[i];
      assert routes[..i + 1] == routes[..i] + [route];
      WindowConcat(routes[..i], [route], date);
      if InWindow(route.start, date) {
        routesDate := routesDate + [route];
      }
    }
    assert routes[..|routes|] == routes;
  }

  /**
   * What a search by date answers, given what the storage answered for the
   * endpoint: storage errors pass through unchanged, an empty window is the
   * error `none`, otherwise the routes in the window.
   */
  function OnDay(found: Result<seq<Route>>, date: int, none: Error): (r: Result<seq<Route>>)
  {
    match found
    case Err(e) => Err(e)
    case Ok(routes) => NonEmpty(Window(routes, date), none)
  }

  /**
   * The body of a search by date once the storage has answered: hand a
   * storage error back unchanged, filter the routes to the day, and report
   * `none` when nothing is left.
   */
  method NarrowToDay(found: Result<seq<Route>>, date: int, none: Error) returns (res: Result<seq<Route>>)
    ensures res == OnDay(found, date, none)
  {
    if found.Err? {
      return Err(found.error);
    }
    var routesDate := FilterWindow(found.value, date);
    if |routesDate| == 0 {
      return Err(none);
    }
    return Ok(routesDate);
  }

  /**
   * The three outcomes of a search by date: a storage error comes back
   * unchanged; otherwise the answer is exactly the storage routes in the
   * window, in their order, and it is the error `none` when there are none.
   */
  lemma OnDayOutcomes(found: Result<seq<Route>>, date: int, none: Error)
    ensures found.Err? ==> OnDay(found, date, none) == found
    ensures found.Ok? && (forall x :: x in found.value ==> !InWindow(x.start, date)) ==>
      OnDay(found, date, none) == Err(none)
    ensures found.Ok? && OnDay(found, date, none).Ok? ==>
      OnDay(found, date, none).value == Window(found.value, date) &&
      forall x :: x in OnDay(found, date, none).value <==> x in found.value && InWindow(x.start, date)
    ensures OnDay(found, date, none).Err? ==> found.Err? || OnDay(found, date, none).error == none
    ensures forall x :: found.Ok? && x in found.value && InWindow(x.start, date) ==>
      OnDay(found, date, none) == Ok(Window(found.value, date))
  {
    if found.Ok? {
      forall x ensures x in Window(found.value, date) <==> x in found.value && InWindow(x.start, date) {
        WindowMembership(found.value, date, x);
      }
      if |Window(found.value, date)| != 0 {
        var w := Window(found.value, date)[0];
        assert w in Window(found.value, date);
      }
    }
  }
}
