/**
 * The shared value model of the bus station: routes, their endpoint pairs,
 * tickets, and the closed set of errors the booking logic can report.
 * Timestamps are whole seconds on one clock.
 */
module Domain {

  /** The (origin, destination) pair of a route. */
  datatype Points = Points(startPoint: string, endPoint: string)

  /** A scheduled departure with its seat inventory; `id` is assigned by the store. */
  datatype Route = Route(id: int, points: Points, start: int, cost: int, freeSeats: int, allSeats: int)

  /** The receipt for one purchased seat. */
  datatype Ticket = Ticket(points: Points, startTime: int, cost: int, place: int)

  /**
   * Every error a core operation can return: the error values of the newer
   * generation, the plain-text errors of the older one, and an opaque
   * pass-through for whatever else a storage implementation reports.
   */
  datatype Error =
    | ErrNoFreeSeats
    | ErrNoRoutes
    | ErrTypes
    | ErrNoRoutesByEndPoint
    | ErrInvalidDate
    | ErrInvalidArg
    | DateIsInvalid        // older controller: "Date is invalid"
    | NoSuchRoutes         // older controller: "No such routes"
    | NoSuchRoute          // older store: "no such route"
    | StoreError(msg: string)

  datatype Option<T> = None | Some(value: T)

  /** A value or the error that replaced it (Go's `(T, error)` pair). */
  datatype Result<T> = Ok(value: T) | Err(error: Error)

  /** A query answer that is an error when nothing was found. */
  function NonEmpty(rows: seq<Route>, none: Error): Result<seq<Route>> {
    if |rows| == 0 then Err(none) else Ok(rows)
  }

  /** The seat numbering rule: the ticket for `r` as read before its seat count is decremented. */
  function TicketFor(r: Route): Ticket {
    Ticket(r.points, r.start, r.cost, r.allSeats - r.freeSeats + 1)
  }

  /** A route the caller holds by pointer; CreateRoute writes the assigned id into it. */
  class RouteRef {
    var val: Route

    constructor (r: Route)
      ensures val == r
    {
      val := r;
    }
  }

  /**
   * What a create operation does with the storage's answer to AddRoute:
   * an error is handed back unchanged and the route is left alone; an id is
   * written into the route and nothing else about it changes.
   */
  function AssignId(route: Route, added: Result<int>): (out: (Option<Error>, Route))
    ensures added.Err? ==> out.0 == Some(added.error) && out.1 == route
    ensures added.Ok? ==> out.0 == None && out.1.id == added.value
    ensures out.1.(id := route.id) == route
  {
    match added
    case Err(e) => (Some(e), route)
    case Ok(id) => (None, route.(id := id))
  }
}
