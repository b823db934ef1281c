/** The ride card of src/components/RideCard.tsx: the viewer's relation to the
    ride, the join control, the delete button and the route heading. */
module RideCard {
  import opened Options
  import opened Types
  import opened RidesApi
  import opened PageActions

  /** `currentUserEmail === ride.createdByEmail`; nobody logged in is never the creator. */
  predicate IsCreator(r: Ride, email: Option<string>) {
    email == Some(r.info.createdByEmail)
  }

  /** `passengerEmails.includes(currentUserEmail ?? '')`. */
  predicate IsPassenger(r: Ride, email: Option<string>) {
    email.GetOr("") in r.passengerEmails
  }

  predicate IsFull(r: Ride) {
    r.seatsFilled >= r.info.seatsTotal
  }

  /** What `renderJoinButton` renders: nothing, or a button with its label and
      whether it is enabled; only an enabled button calls `onJoin`. */
  datatype JoinControl = NoControl | Button(caption: string, enabled: bool)

  /** `renderJoinButton`. */
  function JoinButton(r: Ride, loggedIn: bool, email: Option<string>): (c: JoinControl)
    ensures !loggedIn ==> c == Button("Login to join", false)
    ensures loggedIn && IsCreator(r, email) ==> c == NoControl
    ensures loggedIn && !IsCreator(r, email) && IsFull(r) ==> c == Button("Full", false)
    ensures loggedIn && !IsCreator(r, email) && !IsFull(r) ==>
              c == Button(if IsPassenger(r, email) then "Joined" else "Join Ride", !IsPassenger(r, email))
  {
    if !loggedIn then Button("Login to join", false)
    else if IsCreator(r, email) then NoControl
    else if IsFull(r) then Button("Full", false)
    else
      var joined := IsPassenger(r, email);
      Button(if joined then "Joined" else "Join Ride", !joined)
  }

  /** `onJoin` is reachable exactly when the viewer is logged in and neither the
      creator, nor facing a full ride, nor already a passenger. */
  lemma JoinReachableExactly(r: Ride, loggedIn: bool, email: Option<string>)
    ensures var c := JoinButton(r, loggedIn, email);
            (c.Button? && c.enabled) <==> loggedIn && !IsCreator(r, email) && !IsFull(r) && !IsPassenger(r, email)
    ensures var c := JoinButton(r, loggedIn, email);
            c.Button? && c.enabled ==> c.caption == "Join Ride"
  {
  }

  /** An enabled button on the card of a listed ride passes every check
      `handleJoinRide` makes before it calls the store. */
  lemma EnabledButtonPassesPageChecks(page: Page, email: Option<string>, i: int)
    requires 0 <= i < |page.rides| && LoggedIn(email)
    requires Absent(page.rides[..i], page.rides[i].id)
    requires var c := JoinButton(page.rides[i], true, email); c.Button? && c.enabled
    ensures MayJoin(page.rides, email, page.rides[i].id)
  {
    var r := page.rides[i];
    JoinReachableExactly(r, true, email);
    assert !Absent(page.rides, r.id);
  }

  /** The creator never sees a join control, though the store itself would let
      the creator take a seat. */
  lemma CreatorSeesNoJoinControl(r: Ride, email: Option<string>)
    requires IsCreator(r, email)
    ensures JoinButton(r, true, email) == NoControl
  {
  }

  /** The delete button is shown to the creator when the list supplies `onDelete`. */
  predicate DeleteVisible(r: Ride, email: Option<string>, hasOnDelete: bool) {
    IsCreator(r, email) && hasOnDelete
  }

  /** A visible delete button leads to a request the store grants. */
  lemma VisibleDeleteIsGranted(store: seq<Ride>, r: Ride, email: Option<string>)
    requires DeleteVisible(r, email, true)
    requires !Absent(store, r.id) && store[FindIndex(store, r.id)] == r
    ensures DeleteRide(store, r.id, email.value).Ok?
  {
  }

  // ---------------------------------------------------------------- heading

  /** The city names the heading marks as airports. */
  predicate IsAirportCity(v: string) {
    v == "Bangalore" || v == "Chennai" || v == "Tirupati"
  }

  /** The label of one endpoint: '<city> - Airport', the city location, or '<type> <block>'. */
  function EndpointLabel(t: string, v: string): (text: string)
    ensures t == CITY && IsAirportCity(v) ==> text == v + " - Airport"
    ensures t == CITY && !IsAirportCity(v) ==> text == v
    ensures t != CITY ==> text == t + " " + v
  {
    if t == CITY && IsAirportCity(v) then v + " - Airport"
    else if t == CITY then v
    else t + " " + v
  }

  /** The two labels of the heading, rendered as `origin → destination`. */
  datatype Heading = Heading(origin: string, destination: string)

  /** The heading as the component computes it: when the destination is an
      airport city, the origin label repeats the destination's. */
  function HeadingAsWritten(r: Ride): (h: Heading)
    ensures h.destination == EndpointLabel(r.info.toType, r.info.toValue)
    ensures r.info.toType == CITY && IsAirportCity(r.info.toValue) ==> h.origin == h.destination
    ensures !(r.info.toType == CITY && IsAirportCity(r.info.toValue)) ==>
              h.origin == EndpointLabel(r.info.fromType, r.info.fromValue)
  {
    var i := r.info;
    var origin :=
      if i.toType == CITY && IsAirportCity(i.toValue) then i.toValue + " - Airport"
      else EndpointLabel(i.fromType, i.fromValue);
    Heading(origin, EndpointLabel(i.toType, i.toValue))
  }

  /** A ride from block J of the men's hostel to Chennai airport is headed
      'Chennai - Airport → Chennai - Airport'. */
  lemma HeadingAsWrittenMislabelsOrigin(r: Ride)
    requires r.info.fromType == MH && r.info.fromValue == "J"
    requires r.info.toType == CITY && r.info.toValue == "Chennai"
    ensures HeadingAsWritten(r) == Heading("Chennai - Airport", "Chennai - Airport")
    ensures HeadingAsWritten(r).origin != EndpointLabel(r.info.fromType, r.info.fromValue)
  {
    assert EndpointLabel(MH, "J") == "MH J";
  }

  /** The heading with each label computed from its own endpoint. */
  function RouteHeading(r: Ride): (h: Heading)
    ensures h.origin == EndpointLabel(r.info.fromType, r.info.fromValue)
    ensures h.destination == HeadingAsWritten(r).destination
  {
    Heading(EndpointLabel(r.info.fromType, r.info.fromValue), EndpointLabel(r.info.toType, r.info.toValue))
  }

  /** The corrected origin label depends on the origin alone: two rides that start
      at the same place are headed alike there, wherever they go. */
  lemma RouteHeadingOriginIgnoresDestination(a: Ride, b: Ride)
    requires a.info.fromType == b.info.fromType && a.info.fromValue == b.info.fromValue
    ensures RouteHeading(a).origin == RouteHeading(b).origin
  {
  }

  /** As written, the origin label does depend on the destination. */
  lemma HeadingAsWrittenOriginDependsOnDestination(a: Ride, b: Ride)
    requires a.info.fromType == MH && a.info.fromValue == "J" && a.info.toType == CITY && a.info.toValue == "Chennai"
    requires b.info.fromType == MH && b.info.fromValue == "J" && b.info.toType == CITY && b.info.toValue == "Airport"
    ensures HeadingAsWritten(a).origin != HeadingAsWritten(b).origin
  {
    HeadingAsWrittenMislabelsOrigin(a);
    assert EndpointLabel(MH, "J") == "MH J";
  }

  /** The two headings agree unless the destination is an airport city. */
  lemma HeadingsAgreeOffAirportRoutes(r: Ride)
    requires !(r.info.toType == CITY && IsAirportCity(r.info.toValue))
    ensures HeadingAsWritten(r) == RouteHeading(r)
  {
  }
}
