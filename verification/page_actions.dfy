/** The ride handlers of src/app/page.tsx: `handleJoinRide`,
    `handleDeleteRide` and `handleCreateRide`. Each takes the page's local
    lists, the store's list and the logged-in address, and returns the new
    page state together with the new store list. */
module PageActions {
  import opened Options
  import opened Seqs
  import opened Types
  import opened RidesApi

  /** The part of the page state the handlers touch. */
  datatype Page = Page(rides: seq<Ride>, myRides: seq<Ride>, status: Option<string>)

  datatype Step = Step(page: Page, store: seq<Ride>)

  /** `currentUserEmail` is truthy. */
  predicate LoggedIn(email: Option<string>) {
    email.Some? && email.value != ""
  }

  /** `rides.map(ride => ride.id === id ? updated : ride)`. */
  function ReplaceById(rides: seq<Ride>, id: string, updated: Ride): (r: seq<Ride>)
    ensures |r| == |rides|
    ensures forall i :: 0 <= i < |rides| ==> r[i] == if rides[i].id == id then updated else rides[i]
  {
    seq(|rides|, i requires 0 <= i < |rides| => if rides[i].id == id then updated else rides[i])
  }

  /** The checks `handleJoinRide` makes on its own copy of the list before calling the store. */
  predicate MayJoin(rides: seq<Ride>, email: Option<string>, id: string) {
    && LoggedIn(email)
    && !Absent(rides, id)
    && email.value !in rides[FindIndex(rides, id)].passengerEmails
    && rides[FindIndex(rides, id)].seatsFilled < rides[FindIndex(rides, id)].info.seatsTotal
  }

  /** `handleJoinRide`. */
  function HandleJoinRide(page: Page, store: seq<Ride>, email: Option<string>, id: string): (s: Step)
    ensures !LoggedIn(email) ==> s == Step(page, store)
    ensures LoggedIn(email) && Absent(page.rides, id) ==>
              s == Step(page.(status := Some("Ride not found")), store)
    ensures LoggedIn(email) && !Absent(page.rides, id)
            && email.value in page.rides[FindIndex(page.rides, id)].passengerEmails ==>
              s == Step(page.(status := Some("You already joined this ride")), store)
    ensures LoggedIn(email) && !Absent(page.rides, id)
            && email.value !in page.rides[FindIndex(page.rides, id)].passengerEmails
            && page.rides[FindIndex(page.rides, id)].seatsFilled
               >= page.rides[FindIndex(page.rides, id)].info.seatsTotal ==>
              s == Step(page.(status := Some("Ride is full")), store)
    ensures !MayJoin(page.rides, email, id) ==> s.store == store && s.page.rides == page.rides
    ensures MayJoin(page.rides, email, id) && JoinRide(store, id, email.value).Ok? ==>
              && s.store == JoinRide(store, id, email.value).value.rides
              && s.page == Page(ReplaceById(page.rides, id, JoinRide(store, id, email.value).value.ride),
                                page.myRides, Some("Joined ride"))
    ensures MayJoin(page.rides, email, id) && JoinRide(store, id, email.value).Err? ==>
              s == Step(page.(status := Some(Message(JoinRide(store, id, email.value).error))), store)
  {
    if !LoggedIn(email) then
      Step(page, store)
    else if Absent(page.rides, id) then
      Step(page.(status := Some("Ride not found")), store)
    else
      var target := page.rides[FindIndex(page.rides, id)];
      if email.value in target.passengerEmails then
        Step(page.(status := Some("You already joined this ride")), store)
      else if target.seatsFilled >= target.info.seatsTotal then
        Step(page.(status := Some("Ride is full")), store)
      else
        match JoinRide(store, id, email.value)
        case Ok(j) => Step(Page(ReplaceById(page.rides, id, j.ride), page.myRides, Some("Joined ride")), j.rides)
        case Err(e) => Step(page.(status := Some(Message(e))), store)
  }

  /** `handleDeleteRide`. */
  function HandleDeleteRide(page: Page, store: seq<Ride>, email: Option<string>, id: string): (s: Step)
    ensures !LoggedIn(email) ==> s == Step(page, store)
    ensures LoggedIn(email) ==>
              (match DeleteRide(store, id, email.value)
               case Ok(after) =>
                 && s.store == after
                 && s.page.status == Some("Ride deleted")
                 && Subsequence(s.page.rides, page.rides)
                 && Subsequence(s.page.myRides, page.myRides)
                 && (forall x :: multiset(s.page.rides)[x] == if x.id != id then multiset(page.rides)[x] else 0)
                 && (forall x :: multiset(s.page.myRides)[x] == if x.id != id then multiset(page.myRides)[x] else 0)
               case Err(e) =>
                 s == Step(page.(status := Some(Message(e))), store))
  {
    if !LoggedIn(email) then
      Step(page, store)
    else
      match DeleteRide(store, id, email.value)
      case Ok(after) =>
        Step(Page(Filter(page.rides, OtherThan(id)), Filter(page.myRides, OtherThan(id)), Some("Ride deleted")), after)
      case Err(e) =>
        Step(page.(status := Some(Message(e))), store)
  }

  /** The fields of a ride input that the posting form supplies. */
  function PayloadOf(i: RideInput): PostPayload {
    PostPayload(i.fromType, i.fromValue, i.toType, i.toValue, i.datetime,
                i.totalPrice, i.seatsTotal, i.genderPref, i.phone)
  }

  /** `{ ...payload, createdByEmail, created_by }`: the payload survives unchanged,
      beside the creator's address and user id. */
  function WithCreator(p: PostPayload, email: string, userId: Option<string>): (r: RideInput)
    ensures PayloadOf(r) == p
    ensures r.createdByEmail == email && r.legacy == NoLegacy.(createdBy := userId)
  {
    RideInput(email, p.fromType, p.fromValue, p.toType, p.toValue, p.datetime,
              p.totalPrice, p.seatsTotal, p.genderPref, p.phone, NoLegacy.(createdBy := userId))
  }

  /** `handleCreateRide`. The normalisation step of the source leaves the created
      ride as it is: its `createdByEmail` is already the logged-in address and its
      `created_by` is already the user id. */
  function HandleCreateRide(page: Page, store: seq<Ride>, email: Option<string>, userId: Option<string>,
                            payload: PostPayload, freshId: string): (s: Step)
    ensures !LoggedIn(email) ==> s == Step(page, store)
    ensures LoggedIn(email) ==>
              && |s.page.rides| == |page.rides| + 1 && s.page.rides[1..] == page.rides
              && |s.page.myRides| == |page.myRides| + 1 && s.page.myRides[1..] == page.myRides
              && |s.store| == |store| + 1
              && s.page.rides[0] == s.page.myRides[0] && s.page.rides[0] == s.store[0]
              && s.store[1..] == store
              && s.page.rides[0].id == freshId
              && PayloadOf(s.page.rides[0].info) == payload
              && s.page.rides[0].info.legacy == NoLegacy.(createdBy := userId)
              && s.page.rides[0].info.createdByEmail == email.value
              && s.page.rides[0].seatsFilled == 0 && s.page.rides[0].passengerEmails == []
              && s.page.status == Some("Ride posted!")
  {
    if !LoggedIn(email) then
      Step(page, store)
    else
      var c := CreateRide(store, WithCreator(payload, email.value, userId), freshId);
      Step(Page([c.ride] + page.rides, [c.ride] + page.myRides, Some("Ride posted!")), c.rides)
  }

  // ---------------------------------------------------------------- properties

  /** Every ride the page and the store hold has coherent seat bookkeeping. */
  predicate Coherent(page: Page, store: seq<Ride>) {
    && StoreInvariant(store)
    && (forall i :: 0 <= i < |page.rides| ==> SeatsConsistent(page.rides[i]))
    && (forall i :: 0 <= i < |page.myRides| ==> SeatsConsistent(page.myRides[i]))
  }

  /** Joining from the page keeps the page and the store coherent. */
  lemma PageJoinKeepsCoherence(page: Page, store: seq<Ride>, email: Option<string>, id: string)
    requires Coherent(page, store)
    ensures var s := HandleJoinRide(page, store, email, id); Coherent(s.page, s.store)
  {
    if MayJoin(page.rides, email, id) && JoinRide(store, id, email.value).Ok? {
      JoinPreservesInvariant(store, id, email.value);
    }
  }

  /** After a successful delete no copy of the ride is left anywhere. */
  lemma PageDeleteRemovesEverywhere(page: Page, store: seq<Ride>, email: Option<string>, id: string, x: Ride)
    requires LoggedIn(email) && DeleteRide(store, id, email.value).Ok?
    requires x.id == id
    ensures var s := HandleDeleteRide(page, store, email, id);
            x !in s.page.rides && x !in s.page.myRides && x !in s.store
  {
    var s := HandleDeleteRide(page, store, email, id);
    assert multiset(s.page.rides)[x] == 0 && multiset(s.page.myRides)[x] == 0 && multiset(s.store)[x] == 0;
  }

  /** Posting from the page keeps everything coherent when the form's checks held. */
  lemma PageCreateKeepsCoherence(page: Page, store: seq<Ride>, email: Option<string>, userId: Option<string>,
                                 payload: PostPayload, freshId: string)
    requires Coherent(page, store)
    requires payload.seatsTotal >= 1
    requires Absent(store, freshId)
    ensures var s := HandleCreateRide(page, store, email, userId, payload, freshId); Coherent(s.page, s.store)
  {
    if LoggedIn(email) {
      CreatePreservesInvariant(store, WithCreator(payload, email.value, userId), freshId);
      var s := HandleCreateRide(page, store, email, userId, payload, freshId);
      forall i | 0 <= i < |s.page.rides| ensures SeatsConsistent(s.page.rides[i]) {
        if i > 0 { assert s.page.rides[i] == page.rides[i - 1]; }
      }
      forall i | 0 <= i < |s.page.myRides| ensures SeatsConsistent(s.page.myRides[i]) {
        if i > 0 { assert s.page.myRides[i] == page.myRides[i - 1]; }
      }
    }
  }
}
