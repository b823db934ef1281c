/** The in-memory ride store of src/lib/ridesApi.ts.

    The module-level mutable list becomes a value: every operation takes the
    current list and returns the new one. A thrown `Error` becomes `Err`, and
    the caller then keeps its old list, which is exactly "nothing changed".
    `crypto.randomUUID()` becomes an identifier parameter; the lemmas that need
    it to be new say so. */
module RidesApi {
  import opened Options
  import opened Seqs
  import opened Types

  const MhBlocks: seq<string> := [
    "A", "B", "B ANNEX", "C", "D", "D ANNEX", "E", "F", "G", "H", "J", "J ANNEX",
    "K", "L", "M", "M ANNEX", "N", "N ANNEX", "P", "Q", "R", "S", "T"]

  const LhBlocks: seq<string> := ["A", "B", "C", "D", "E", "F", "G", "H", "J", "RGT H", "GH ANNEX"]

  const CityLocations: seq<string> := ["Main Gate", "Railway Station", "City Center", "Airport"]

  /** The errors the store throws. */
  datatype StoreError = RideNotFound | RideFull | NotCreator

  function Message(e: StoreError): string {
    match e
    case RideNotFound => "Ride not found"
    case RideFull => "Ride is full"
    case NotCreator => "Only the creator can delete this ride"
  }

  // ---------------------------------------------------------------- invariants

  /** The seat bookkeeping of one ride is coherent. */
  predicate SeatsConsistent(r: Ride) {
    && 0 <= r.seatsFilled <= r.info.seatsTotal
    && r.seatsFilled == |r.passengerEmails|
    && NoDuplicates(r.passengerEmails)
  }

  predicate UniqueIds(rides: seq<Ride>) {
    forall i, j :: 0 <= i < j < |rides| ==> rides[i].id != rides[j].id
  }

  predicate StoreInvariant(rides: seq<Ride>) {
    && (forall i :: 0 <= i < |rides| ==> SeatsConsistent(rides[i]))
    && UniqueIds(rides)
  }

  predicate Absent(rides: seq<Ride>, id: string) {
    forall j :: 0 <= j < |rides| ==> rides[j].id != id
  }

  // ---------------------------------------------------------------- seed data

  /** The two rides the store starts with. Their identifiers are random and their
      departure times are computed from the clock, so all four are parameters. */
  function SeedRides(id1: string, id2: string, departure1: string, departure2: string): seq<Ride> {
    [ Ride(id1,
           RideInput("hostel.mh@example.com", MH, "J", CITY, "Airport", departure1,
                     900, 4, "Any", "+91 9876543210", NoLegacy),
           1, ["hostel.mh@example.com"]),
      Ride(id2,
           RideInput("lh.student@example.com", LH, "C", CITY, "Railway Station", departure2,
                     450, 3, "Female", "+91 9988776655", NoLegacy),
           0, []) ]
  }

  lemma SeedRidesConsistent(id1: string, id2: string, departure1: string, departure2: string)
    requires id1 != id2
    ensures StoreInvariant(SeedRides(id1, id2, departure1, departure2))
  {
  }

  // ---------------------------------------------------------------- lookup

  /** `rides.findIndex(ride => ride.id === id)`; also what `rides.find` selects. */
  function FindIndex(rides: seq<Ride>, id: string): (i: int)
    ensures -1 <= i < |rides|
    ensures i == -1 <==> Absent(rides, id)
    ensures i >= 0 ==> rides[i].id == id && Absent(rides[..i], id)
    decreases |rides|
  {
    if |rides| == 0 then
      -1
    else if rides[0].id == id then
      0
    else
      var k := FindIndex(rides[1..], id);
      if k == -1 then -1 else k + 1
  }

  // ---------------------------------------------------------------- operations

  /** `fetchRides`: a copy of the list, which for an immutable value is the list itself. */
  function FetchRides(rides: seq<Ride>): (r: seq<Ride>)
    ensures |r| == |rides| && forall i :: 0 <= i < |r| ==> r[i] == rides[i]
  {
    rides
  }

  datatype Created = Created(ride: Ride, rides: seq<Ride>)

  /** `createRide`: the input plus a new identifier, no seats filled, no
      passengers, placed in front of the unchanged old list. */
  function CreateRide(rides: seq<Ride>, input: RideInput, id: string): (c: Created)
    ensures c.ride.id == id && c.ride.info == input
    ensures c.ride.seatsFilled == 0 && c.ride.passengerEmails == []
    ensures |c.rides| == |rides| + 1 && c.rides[0] == c.ride && c.rides[1..] == rides
  {
    var ride := Ride(id, input, 0, []);
    Created(ride, [ride] + rides)
  }

  datatype Joined = Joined(ride: Ride, rides: seq<Ride>)

  /** `joinRide`. */
  function JoinRide(rides: seq<Ride>, id: string, email: string): (r: Result<Joined, StoreError>)
    ensures r == Err(RideNotFound) <==> Absent(rides, id)
    ensures !Absent(rides, id) ==>
      var i := FindIndex(rides, id);
      var old_ := rides[i];
      if email in old_.passengerEmails then
        r == Ok(Joined(old_, rides))
      else if old_.seatsFilled >= old_.info.seatsTotal then
        r == Err(RideFull)
      else
        && r.Ok?
        && r.value.ride.id == id
        && r.value.ride.info == old_.info
        && r.value.ride.seatsFilled == old_.seatsFilled + 1
        && r.value.ride.passengerEmails == old_.passengerEmails + [email]
        && |r.value.rides| == |rides|
        && r.value.rides[i] == r.value.ride
        && (forall j :: 0 <= j < |rides| && j != i ==> r.value.rides[j] == rides[j])
  {
    var i := FindIndex(rides, id);
    if i == -1 then
      Err(RideNotFound)
    else
      var ride := rides[i];
      if email in ride.passengerEmails then
        Ok(Joined(ride, rides))
      else if ride.seatsFilled >= ride.info.seatsTotal then
        Err(RideFull)
      else
        var updated := ride.(seatsFilled := ride.seatsFilled + 1,
                             passengerEmails := ride.passengerEmails + [email]);
        Ok(Joined(updated, rides[i := updated]))
  }

  /** The ride `deleteRide` looks at: the first with that identifier. */
  function Lookup(rides: seq<Ride>, id: string): Option<Ride> {
    var i := FindIndex(rides, id);
    if i == -1 then None else Some(rides[i])
  }

  /** The `filter` predicate of `deleteRide`. */
  function OtherThan(id: string): Ride -> bool {
    (x: Ride) => x.id != id
  }

  /** `deleteRide`. */
  function DeleteRide(rides: seq<Ride>, id: string, email: string): (r: Result<seq<Ride>, StoreError>)
    ensures Absent(rides, id) ==> r == Ok(rides)
    ensures r.Err? <==> !Absent(rides, id) && rides[FindIndex(rides, id)].info.createdByEmail != email
    ensures r.Err? ==> r.error == NotCreator
    ensures r.Ok? ==> forall x :: multiset(r.value)[x] == if x.id != id then multiset(rides)[x] else 0
    ensures r.Ok? ==> Subsequence(r.value, rides)
  {
    match Lookup(rides, id)
    case None =>
      FilterAll(rides, OtherThan(id));
      Ok(rides)
    case Some(ride) =>
      if ride.info.createdByEmail != email then Err(NotCreator)
      else Ok(Filter(rides, OtherThan(id)))
  }

  // ---------------------------------------------------------------- properties

  /** Creating a ride with a new identifier and a non-negative seat count keeps the store coherent. */
  lemma CreatePreservesInvariant(rides: seq<Ride>, input: RideInput, id: string)
    requires StoreInvariant(rides)
    requires input.seatsTotal >= 0
    requires Absent(rides, id)
    ensures StoreInvariant(CreateRide(rides, input, id).rides)
  {
    var after := CreateRide(rides, input, id).rides;
    forall i, j | 0 <= i < j < |after| ensures after[i].id != after[j].id {
      assert after[j] == rides[j - 1];
      if i > 0 { assert after[i] == rides[i - 1]; }
    }
    forall i | 0 <= i < |after| ensures SeatsConsistent(after[i]) {
      if i > 0 { assert after[i] == rides[i - 1]; }
    }
  }

  /** A successful join keeps the store coherent: the seat count and the
      passenger list grow together, without a duplicate, within capacity. */
  lemma JoinPreservesInvariant(rides: seq<Ride>, id: string, email: string)
    requires StoreInvariant(rides)
    requires JoinRide(rides, id, email).Ok?
    ensures StoreInvariant(JoinRide(rides, id, email).value.rides)
    ensures SeatsConsistent(JoinRide(rides, id, email).value.ride)
  {
    var i := FindIndex(rides, id);
    var old_ := rides[i];
    var after := JoinRide(rides, id, email).value.rides;
    if email !in old_.passengerEmails {
      var ps := old_.passengerEmails + [email];
      assert NoDuplicates(ps) by {
        forall a, b | 0 <= a < b < |ps| ensures ps[a] != ps[b] {
          if b == |ps| - 1 { assert ps[a] in old_.passengerEmails; }
        }
      }
      assert SeatsConsistent(after[i]);
      forall a, b | 0 <= a < b < |after| ensures after[a].id != after[b].id {
        assert after[a].id == rides[a].id && after[b].id == rides[b].id;
      }
    }
  }

  /** Deleting keeps the store coherent. */
  lemma DeletePreservesInvariant(rides: seq<Ride>, id: string, email: string)
    requires StoreInvariant(rides)
    requires DeleteRide(rides, id, email).Ok?
    ensures StoreInvariant(DeleteRide(rides, id, email).value)
  {
    var after := DeleteRide(rides, id, email).value;
    SubsequenceKeepsInvariant(after, rides);
  }

  lemma {:induction false} SubsequenceKeepsInvariant(a: seq<Ride>, b: seq<Ride>)
    requires Subsequence(a, b) && StoreInvariant(b)
    ensures StoreInvariant(a)
    decreases |b|
  {
    if |a| > 0 {
      assert StoreInvariant(b[1..]) by {
        forall i, j | 0 <= i < j < |b| - 1 ensures b[1..][i].id != b[1..][j].id {
          assert b[1..][i] == b[i + 1] && b[1..][j] == b[j + 1];
        }
      }
      if a[0] == b[0] && Subsequence(a[1..], b[1..]) {
        SubsequenceKeepsInvariant(a[1..], b[1..]);
        SubsequenceMembers(a[1..], b[1..]);
        forall j | 0 < j < |a| ensures a[0].id != a[j].id {
          assert a[1..][j - 1] in b[1..];
          var k :| 0 <= k < |b[1..]| && b[1..][k] == a[j];
          assert b[k + 1] == a[j];
        }
        forall i | 0 <= i < |a| ensures SeatsConsistent(a[i]) {
          if i > 0 { assert a[i] == a[1..][i - 1]; }
        }
      } else {
        SubsequenceKeepsInvariant(a, b[1..]);
      }
    }
  }

  lemma {:induction false} SubsequenceMembers<T>(a: seq<T>, b: seq<T>)
    requires Subsequence(a, b)
    ensures forall x :: x in a ==> x in b
    decreases |b|
  {
    if |a| > 0 {
      if a[0] == b[0] && Subsequence(a[1..], b[1..]) {
        SubsequenceMembers(a[1..], b[1..]);
        assert forall x :: x in a ==> x == a[0] || x in a[1..];
      } else {
        SubsequenceMembers(a, b[1..]);
      }
    }
  }

  /** Joining twice with the same address is the same as joining once: the
      second call returns the stored ride and changes nothing. */
  lemma JoinIdempotent(rides: seq<Ride>, id: string, email: string)
    requires JoinRide(rides, id, email).Ok?
    ensures var j := JoinRide(rides, id, email).value;
            JoinRide(j.rides, id, email) == Ok(Joined(j.ride, j.rides))
  {
    var i := FindIndex(rides, id);
    var j := JoinRide(rides, id, email).value;
    assert j.rides[..i] == rides[..i];
    FirstIndexIsDetermined(j.rides, id, i);
  }

  /** The position of the first ride with `id` is fixed by the rides before it and
      the ride at it. */
  lemma {:induction false} FirstIndexIsDetermined(rides: seq<Ride>, id: string, i: int)
    requires 0 <= i < |rides| && rides[i].id == id && Absent(rides[..i], id)
    ensures FindIndex(rides, id) == i
    decreases i
  {
    if i > 0 {
      assert rides[..i][0] == rides[0];
      assert rides[1..][..i - 1] == rides[..i][1..];
      FirstIndexIsDetermined(rides[1..], id, i - 1);
    }
  }

  /** A join that fails changes nothing observable: a full ride stays full for
      every newcomer, whoever asks. */
  lemma FullRideRejectsNewcomers(rides: seq<Ride>, id: string, email: string)
    requires !Absent(rides, id)
    requires var r := rides[FindIndex(rides, id)]; r.seatsFilled >= r.info.seatsTotal && email !in r.passengerEmails
    ensures JoinRide(rides, id, email) == Err(RideFull)
  {
  }

  /** Nothing in `joinRide` looks at the creator: the creator can take a seat in
      their own ride like anyone else. */
  lemma CreatorMayJoin(rides: seq<Ride>, id: string)
    requires !Absent(rides, id)
    requires var r := rides[FindIndex(rides, id)];
             r.seatsFilled < r.info.seatsTotal && r.info.createdByEmail !in r.passengerEmails
    ensures var r := rides[FindIndex(rides, id)];
            var j := JoinRide(rides, id, r.info.createdByEmail);
            j.Ok? && r.info.createdByEmail in j.value.ride.passengerEmails
  {
  }

  /** Only the creator can delete: any other caller gets `NotCreator` for a listed ride. */
  lemma OnlyCreatorDeletes(rides: seq<Ride>, id: string, email: string)
    requires StoreInvariant(rides)
    requires exists j :: 0 <= j < |rides| && rides[j].id == id && rides[j].info.createdByEmail != email
    ensures DeleteRide(rides, id, email) == Err(NotCreator)
  {
    var j :| 0 <= j < |rides| && rides[j].id == id && rides[j].info.createdByEmail != email;
    var i := FindIndex(rides, id);
    assert i == j;
  }

  /** Deleting removes every ride with that identifier and keeps the others in their order. */
  lemma DeleteRemovesExactly(rides: seq<Ride>, id: string, email: string, x: Ride)
    requires DeleteRide(rides, id, email).Ok?
    ensures x in DeleteRide(rides, id, email).value <==> x in rides && x.id != id
  {
    var after := DeleteRide(rides, id, email).value;
    assert x in after <==> multiset(after)[x] > 0;
    assert x in rides <==> multiset(rides)[x] > 0;
  }

  /** No block name contains '-', which the hierarchical location encoding relies on. */
  lemma BlockNamesHaveNoDash()
    ensures forall b :: b in MhBlocks ==> '-' !in b
    ensures forall b :: b in LhBlocks ==> '-' !in b
  {
  }
}
