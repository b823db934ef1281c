/** The browse view of src/app/page.tsx: `toTime`, the `filteredRides`
    pipeline (upcoming, destination, gender, then sort by departure) and the
    `joinedRides` list.

    `new Date(s).getTime()` is the parameter `parse`; `None` stands for NaN.
    `Date.now()` is the parameter `now`. */
module Browse {
  import opened Options
  import opened Strings
  import opened Seqs
  import opened Types

  /** A departure time in milliseconds, or +Infinity. */
  datatype Time = Finite(ms: int) | Infinite

  function TimeOf(parsed: Option<int>): Time {
    match parsed
    case Some(ms) => Finite(ms)
    case None => Infinite
  }

  /** The timestamp string `toTime` hands to the date parser, if any. */
  function DateString(r: Ride): Option<string> {
    var legacy := r.info.legacy;
    if r.info.datetime != "" then Some(r.info.datetime)
    else if Truthy(legacy.travelDate) && Truthy(legacy.travelTime) then
      Some(legacy.travelDate.value + "T" + legacy.travelTime.value)
    else None
  }

  /** `toTime`: `datetime` when it is set, else `travel_date + 'T' + travel_time`
      when both are set, else +Infinity; an unparseable string is +Infinity too. */
  function ToTime(r: Ride, parse: string -> Option<int>): (t: Time)
    ensures r.info.datetime != "" ==> t == TimeOf(parse(r.info.datetime))
    ensures r.info.datetime == "" && Truthy(r.info.legacy.travelDate) && Truthy(r.info.legacy.travelTime)
            ==> t == TimeOf(parse(r.info.legacy.travelDate.value + "T" + r.info.legacy.travelTime.value))
    ensures r.info.datetime == "" && !(Truthy(r.info.legacy.travelDate) && Truthy(r.info.legacy.travelTime))
            ==> t == Infinite
  {
    match DateString(r)
    case None => Infinite
    case Some(s) => TimeOf(parse(s))
  }

  /** The legacy date columns are consulted only when `datetime` is empty. */
  lemma ToTimeIgnoresLegacyWhenDatetimeSet(r: Ride, legacy: Legacy, parse: string -> Option<int>)
    requires r.info.datetime != ""
    ensures ToTime(r.(info := r.info.(legacy := legacy)), parse) == ToTime(r, parse)
  {
  }

  // ---------------------------------------------------------------- the three filters

  /** First filter: a finite departure strictly after `now`. */
  predicate Upcoming(r: Ride, now: int, parse: string -> Option<int>) {
    var t := ToTime(r, parse);
    t.Finite? && t.ms > now
  }

  /** `ride.toValue || ride.to || ''`. */
  function Destination(r: Ride): string {
    OrElse(r.info.toValue, r.info.legacy.to)
  }

  /** Second filter: 'All' passes, 'MH'/'LH' compare the destination type,
      anything else must occur in the destination text. */
  predicate DestinationMatches(r: Ride, filter: string) {
    if filter == "All" then true
    else if filter == MH || filter == LH then r.info.toType == filter
    else Includes(Destination(r), filter)
  }

  /** `ride.genderPref || ride.preferred_gender || 'Any'`. */
  function GenderOf(r: Ride): string {
    var g := OrElse(r.info.genderPref, r.info.legacy.preferredGender);
    if g == "" then "Any" else g
  }

  /** Third filter: 'All' passes, otherwise the preference must equal the filter. */
  predicate GenderMatches(r: Ride, filter: string) {
    filter == "All" || GenderOf(r) == filter
  }

  /** A ride is shown when it passes all three filters. */
  predicate Shown(r: Ride, dest: string, gender: string, now: int, parse: string -> Option<int>) {
    Upcoming(r, now, parse) && DestinationMatches(r, dest) && GenderMatches(r, gender)
  }

  /** Sort key. Only upcoming rides are ever sorted, and their times are finite,
      so the value given to +Infinity is never compared. */
  function TimeKey(parse: string -> Option<int>): Ride -> int {
    (r: Ride) => match ToTime(r, parse) case Finite(ms) => ms case Infinite => 0
  }

  function UpcomingFilter(now: int, parse: string -> Option<int>): Ride -> bool {
    (r: Ride) => Upcoming(r, now, parse)
  }

  function DestinationFilter(dest: string): Ride -> bool {
    (r: Ride) => DestinationMatches(r, dest)
  }

  function GenderFilter(gender: string): Ride -> bool {
    (r: Ride) => GenderMatches(r, gender)
  }

  /** The three filters of `filteredRides`, before sorting. */
  function Matching(rides: seq<Ride>, dest: string, gender: string, now: int, parse: string -> Option<int>): (m: seq<Ride>)
    ensures forall x :: multiset(m)[x] == if Shown(x, dest, gender, now, parse) then multiset(rides)[x] else 0
    ensures Subsequence(m, rides)
  {
    var a := Filter(rides, UpcomingFilter(now, parse));
    var b := Filter(a, DestinationFilter(dest));
    var c := Filter(b, GenderFilter(gender));
    SubsequenceTransitive(c, b, a);
    SubsequenceTransitive(c, a, rides);
    c
  }

  /** `filteredRides`. */
  function FilteredRides(rides: seq<Ride>, dest: string, gender: string, now: int, parse: string -> Option<int>)
    : (view: seq<Ride>)
    ensures forall x :: multiset(view)[x] == if Shown(x, dest, gender, now, parse) then multiset(rides)[x] else 0
    ensures forall i :: 0 <= i < |view| ==> ToTime(view[i], parse).Finite? && ToTime(view[i], parse).ms > now
    ensures forall i, j :: 0 <= i < j < |view| ==> ToTime(view[i], parse).ms <= ToTime(view[j], parse).ms
  {
    if |rides| == 0 then
      []
    else
      var m := Matching(rides, dest, gender, now, parse);
      var view := SortBy(m, TimeKey(parse));
      forall i | 0 <= i < |view| ensures Upcoming(view[i], now, parse) {
        assert multiset(view)[view[i]] > 0;
      }
      view
  }

  lemma {:induction false} SubsequenceTransitive<T>(a: seq<T>, b: seq<T>, c: seq<T>)
    requires Subsequence(a, b) && Subsequence(b, c)
    ensures Subsequence(a, c)
    decreases |c|
  {
    if |a| > 0 {
      if |b| > 0 && b[0] == c[0] && Subsequence(b[1..], c[1..]) {
        if a[0] == b[0] && Subsequence(a[1..], b[1..]) {
          SubsequenceTransitive(a[1..], b[1..], c[1..]);
        } else {
          SubsequenceTransitive(a, b[1..], c[1..]);
        }
      } else {
        SubsequenceTransitive(a, b, c[1..]);
      }
    }
  }

  /** Rides departing at the same instant appear in the view in their order in `rides`. */
  lemma BrowseKeepsOrderOfTies(rides: seq<Ride>, dest: string, gender: string, now: int,
                               parse: string -> Option<int>, ms: int)
    ensures Subsequence(Filter(FilteredRides(rides, dest, gender, now, parse), KeyIs(TimeKey(parse), ms)), rides)
  {
    if |rides| > 0 {
      var m := Matching(rides, dest, gender, now, parse);
      SortByStable(m, TimeKey(parse), ms);
      var ties := Filter(m, KeyIs(TimeKey(parse), ms));
      SubsequenceTransitive(ties, m, rides);
    }
  }

  /** Scenario: of a ride an hour in the past and one an hour ahead, only the later one is listed. */
  lemma PastRideIsDropped(past: Ride, future: Ride, now: int, parse: string -> Option<int>)
    requires past.info.datetime != "" && future.info.datetime != ""
    requires parse(past.info.datetime) == Some(now - 3600000)
    requires parse(future.info.datetime) == Some(now + 3600000)
    ensures FilteredRides([past, future], "All", "All", now, parse) == [future]
  {
    var rides := [past, future];
    var view := FilteredRides(rides, "All", "All", now, parse);
    assert Shown(future, "All", "All", now, parse);
    assert !Shown(past, "All", "All", now, parse);
    assert past != future;
    assert multiset(rides)[future] == 1;
    assert multiset(view)[future] == 1;
    assert forall x :: x != future ==> multiset(view)[x] == 0;
    assert multiset(view) == multiset{future};
    assert |view| == |multiset(view)| == 1;
    assert view[0] in multiset(view);
  }

  /** A ride departing exactly at `now` is not upcoming. */
  lemma DepartingNowIsDropped(r: Ride, now: int, parse: string -> Option<int>)
    requires ToTime(r, parse) == Finite(now)
    ensures forall dest, gender :: r !in FilteredRides([r], dest, gender, now, parse)
  {
    forall dest, gender ensures r !in FilteredRides([r], dest, gender, now, parse) {
      var view := FilteredRides([r], dest, gender, now, parse);
      assert multiset(view)[r] == 0;
    }
  }

  /** Destination 'All' passes every ride; 'MH' and 'LH' keep exactly the rides going to that hostel type. */
  lemma DestinationFilterCases(r: Ride)
    ensures DestinationMatches(r, "All")
    ensures DestinationMatches(r, MH) <==> r.info.toType == MH
    ensures DestinationMatches(r, LH) <==> r.info.toType == LH
  {
  }

  /** Any other destination filter is a substring test on `toValue`, then `to`, then ''. */
  lemma DestinationFilterBySubstring(r: Ride, filter: string)
    requires filter != "All" && filter != MH && filter != LH
    ensures DestinationMatches(r, filter) <==> exists i :: OccursAt(Destination(r), filter, i)
    ensures Destination(r) == if r.info.toValue != "" then r.info.toValue
                              else if Truthy(r.info.legacy.to) then r.info.legacy.to.value
                              else ""
  {
  }

  /** A ride marked 'Any' (or with no preference at all) is hidden by the 'Male' and 'Female' filters. */
  lemma AnyIsNotMaleOrFemale(r: Ride)
    requires GenderOf(r) == "Any"
    ensures !GenderMatches(r, "Male") && !GenderMatches(r, "Female")
    ensures GenderMatches(r, "All")
  {
  }

  // ---------------------------------------------------------------- joined rides

  function PassengerFilter(email: Option<string>): Ride -> bool {
    (r: Ride) => email.GetOr("") in r.passengerEmails
  }

  /** `joinedRides`: the rides whose passenger list holds the current address
      (or '' when nobody is logged in), in list order. */
  function JoinedRides(rides: seq<Ride>, email: Option<string>): (joined: seq<Ride>)
    ensures forall x :: multiset(joined)[x] == if email.GetOr("") in x.passengerEmails then multiset(rides)[x] else 0
    ensures Subsequence(joined, rides)
  {
    Filter(rides, PassengerFilter(email))
  }
}
