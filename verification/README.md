# Ride board model

A Dafny model of the domain logic of a campus ride-sharing board, a Next.js app.
Students sign in with their university address, post shared-cab rides, browse
upcoming rides, join them and delete their own. The model covers:

- the in-memory ride store: seed rides, create, join, delete and fetch
  (`RidesApi`, over the record of `Types`);
- the browse view: departure-time resolution, the upcoming, destination and
  gender filters, the sort by departure, and the list of joined rides (`Browse`);
- the page's join, delete and create handlers, with their guards and local list
  updates (`PageActions`);
- the two-level location picker and the string it reports (`LocationCodec`);
- the inline posting form: decoding the picker string, validation, the payload
  and the phone input (`PostRideForm`, with the checks it shares with the dialog
  in `FormRules`);
- the posting dialog: option lists, reconciliation on type change, the inserted
  row and the reset after a post (`PostRideModal`);
- the sign-in box: the student-address recogniser and the submit handler (`Login`);
- the ride card: the creator, passenger and full tests, the join control, the
  delete button and the route heading (`RideCard`).

`Options`, `Strings` and `Seqs` hold the JavaScript built-ins the code relies on:
- `trim`, ASCII `toLowerCase`, `includes`, `startsWith`, `replace`, `split`;
- a stable sort;
- `filter`, specified by multiset and order.

Everything is functional. A mutable list or a piece of React state becomes a
value passed in and returned. A thrown `Error` becomes an `Err` or an unchanged
state. These things are parameters:
- the clock (`now`);
- date parsing (`parse`) and `toISOString` (`toIso`);
- `crypto.randomUUID()`;
- the outcome of a remote call.

Three behaviours of the code that are easy to misread:
- The `MH`/`LH` destination filter compares the ride's destination type,
  `ride.toType` (src/app/page.tsx:112-113), not its origin type.
  `Browse.DestinationMatches` does the same.
- The ride store has create, join, delete and fetch, and no operation for
  leaving a ride (src/lib/ridesApi.ts:67-112). The model has none either.
- Sign-in lower-cases the address only to test it against the pattern. It logs
  in with the trimmed address as typed (src/components/LoginBox.tsx:34), as
  `Login.LoginKeepsCase` and `Login.CapitalisedIsAnotherSpelling` show.

## Model

| member | source | states |
|---|---|---|
| RidesApi.SeedRidesConsistent | src/lib/ridesApi.ts:33-64 | the two seed rides have coherent seats and passengers and distinct ids once their random ids differ |
| RidesApi.FindIndex | src/lib/ridesApi.ts:83 | -1 exactly when no ride has the id, otherwise the position of the first ride that has it |
| RidesApi.FetchRides | src/lib/ridesApi.ts:67-69 | a copy: the same rides in the same order |
| RidesApi.CreateRide | src/lib/ridesApi.ts:71-80 | the created ride is the input plus the given id, with no seat filled and no passenger; it is prepended and the old list follows unchanged |
| RidesApi.JoinRide | src/lib/ridesApi.ts:82-101 | 'Ride not found' exactly for an unknown id; an existing passenger gets the stored ride and an unchanged list; a full ride refuses a newcomer; otherwise one seat more, the address appended last, and only that entry replaced |
| RidesApi.DeleteRide | src/lib/ridesApi.ts:103-112 | an unknown id is a silent no-op; the only error is 'Only the creator can delete this ride', raised exactly when the first ride with the id has another creator; on success exactly the rides with other ids remain, in order |
| RidesApi.CreatePreservesInvariant | src/lib/ridesApi.ts:71-80 | creating with a fresh id keeps seat counts within capacity, equal to the passenger count, passengers unique and ids unique |
| RidesApi.JoinPreservesInvariant | src/lib/ridesApi.ts:94-100 | a successful join keeps the same store invariant, and the joined ride is itself coherent |
| RidesApi.DeletePreservesInvariant | src/lib/ridesApi.ts:111 | a successful delete keeps the store invariant |
| RidesApi.SubsequenceKeepsInvariant | src/lib/ridesApi.ts:111 | any order-preserving selection of a coherent store is coherent |
| RidesApi.JoinIdempotent | src/lib/ridesApi.ts:88-90 | joining again with the same address returns the stored ride and changes nothing |
| RidesApi.FullRideRejectsNewcomers | src/lib/ridesApi.ts:91-93 | on a full ride every address not yet aboard is refused with 'Ride is full' |
| RidesApi.CreatorMayJoin | src/lib/ridesApi.ts:82-101 | the store never checks the creator, who can take a seat in their own ride |
| RidesApi.OnlyCreatorDeletes | src/lib/ridesApi.ts:108-110 | in a store with unique ids, any caller other than the creator of a listed ride is refused |
| RidesApi.DeleteRemovesExactly | src/lib/ridesApi.ts:111 | after a delete a ride is present iff it was present before and has another id |
| RidesApi.BlockNamesHaveNoDash | src/lib/ridesApi.ts:3-29 | no men's or ladies' hostel block name contains '-' |
| Strings.Trim | src/components/LoginBox.tsx:15 | the result is an infix of the input with only whitespace before and after it, that neither starts nor ends with whitespace, and is empty exactly for all-whitespace input |
| Strings.Lower | src/components/LoginBox.tsx:15 | same length, each character lower-cased, ASCII capitals only |
| Strings.TrimIgnoresPadding | src/components/LoginBox.tsx:15 | whitespace added on either side does not change the trimmed result |
| Strings.TrimLowerCommute | src/components/LoginBox.tsx:15 | trimming and lower-casing can be done in either order |
| Strings.Includes | src/app/page.tsx:117 | true exactly when the pattern occurs at some offset |
| Strings.ReplaceFirst | src/components/PostRideForm.tsx:50 | a leading occurrence is replaced and the rest kept; a string without the pattern is returned unchanged |
| Strings.Split | src/components/PostRideForm.tsx:46 | at least one piece, no piece contains the separator, and joining the pieces with it gives back the input |
| Strings.SplitUnique | src/components/PostRideForm.tsx:46 | splitting a join of separator-free pieces gives back exactly those pieces |
| Seqs.Filter | src/app/page.tsx:104-123 | keeps every element satisfying the predicate as often as it occurs, drops the others, and keeps the order |
| Seqs.SortBy | src/app/page.tsx:124 | the result is sorted by the key and is a permutation of the input |
| Seqs.SortByStable | src/app/page.tsx:124 | elements with equal keys keep their relative order |
| Browse.ToTime | src/app/page.tsx:88-97 | `datetime` when set, else `travel_date` + 'T' + `travel_time` when both are set, else +Infinity; an unparseable string is +Infinity |
| Browse.ToTimeIgnoresLegacyWhenDatetimeSet | src/app/page.tsx:89-93 | the compatibility date columns matter only when `datetime` is empty |
| Browse.Matching | src/app/page.tsx:104-123 | exactly the rides passing the upcoming, destination and gender filters, with multiplicity, in list order |
| Browse.FilteredRides | src/app/page.tsx:99-125 | a permutation of the rides passing all three filters; each departs at a finite time strictly after now; departure times never decrease |
| Browse.BrowseKeepsOrderOfTies | src/app/page.tsx:124 | rides departing at the same instant keep their list order |
| Browse.PastRideIsDropped | src/app/page.tsx:105-109 | of a ride an hour ago and one an hour ahead, only the later one is listed |
| Browse.DepartingNowIsDropped | src/app/page.tsx:105-109 | a ride departing exactly now is listed under no filter |
| Browse.DestinationFilterCases | src/app/page.tsx:110-114 | 'All' passes every ride; 'MH' and 'LH' keep exactly the rides whose destination type is that value |
| Browse.DestinationFilterBySubstring | src/app/page.tsx:116-117 | any other filter keeps a ride iff it occurs in `toValue`, falling back to `to`, then '' |
| Browse.AnyIsNotMaleOrFemale | src/app/page.tsx:119-123 | a ride marked 'Any', or with no preference, is hidden by 'Male' and 'Female' and shown by 'All' |
| Browse.JoinedRides | src/app/page.tsx:129-132 | exactly the rides whose passengers include the current address ('' when logged out), in order |
| PageActions.MayJoin | src/app/page.tsx:156-169 | the page's own checks before calling the store: logged in, the ride listed, the address not yet a passenger and a seat free |
| PageActions.ReplaceById | src/app/page.tsx:173 | each entry with the id becomes the updated ride and every other entry is kept |
| PageActions.HandleJoinRide | src/app/page.tsx:155-179 | without a login nothing happens; an unlisted ride, a ride already joined and a full ride set 'Ride not found', 'You already joined this ride' and 'Ride is full' and change nothing else; otherwise the store's join result replaces the ride locally with 'Joined ride', or its error becomes the status and nothing else changes |
| PageActions.HandleDeleteRide | src/app/page.tsx:181-192 | without a login nothing happens; a store refusal becomes the status; on success the id disappears from both local lists, which otherwise keep their rides in order |
| PageActions.HandleCreateRide | src/app/page.tsx:134-153 | without a login nothing happens; otherwise the new ride heads the list, the own-rides list and the store; it carries every payload field unchanged, the logged-in address as creator, the user id as `created_by`, the new id, no seat filled and no passenger, and the status is 'Ride posted!' |
| PageActions.PageJoinKeepsCoherence | src/app/page.tsx:155-179 | joining from the page keeps every ride in the page and the store coherent |
| PageActions.PageDeleteRemovesEverywhere | src/app/page.tsx:181-192 | after a successful delete no ride with that id is left in either list or the store |
| PageActions.PageCreateKeepsCoherence | src/app/page.tsx:134-153 | posting a ride with at least one seat and a fresh id keeps the page and the store coherent |
| LocationCodec.ChooseKind | src/components/HierarchicalDropdown.tsx:25-30 | choosing a kind clears the sub-selection; Katpadi reports 'Katpadi Jn', every other kind reports '' |
| LocationCodec.ChooseSub | src/components/HierarchicalDropdown.tsx:32-36 | a sub-option reports 'Airport-' + city or 'Hostel-' + MH/LH + '-' + block, and nothing while no kind or Katpadi is chosen |
| LocationCodec.ChooseHall | src/components/HierarchicalDropdown.tsx:68-76 | switching between MH and LH reports nothing and keeps the chosen block |
| PostRideForm.ParseFrom | src/components/PostRideForm.tsx:42-51 | 'Airport-' values lose the prefix, other non-hostel values stay as they are, both as CITY; a 'Hostel-' value yields the second '-' piece as type and the third, when present, as block, both dash-free |
| PostRideForm.HostelRoundTrip | src/components/PostRideForm.tsx:45-48 | 'Hostel-' + type + '-' + block decodes to that type and block whenever neither contains '-' |
| PostRideForm.AirportRoundTrip | src/components/PostRideForm.tsx:49-51 | 'Airport-' + city decodes to CITY and that city, for every city |
| PostRideForm.PickedLocationRoundTrip | src/components/HierarchicalDropdown.tsx:25-36 | every value the picker reports for a listed airport, hostel block or Katpadi decodes to the selection it stands for |
| PostRideForm.Submit | src/components/PostRideForm.tsx:29-82 | disabled does nothing; missing fields and a phone that is not ten digits are refused with their messages; an invalid date sends nothing and leaves the form as it was; otherwise the decoded origin, a CITY destination with the raw picker value, the converted date, and country code + phone are sent; success resets the form, failure keeps it with an error |
| PostRideForm.PickedHostelIsPosted | src/components/PostRideForm.tsx:45-63 | picking a hostel block as the origin and submitting posts that hostel type and block |
| PostRideForm.AirportPlaceholderPostsEmptyOrigin | src/components/HierarchicalDropdown.tsx:52-63 | the airport placeholder reports 'Airport-', which passes validation and posts an empty origin name |
| PostRideForm.PhoneInput | src/components/PostRideForm.tsx:192-195 | when the typed text holds at most ten digits the field becomes exactly those digits, in order and with their multiplicities; when it holds more, the field is unchanged |
| PostRideForm.PhoneStaysShortDigits | src/components/PostRideForm.tsx:192-195 | from the empty field, any series of edits leaves at most ten digits, so the ten-digit check is a length check |
| PostRideModal.Reconcile | src/components/PostRideModal.tsx:37-49 | the selection is kept if listed; otherwise it becomes the first option, or '' when the list is empty |
| PostRideModal.ReconcileIdempotent | src/components/PostRideModal.tsx:37-49 | reconciling twice changes nothing more |
| PostRideModal.ReconcileFrom | src/components/PostRideModal.tsx:37-42 | the effect leaves the origin type alone; the origin is kept when its type lists it, otherwise it becomes the type's first option, or '' for a type without options; no other field moves |
| PostRideModal.ReconcileTo | src/components/PostRideModal.tsx:44-49 | the same for the destination |
| PostRideModal.ChangeFromType | src/components/PostRideModal.tsx:159 | clicking the current origin type changes nothing; clicking another type selects it, keeps the origin when that type lists it and otherwise sets the type's first option; no other field moves |
| PostRideModal.ChangeToType | src/components/PostRideModal.tsx:229 | the same for the destination |
| PostRideModal.Mounted | src/components/PostRideModal.tsx:18-49 | once mounted, the dialog has the defaults with the first men's hostel block as origin |
| PostRideModal.SharedOptionSurvivesTypeSwitch | src/components/PostRideModal.tsx:37-42 | switching away and back keeps an origin listed under both types |
| PostRideModal.RowOf | src/components/PostRideModal.tsx:59-69 | the row copies the fields one to one, with `hostel_block` set to the origin exactly when the origin type is MH |
| PostRideModal.RowIsBrowsable | src/components/PostRideModal.tsx:59-69 | a posted row read back through its compatibility columns shows its date and time, destination and gender preference in the browse view |
| PostRideModal.Cleared | src/components/PostRideModal.tsx:89-101 | every field returns to its default with the success message; the origin is the first MH block if the type changed back to MH, and '' if it was MH already |
| PostRideModal.ReclickAfterPostKeepsOriginEmpty | src/components/PostRideModal.tsx:37-42 | after a post made from an MH origin, clicking MH again leaves the origin empty, and the next submit sends nothing |
| PostRideModal.Submit | src/components/PostRideModal.tsx:51-108 | disabled does nothing; missing fields are refused with no insert; otherwise the row is inserted; only success closes and resets; an error message, or the fallback, is shown otherwise |
| PostRideModal.AnyContactIsSent | src/components/PostRideModal.tsx:54-57 | the dialog does not check the contact's digits: a one-character contact is sent |
| Login.MatchesIffShaped | src/components/LoginBox.tsx:13 | the pattern accepts exactly letters '.' letters, four digits, '@vitstudent.ac.in' |
| Login.ShapedMatches | src/components/LoginBox.tsx:13 | every string of that shape is accepted by the pattern |
| Login.IsVitEmailIgnoresPaddingAndCase | src/components/LoginBox.tsx:15 | surrounding whitespace and letter case do not change the verdict |
| Login.AcceptedAddressShape | src/components/LoginBox.tsx:13 | an accepted address ends in '@vitstudent.ac.in' after four digits preceded by a letter |
| Login.AcceptsStudentAddress | src/components/LoginBox.tsx:6-16 | 'a.b2022@vitstudent.ac.in' is accepted |
| Login.RejectsOtherDomain | src/components/LoginBox.tsx:6-16 | 'a.b2022@gmail.com' is rejected |
| Login.RejectsMissingDot | src/components/LoginBox.tsx:6-16 | the example 'ab2022@vitstudent.ac.in', without the '.' between the names, is rejected (the general statement is Login.DotBeforeDomain) |
| Login.RejectsEmpty | src/components/LoginBox.tsx:6-16 | the empty string is rejected |
| Login.Submit | src/components/LoginBox.tsx:23-36 | blank input asks for an address; a non-matching one gets the format error; both log nobody in; a match logs in with the trimmed address and clears the box |
| Login.LoginKeepsCase | src/components/LoginBox.tsx:33-35 | an accepted address and any trimmed spelling with the same normal form each log in as exactly what was typed |
| Login.CapitalisedIsAnotherSpelling | src/components/LoginBox.tsx:15 | every accepted address typed in lower case has a different spelling, with a capital first letter, of the same normal form |
| Login.DotBeforeDomain | src/components/LoginBox.tsx:13 | whatever the pattern accepts has a '.' before the domain |
| RideCard.IsCreator | src/components/RideCard.tsx:30 | the viewer's address equals the creator's; nobody logged in is never the creator |
| RideCard.IsPassenger | src/components/RideCard.tsx:31 | the viewer's address, or '' when logged out, is among the passengers |
| RideCard.IsFull | src/components/RideCard.tsx:32 | the filled seats reach the seat total |
| RideCard.DeleteVisible | src/components/RideCard.tsx:144-152 | the delete button shows exactly for the creator when the list supplies `onDelete` |
| RideCard.JoinButton | src/components/RideCard.tsx:44-81 | in priority order: logged out gives a disabled 'Login to join'; the creator gets no control; a full ride gives a disabled 'Full'; a passenger a disabled 'Joined'; anyone else an enabled 'Join Ride' |
| RideCard.JoinReachableExactly | src/components/RideCard.tsx:67-80 | `onJoin` is reachable iff logged in, not the creator, not full and not a passenger |
| RideCard.EnabledButtonPassesPageChecks | src/components/RideCard.tsx:30-32 | an enabled join button on a listed ride implies that every check the page makes before joining passes |
| RideCard.CreatorSeesNoJoinControl | src/components/RideCard.tsx:56 | the creator never gets a join control |
| RideCard.VisibleDeleteIsGranted | src/components/RideCard.tsx:144-152 | a visible delete button leads to a request the store grants |
| RideCard.HeadingAsWritten | src/components/RideCard.tsx:89 | as written, the destination label is right, but on routes to an airport city the origin label equals the destination label |
| RideCard.HeadingAsWrittenMislabelsOrigin | src/components/RideCard.tsx:89 | a ride from MH block J to Chennai is headed 'Chennai - Airport → Chennai - Airport' |
| RideCard.HeadingAsWrittenOriginDependsOnDestination | src/components/RideCard.tsx:89 | as written, two rides from the same place get different origin labels |
| RideCard.RouteHeading | src/components/RideCard.tsx:89 | the corrected heading labels the origin from the origin alone and keeps the destination label |
| RideCard.RouteHeadingOriginIgnoresDestination | src/components/RideCard.tsx:89 | with the correction, rides from the same place get the same origin label wherever they go |
| RideCard.HeadingsAgreeOffAirportRoutes | src/components/RideCard.tsx:89 | the two headings agree unless the destination is an airport city |
| RideCard.EndpointLabel | src/components/RideCard.tsx:89 | an airport city shows as '<city> - Airport', another city location as itself, a hostel as '<type> <block>' |

## Left out

- Supabase: loading rides and own rides (src/app/page.tsx:26-86), authentication, and the remote insert in the dialog. The insert's outcome is the parameter `result` of `PostRideModal.Submit`. The read-modify-write race between clients is not modelled.
- React rendering, CSS classes, the clipboard copy button, the seat progress bar, the price truncation `toString().slice(0, 5)`, and `formatDateTime` (Intl date formatting). These are presentation only.
- `AuthContext`, `localStorage`, `Header`, `RideFilters`, `MyRidesSection`, `PostRideButton`: these are context, not core logic. Logging in is the address `Login.Submit` hands over.
- The `value` prop of the location picker is never read by the component. The model's picker therefore has no input from the form, and a form reset does not clear it.
- Strings.Lower: lower-cases ASCII letters only, because the model has no Unicode case tables. `toLowerCase` also maps other letters, such as the Kelvin sign to 'k'.
- PostRideForm.Submit: a hostel value with no third '-' piece yields an `undefined` origin name in the source. The payload stores it as ''.
- PostRideForm.Submit: prices and seat counts are integers. `Number(e.target.value)` can also produce NaN or a fraction, and those are not modelled.
- Browse.ToTime: date parsing is the parameter `parse`. No date format is modelled.
- Browse.FilteredRides: the comparator `toTime(a) - toTime(b)` is modelled as a stable sort on the finite departure time. Only upcoming rides reach the sort, and their times are finite.
- RidesApi.FetchRides returns the list itself. Its copy only matters for aliasing, which immutable values do not have.
- RideCard.IsFull, PageActions.HandleJoinRide: rows loaded from the remote `rides` table (src/app/page.tsx:35-46) have no `seatsFilled` or `seatsTotal` columns. In JavaScript `undefined >= undefined` is false, so such a ride never shows 'Full' (src/components/RideCard.tsx:32) and the page never refuses it as full (src/app/page.tsx:166). The model's seat counts are always integers, so it covers only rides of the in-memory store.
- PageActions.HandleCreateRide: the normalisation chain `createdByEmail ?? createdbyemail ?? currentUserEmail` is the identity here, because the in-memory store always sets `createdByEmail`.
- The randomness of `crypto.randomUUID()` is not modelled. Ids are parameters, and lemmas that need a new id require it to be absent from the store.

## Findings

| source | as written | input that shows it | evidently intended | confidence | as-written member | corrected member |
|---|---|---|---|---|---|---|
| src/components/RideCard.tsx:89 | the origin half of the heading first tests whether the destination is an airport city, and if so prints the destination's label | a ride from MH block J to CITY 'Chennai' is headed 'Chennai - Airport → Chennai - Airport' | the origin label describes the origin ('MH J → Chennai - Airport'), as the origin's own airport test right after it suggests | not executed; medium: neither PostRideForm (its destination picker reports 'Airport-<city>') nor PostRideModal (its city list has no airport city) stores a bare airport city as `toValue`, so it shows only for rows written by other clients | RideCard.HeadingAsWritten (RideCard.HeadingAsWrittenMislabelsOrigin) | RideCard.RouteHeading (RideCard.RouteHeadingOriginIgnoresDestination) |
