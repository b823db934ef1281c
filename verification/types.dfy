/** The ride record of src/types.ts.

    The TypeScript type fixes `fromType`, `toType` and `genderPref` to small
    string unions, but every producer writes them through unchecked casts (or
    not at all, for rows of the remote table), so they are plain strings here.
    A required string column absent from a row is represented by "", which is
    as falsy as `undefined` for every test the code makes (`||`, `!x`).
    The optional compatibility columns are `Option`s. */
module Types {
  import opened Options

  const MH := "MH"
  const LH := "LH"
  const CITY := "CITY"

  /** Optional columns of the remote `rides` table, kept for compatibility. */
  datatype Legacy = Legacy(
    createdBy: Option<string>,
    createdAt: Option<string>,
    from: Option<string>,
    to: Option<string>,
    travelDate: Option<string>,
    travelTime: Option<string>,
    preferredGender: Option<string>,
    cabPrice: Option<int>,
    seats: Option<int>,
    contact: Option<string>,
    hostelBlock: Option<string>)

  const NoLegacy := Legacy(None, None, None, None, None, None, None, None, None, None, None)

  /** `RideInput`: every field of a ride except `id`, `seatsFilled` and `passengerEmails`. */
  datatype RideInput = RideInput(
    createdByEmail: string,
    fromType: string,
    fromValue: string,
    toType: string,
    toValue: string,
    datetime: string,
    totalPrice: int,
    seatsTotal: int,
    genderPref: string,
    phone: string,
    legacy: Legacy)

  /** `Ride`: the input fields plus the identifier and the seat bookkeeping. */
  datatype Ride = Ride(id: string, info: RideInput, seatsFilled: int, passengerEmails: seq<string>)

  /** `Omit<RideInput, 'createdByEmail'>` as the posting form builds it. */
  datatype PostPayload = PostPayload(
    fromType: string,
    fromValue: string,
    toType: string,
    toValue: string,
    datetime: string,
    totalPrice: int,
    seatsTotal: int,
    genderPref: string,
    phone: string)

  /** JavaScript truthiness of an optional string. */
  predicate Truthy(o: Option<string>) {
    o.Some? && o.value != ""
  }

  /** `a || b` for a possibly absent `b`, yielding "" when both are falsy. */
  function OrElse(a: string, b: Option<string>): string {
    if a != "" then a else if Truthy(b) then b.value else ""
  }
}
