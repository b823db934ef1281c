/** The checks and messages shared by the two ride-posting forms,
    src/components/PostRideForm.tsx and src/components/PostRideModal.tsx. */
module FormRules {
  const FillAllMessage := "Please fill all fields with valid values."
  const PostFailedMessage := "Could not post ride. Try again."

  /** The first check of both submit handlers: a required field is empty,
      the price is not positive or there is no seat. */
  predicate Incomplete(date: string, time: string, fromValue: string, toValue: string, phone: string,
                       totalPrice: int, seatsTotal: int) {
    date == "" || time == "" || fromValue == "" || toValue == "" || phone == "" || totalPrice <= 0 || seatsTotal < 1
  }
}

/** The inline posting form of src/components/PostRideForm.tsx: decoding the
    picker's string back into a location type and name, the submit handler and
    the phone-number input.

    `new Date(date + 'T' + time).toISOString()` is the parameter `toIso`;
    `None` stands for the RangeError it throws on an invalid date. Whether the
    awaited `onCreate` resolves or rejects is the parameter `created`. */
module PostRideForm {
  import opened Options
  import opened Strings
  import opened Seqs
  import opened Types
  import opened RidesApi
  import opened LocationCodec
  import opened FormRules

  const TenDigitsMessage := "Contact number must be exactly 10 digits."
  const FormPostedMessage := "Ride posted!"

  // ---------------------------------------------------------------- decoding the picker's value

  /** A location type and name; the name is absent when the split leaves no third piece. */
  datatype Decoded = Decoded(fromType: string, fromValue: Option<string>)

  /** The parsing step of `handleSubmit`: 'Hostel-<type>-<block>' is split on '-',
      'Airport-<city>' loses its prefix, anything else is a city location as it is. */
  function ParseFrom(v: string): (d: Decoded)
    ensures StartsWith(v, "Airport-") ==> d == Decoded(CITY, Some(v[8..]))
    ensures !StartsWith(v, "Hostel-") && !StartsWith(v, "Airport-") ==> d == Decoded(CITY, Some(v))
    ensures StartsWith(v, "Hostel-") ==> '-' !in d.fromType && (d.fromValue.Some? ==> '-' !in d.fromValue.value)
    ensures StartsWith(v, "Hostel-") ==>
              var parts := Split(v, '-');
              && |parts| >= 2 && d.fromType == parts[1]
              && d.fromValue == if |parts| > 2 then Some(parts[2]) else None
  {
    if StartsWith(v, "Hostel-") then
      HostelValueSplits(v);
      var parts := Split(v, '-');
      Decoded(parts[1], if |parts| > 2 then Some(parts[2]) else None)
    else if StartsWith(v, "Airport-") then
      assert "" + v[8..] == v[8..];
      Decoded(CITY, Some(ReplaceFirst(v, "Airport-", "")))
    else
      Decoded(CITY, Some(v))
  }

  /** A value starting with 'Hostel-' splits on '-' into 'Hostel' and at least one more piece. */
  lemma HostelValueSplits(v: string)
    requires StartsWith(v, "Hostel-")
    ensures |Split(v, '-')| >= 2 && Split(v, '-')[0] == "Hostel"
  {
    assert v == "Hostel" + ['-'] + v[7..] by { assert v[..7] == "Hostel-"; assert v == v[..7] + v[7..]; }
    SplitAfterPiece("Hostel", '-', v[7..]);
  }

  /** A hostel value decodes to its type and block whenever neither contains '-'. */
  lemma HostelRoundTrip(code: string, block: string)
    requires '-' !in code && '-' !in block
    ensures ParseFrom("Hostel-" + code + "-" + block) == Decoded(code, Some(block))
  {
    var tail := code + ['-'] + block;
    var v := "Hostel-" + code + "-" + block;
    assert v == "Hostel" + ['-'] + tail;
    assert StartsWith(v, "Hostel-") by { assert v[..7] == "Hostel-"; }
    SplitAfterPiece("Hostel", '-', tail);
    SplitAfterPiece(code, '-', block);
    SplitWithoutSeparator(block, '-');
    assert Split(v, '-') == ["Hostel", code, block];
  }

  /** An airport value decodes to the city, whatever the city's name. */
  lemma AirportRoundTrip(city: string)
    ensures ParseFrom(AirportValue(city)) == Decoded(CITY, Some(city))
  {
    var v := AirportValue(city);
    assert StartsWith(v, "Airport-") by { assert v[..8] == "Airport-"; }
    assert !StartsWith(v, "Hostel-") by { assert v[0] == 'A'; }
    assert v[8..] == city;
  }

  /** What a complete picker selection stands for. */
  function Meaning(p: Picker): Decoded {
    match p.kind
    case Hostel => Decoded(HallCode(p.hall), Some(p.sub))
    case _ => Decoded(CITY, Some(if p.kind == Katpadi then KatpadiValue else p.sub))
  }

  /** Every value the picker reports for a listed option decodes to the selection it
      stands for: Katpadi right after it is chosen, an airport or a hostel block right
      after the sub-option is chosen. */
  lemma PickedLocationRoundTrip(p: Picker, kind: Kind, s: string)
    requires kind == Airport ==> s in AirportOptions
    requires kind == Hostel ==> s in BlocksOf(p.hall)
    ensures var c := ChooseKind(p, kind);
            kind == Katpadi ==> ParseFrom(c.emitted.value) == Meaning(c.picker)
    ensures var c := ChooseSub(p.(kind := kind), s);
            (kind == Airport || kind == Hostel) ==> ParseFrom(c.emitted.value) == Meaning(c.picker)
  {
    var k := KatpadiValue;
    assert !StartsWith(k, "Hostel-") && !StartsWith(k, "Airport-") by { assert k[0] == 'K'; }
    if kind == Airport {
      AirportRoundTrip(s);
    } else if kind == Hostel {
      BlockNamesHaveNoDash();
      HostelRoundTrip(HallCode(p.hall), s);
    }
  }

  // ---------------------------------------------------------------- submitting

  /** The form's fields; `message` is the status line under the form. */
  datatype Form = Form(
    fromValue: string,
    toValue: string,
    date: string,
    time: string,
    totalPrice: int,
    seatsTotal: int,
    genderPref: string,
    countryCode: string,
    phone: string,
    message: Option<string>)

  const InitialForm := Form("", "", "", "", 0, 3, "Any", "+91", "", None)

  /** The fields after a successful post: the destination is preset to 'Railway Station'. */
  const PostedForm := Form("", "Railway Station", "", "", 0, 3, "Any", "+91", "", Some(FormPostedMessage))

  /** The form after a submit, and the payload handed to `onCreate`, if it was called. */
  datatype Submission = Submission(form: Form, sent: Option<PostPayload>)

  /** `/^\d{10}$/`: exactly ten ASCII digits. */
  predicate TenDigits(phone: string) {
    |phone| == 10 && AllDigits(phone)
  }

  predicate FormIncomplete(f: Form) {
    Incomplete(f.date, f.time, f.fromValue, f.toValue, f.phone, f.totalPrice, f.seatsTotal)
  }

  /** The checks that must pass before the date is converted. */
  predicate Valid(f: Form) {
    !FormIncomplete(f) && TenDigits(f.phone)
  }

  /** `handleSubmit`. */
  function Submit(f: Form, disabled: bool, toIso: string -> Option<string>, created: bool): (s: Submission)
    ensures disabled ==> s == Submission(f, None)
    ensures !disabled && FormIncomplete(f) ==> s == Submission(f.(message := Some(FillAllMessage)), None)
    ensures !disabled && !FormIncomplete(f) && !TenDigits(f.phone) ==>
              s == Submission(f.(message := Some(TenDigitsMessage)), None)
    ensures s.sent.Some? <==> !disabled && Valid(f) && toIso(f.date + "T" + f.time).Some?
    ensures !disabled && Valid(f) && toIso(f.date + "T" + f.time).None? ==> s == Submission(f, None)
    ensures s.sent.None? ==> s.form == f.(message := s.form.message)
    ensures s.sent.Some? ==>
              var p := s.sent.value;
              && p.fromType == ParseFrom(f.fromValue).fromType
              && p.fromValue == ParseFrom(f.fromValue).fromValue.GetOr("")
              && p.toType == CITY && p.toValue == f.toValue
              && p.datetime == toIso(f.date + "T" + f.time).value
              && p.totalPrice == f.totalPrice > 0
              && p.seatsTotal == f.seatsTotal >= 1
              && p.genderPref == f.genderPref
              && p.phone == f.countryCode + f.phone
              && p.phone[|f.countryCode|..] == f.phone && TenDigits(p.phone[|f.countryCode|..])
    ensures s.sent.Some? && created ==> s.form == PostedForm
    ensures s.sent.Some? && !created ==> s.form == f.(message := Some(PostFailedMessage))
  {
    if disabled then
      Submission(f, None)
    else if FormIncomplete(f) then
      Submission(f.(message := Some(FillAllMessage)), None)
    else if !TenDigits(f.phone) then
      Submission(f.(message := Some(TenDigitsMessage)), None)
    else
      match toIso(f.date + "T" + f.time)
      case None => Submission(f, None)
      case Some(iso) =>
        var from := ParseFrom(f.fromValue);
        var payload := PostPayload(from.fromType, from.fromValue.GetOr(""), CITY, f.toValue, iso,
                                   f.totalPrice, f.seatsTotal, f.genderPref, f.countryCode + f.phone);
        Submission(if created then PostedForm else f.(message := Some(PostFailedMessage)), Some(payload))
  }

  /** Picking a hostel block as the origin and submitting posts that hostel type and block. */
  lemma PickedHostelIsPosted(f: Form, p: Picker, block: string, toIso: string -> Option<string>, created: bool)
    requires p.kind == Hostel && block in BlocksOf(p.hall)
    requires f.fromValue == ChooseSub(p, block).emitted.value
    requires Valid(f) && toIso(f.date + "T" + f.time).Some?
    ensures var s := Submit(f, false, toIso, created);
            s.sent.Some? && s.sent.value.fromType == HallCode(p.hall) && s.sent.value.fromValue == block
  {
    PickedLocationRoundTrip(p, Hostel, block);
  }

  /** The airport picker's placeholder reports 'Airport-', which passes the
      completeness check and posts an empty origin name. */
  lemma AirportPlaceholderPostsEmptyOrigin(f: Form, toIso: string -> Option<string>, created: bool)
    requires f.fromValue == ChooseSub(InitialPicker.(kind := Airport), "").emitted.value
    requires !Incomplete(f.date, f.time, "Airport-", f.toValue, f.phone, f.totalPrice, f.seatsTotal)
    requires TenDigits(f.phone) && toIso(f.date + "T" + f.time).Some?
    ensures var s := Submit(f, false, toIso, created);
            s.sent.Some? && s.sent.value.fromType == CITY && s.sent.value.fromValue == ""
  {
    AirportRoundTrip("");
    assert f.fromValue == AirportValue("");
  }

  // ---------------------------------------------------------------- the phone input

  function DigitFilter(): char -> bool {
    (c: char) => IsDigit(c)
  }

  /** The contact input's change handler: non-digits are dropped, and the edit is
      ignored when more than ten digits remain. */
  function PhoneInput(current: string, typed: string): (phone: string)
    ensures |Filter(typed, DigitFilter())| <= 10 ==>
              && AllDigits(phone) && Subsequence(phone, typed)
              && forall c :: multiset(phone)[c] == if IsDigit(c) then multiset(typed)[c] else 0
    ensures |Filter(typed, DigitFilter())| > 10 ==> phone == current
    ensures |phone| <= 10 || phone == current
  {
    var digits := Filter(typed, DigitFilter());
    if |digits| <= 10 then digits else current
  }

  /** Starting from the empty field, every sequence of edits leaves at most ten digits,
      so the ten-digit check reduces to a length check. */
  lemma {:induction false} PhoneStaysShortDigits(edits: seq<string>)
    ensures var phone := Typed("", edits); AllDigits(phone) && |phone| <= 10
    ensures var phone := Typed("", edits); TenDigits(phone) <==> |phone| == 10
    decreases |edits|
  {
    if |edits| > 0 {
      PhoneStaysShortDigits(edits[..|edits| - 1]);
    }
  }

  /** The field after typing each of `edits` in turn. */
  function Typed(start: string, edits: seq<string>): string
    decreases |edits|
  {
    if |edits| == 0 then start else PhoneInput(Typed(start, edits[..|edits| - 1]), edits[|edits| - 1])
  }
}
