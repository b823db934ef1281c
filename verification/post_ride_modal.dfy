/** The posting dialog of src/components/PostRideModal.tsx: the location
    selectors with their reconciliation effects, the submit handler, the row it
    inserts into the remote `rides` table, and the reset after a post.

    The outcome of the insert is the parameter `result`. A type change is the
    `setFromType`/`setToType` call together with the effect it triggers. */
module PostRideModal {
  import opened Options
  import opened Types
  import opened RidesApi
  import opened FormRules
  import opened Browse

  const ModalPostedMessage := "Ride posted successfully!"

  datatype ModalForm = ModalForm(
    fromType: string,
    toType: string,
    fromValue: string,
    toValue: string,
    date: string,
    time: string,
    totalPrice: int,
    seatsTotal: int,
    genderPref: string,
    phone: string,
    message: Option<string>)

  /** The initial state of every field. */
  const Defaults := ModalForm(MH, CITY, "", CityLocations[0], "", "", 0, 3, "Any", "", None)

  /** `optionsByType[t] ?? []`. */
  function OptionsFor(t: string): seq<string> {
    if t == MH then MhBlocks else if t == LH then LhBlocks else if t == CITY then CityLocations else []
  }

  /** `options.includes(prev) ? prev : options[0] ?? ''`. */
  function Reconcile(prev: string, options: seq<string>): (v: string)
    ensures v in options || (options == [] && v == "")
    ensures prev in options ==> v == prev
    ensures prev !in options ==> v == if |options| > 0 then options[0] else ""
  {
    if prev in options then prev else if |options| > 0 then options[0] else ""
  }

  /** Reconciling twice changes nothing more. */
  lemma ReconcileIdempotent(prev: string, options: seq<string>)
    ensures Reconcile(Reconcile(prev, options), options) == Reconcile(prev, options)
  {
  }

  /** The effect at lines 37-42: the origin value is kept when its type lists it,
      otherwise it becomes the type's first option, or '' for a type without options. */
  function ReconcileFrom(f: ModalForm): (g: ModalForm)
    ensures g.fromType == f.fromType
    ensures f.fromType == MH || f.fromType == LH || f.fromType == CITY ==> g.fromValue in OptionsFor(f.fromType)
    ensures f.fromValue in OptionsFor(f.fromType) ==> g == f
    ensures f.fromValue !in OptionsFor(f.fromType) ==>
              g.fromValue == if |OptionsFor(f.fromType)| > 0 then OptionsFor(f.fromType)[0] else ""
    ensures g.(fromValue := f.fromValue) == f
  {
    f.(fromValue := Reconcile(f.fromValue, OptionsFor(f.fromType)))
  }

  /** The effect at lines 44-49, for the destination. */
  function ReconcileTo(f: ModalForm): (g: ModalForm)
    ensures g.toType == f.toType
    ensures f.toType == MH || f.toType == LH || f.toType == CITY ==> g.toValue in OptionsFor(f.toType)
    ensures f.toValue in OptionsFor(f.toType) ==> g == f
    ensures f.toValue !in OptionsFor(f.toType) ==>
              g.toValue == if |OptionsFor(f.toType)| > 0 then OptionsFor(f.toType)[0] else ""
    ensures g.(toValue := f.toValue) == f
  {
    f.(toValue := Reconcile(f.toValue, OptionsFor(f.toType)))
  }

  /** A click on an origin type button: `setFromType(t)`. React reruns the effect
      only when the type actually changes, so clicking the current type changes nothing. */
  function ChangeFromType(f: ModalForm, t: string): (g: ModalForm)
    ensures g.fromType == t
    ensures t == f.fromType ==> g == f
    ensures t != f.fromType && (t == MH || t == LH || t == CITY) ==> g.fromValue in OptionsFor(t)
    ensures f.fromValue in OptionsFor(t) ==> g.fromValue == f.fromValue
    ensures t != f.fromType && f.fromValue !in OptionsFor(t) ==>
              g.fromValue == if |OptionsFor(t)| > 0 then OptionsFor(t)[0] else ""
    ensures g.(fromType := f.fromType, fromValue := f.fromValue) == f
  {
    if t == f.fromType then f else ReconcileFrom(f.(fromType := t))
  }

  /** A click on a destination type button: `setToType(t)` and, on a change, the effect. */
  function ChangeToType(f: ModalForm, t: string): (g: ModalForm)
    ensures g.toType == t
    ensures t == f.toType ==> g == f
    ensures t != f.toType && (t == MH || t == LH || t == CITY) ==> g.toValue in OptionsFor(t)
    ensures f.toValue in OptionsFor(t) ==> g.toValue == f.toValue
    ensures t != f.toType && f.toValue !in OptionsFor(t) ==>
              g.toValue == if |OptionsFor(t)| > 0 then OptionsFor(t)[0] else ""
    ensures g.(toType := f.toType, toValue := f.toValue) == f
  {
    if t == f.toType then f else ReconcileTo(f.(toType := t))
  }

  /** The form once both effects have run on mount. */
  function Mounted(): (f: ModalForm)
    ensures f == Defaults.(fromValue := MhBlocks[0])
  {
    ReconcileTo(ReconcileFrom(Defaults))
  }

  /** A listed origin survives switching to another type and back whenever both lists hold it. */
  lemma SharedOptionSurvivesTypeSwitch(f: ModalForm, t: string)
    requires f.fromValue in OptionsFor(t) && f.fromValue in OptionsFor(f.fromType)
    ensures ChangeFromType(ChangeFromType(f, t), f.fromType) == f
  {
  }

  // ---------------------------------------------------------------- the inserted row

  /** The payload of the insert into the remote `rides` table. */
  datatype Row = Row(
    from: string,
    to: string,
    travelDate: string,
    travelTime: string,
    preferredGender: string,
    cabPrice: int,
    seats: int,
    contact: string,
    hostelBlock: Option<string>)

  function RowOf(f: ModalForm): (row: Row)
    ensures row.hostelBlock.Some? <==> f.fromType == MH
    ensures row.hostelBlock.Some? ==> row.hostelBlock.value == row.from
    ensures row.(hostelBlock := None) ==
              Row(f.fromValue, f.toValue, f.date, f.time, f.genderPref, f.totalPrice, f.seatsTotal, f.phone, None)
  {
    Row(f.fromValue, f.toValue, f.date, f.time, f.genderPref, f.totalPrice, f.seatsTotal, f.phone,
        if f.fromType == MH then Some(f.fromValue) else None)
  }

  predicate ModalIncomplete(f: ModalForm) {
    Incomplete(f.date, f.time, f.fromValue, f.toValue, f.phone, f.totalPrice, f.seatsTotal)
  }

  /** A row read back as a ride carries only the compatibility columns; the browse
      view then finds the departure, destination and preference it was posted with. */
  lemma RowIsBrowsable(f: ModalForm, r: Ride, parse: string -> Option<int>)
    requires !ModalIncomplete(f)
    requires r.info.datetime == "" && r.info.toValue == "" && r.info.genderPref == ""
    requires var row := RowOf(f);
             && r.info.legacy.to == Some(row.to)
             && r.info.legacy.travelDate == Some(row.travelDate)
             && r.info.legacy.travelTime == Some(row.travelTime)
             && r.info.legacy.preferredGender == Some(row.preferredGender)
    ensures ToTime(r, parse) == TimeOf(parse(f.date + "T" + f.time))
    ensures Destination(r) == f.toValue
    ensures GenderOf(r) == if f.genderPref == "" then "Any" else f.genderPref
  {
  }

  // ---------------------------------------------------------------- submitting

  /** How the insert ended: accepted, answered with an error object, or thrown;
      `Threw(None)` is a thrown value that is not an `Error`. */
  datatype InsertResult = Inserted | Rejected(message: string) | Threw(error: Option<string>)

  /** The dialog after a submit, the row sent, and whether `onClose` was called. */
  datatype ModalStep = ModalStep(form: ModalForm, sent: Option<Row>, closed: bool)

  /** The fields after a successful post. The types are set back to MH and CITY; an
      effect reconciles a value only when its type actually changed, so an origin
      type that was already MH leaves the origin empty. */
  function Cleared(f: ModalForm): (g: ModalForm)
    ensures g.(fromValue := Defaults.fromValue) == Defaults.(message := Some(ModalPostedMessage))
    ensures f.fromType == MH ==> g.fromValue == ""
    ensures f.fromType != MH ==> g.fromValue == MhBlocks[0]
  {
    var reset := Defaults.(message := Some(ModalPostedMessage));
    var g := if f.fromType != MH then ReconcileFrom(reset) else reset;
    if f.toType != CITY then ReconcileTo(g) else g
  }

  /** After a post made from an MH origin the origin stays empty, and clicking MH
      again does not refill it, so the next submit asks for all fields. */
  lemma ReclickAfterPostKeepsOriginEmpty(f: ModalForm, disabled: bool, result: InsertResult)
    requires f.fromType == MH
    ensures var g := ChangeFromType(Cleared(f), MH);
            g.fromValue == "" && ModalIncomplete(g)
            && Submit(g, disabled, result).sent.None?
  {
  }

  /** `handleSubmit`. */
  function Submit(f: ModalForm, disabled: bool, result: InsertResult): (s: ModalStep)
    ensures disabled ==> s == ModalStep(f, None, false)
    ensures !disabled && ModalIncomplete(f) ==> s == ModalStep(f.(message := Some(FillAllMessage)), None, false)
    ensures s.sent.Some? <==> !disabled && !ModalIncomplete(f)
    ensures s.sent.Some? ==> s.sent.value == RowOf(f)
    ensures s.closed <==> s.sent.Some? && result.Inserted?
    ensures s.closed ==> s.form == Cleared(f)
    ensures s.sent.Some? && !s.closed ==> s.form == f.(message := s.form.message) && s.form.message.Some?
    ensures s.sent.Some? && result.Rejected? ==>
              s.form.message == Some(if result.message != "" then result.message else PostFailedMessage)
    ensures s.sent.Some? && result.Threw? ==> s.form.message == Some(result.error.GetOr(PostFailedMessage))
  {
    if disabled then
      ModalStep(f, None, false)
    else if ModalIncomplete(f) then
      ModalStep(f.(message := Some(FillAllMessage)), None, false)
    else
      var row := RowOf(f);
      match result
      case Inserted => ModalStep(Cleared(f), Some(row), true)
      case Rejected(m) => ModalStep(f.(message := Some(if m != "" then m else PostFailedMessage)), Some(row), false)
      case Threw(e) => ModalStep(f.(message := Some(e.GetOr(PostFailedMessage))), Some(row), false)
  }

  /** Unlike the inline form, the dialog sends any non-empty contact, whatever its digits. */
  lemma AnyContactIsSent(f: ModalForm, result: InsertResult)
    requires !ModalIncomplete(f.(phone := "x"))
    ensures Submit(f.(phone := "x"), false, result).sent.Some?
  {
  }
}
