/** The location picker of src/components/HierarchicalDropdown.tsx.

    The picker reports its selection through `onChange` as one string:
    'Katpadi Jn', 'Airport-<city>' or 'Hostel-<MH|LH>-<block>'. Each handler
    returns the new picker state and the string passed to `onChange`, if the
    handler calls it at all. */
module LocationCodec {
  import opened Options
  import opened RidesApi

  /** The first-level choice; `Unselected` is the placeholder option ''. */
  datatype Kind = Unselected | Airport | Katpadi | Hostel

  /** The men's or ladies' hostel. */
  datatype Hall = Men | Ladies

  function HallCode(h: Hall): string {
    match h
    case Men => "MH"
    case Ladies => "LH"
  }

  /** The block list the second hostel selector offers. */
  function BlocksOf(h: Hall): seq<string> {
    match h
    case Men => MhBlocks
    case Ladies => LhBlocks
  }

  datatype Picker = Picker(kind: Kind, sub: string, hall: Hall)

  const InitialPicker := Picker(Unselected, "", Men)

  const KatpadiValue := "Katpadi Jn"

  const AirportOptions: seq<string> := ["Chennai", "Bangalore", "Tirupati"]

  /** A picker state together with the value handed to `onChange`, if any. */
  datatype Change = Change(picker: Picker, emitted: Option<string>)

  function AirportValue(city: string): string {
    "Airport-" + city
  }

  function HostelValue(hall: Hall, block: string): string {
    "Hostel-" + HallCode(hall) + "-" + block
  }

  /** `handleType`: the sub-selection is cleared; Katpadi is complete at once,
      the other kinds report '' until a sub-option is chosen. */
  function ChooseKind(p: Picker, kind: Kind): (c: Change)
    ensures c.picker.kind == kind && c.picker.sub == "" && c.picker.hall == p.hall
    ensures kind == Katpadi ==> c.emitted == Some(KatpadiValue)
    ensures kind != Katpadi ==> c.emitted == Some("")
  {
    Change(p.(kind := kind, sub := ""), Some(if kind == Katpadi then KatpadiValue else ""))
  }

  /** `handleSub`: reports the encoded selection for the airport and hostel kinds
      and nothing for the others. */
  function ChooseSub(p: Picker, s: string): (c: Change)
    ensures c.picker == p.(sub := s)
    ensures p.kind == Airport ==> c.emitted == Some(AirportValue(s))
    ensures p.kind == Hostel ==> c.emitted == Some(HostelValue(p.hall, s))
    ensures p.kind == Unselected || p.kind == Katpadi ==> c.emitted == None
  {
    var emitted :=
      match p.kind
      case Airport => Some(AirportValue(s))
      case Hostel => Some(HostelValue(p.hall, s))
      case _ => None;
    Change(p.(sub := s), emitted)
  }

  /** The MH/LH selector only records the choice; nothing is reported until a block is picked. */
  function ChooseHall(p: Picker, hall: Hall): (c: Change)
    ensures c.emitted == None
    ensures c.picker == p.(hall := hall)
  {
    Change(p.(hall := hall), None)
  }
}
