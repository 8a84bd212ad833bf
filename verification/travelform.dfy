/** The editable travel form: header fields, the passenger list with add and
    remove, and the luggage counter buttons. */
module TravelEditor {
  import opened Common

  datatype Passenger = Passenger(fullName: string, nationalId: string, luggageCount: int)

  datatype Travel = Travel(airportName: string, travelDate: string, flightNumber: string,
                           passengers: seq<Passenger>)

  /** The two header fields a text input edits directly. */
  datatype BasicField = AirportNameField | FlightNumberField

  /** One field of one passenger, with its new value. */
  datatype PassengerEdit = SetFullName(name: string) | SetNationalId(id: string) | SetLuggage(count: int)

  const NewPassenger := Passenger([], [], 1)

  /** `handleBasicInfoChange(field, value)`. */
  function BasicInfoChange(t: Travel, field: BasicField, value: string): (r: Travel)
    ensures r.passengers == t.passengers && r.travelDate == t.travelDate
    ensures field == AirportNameField ==> r.airportName == value && r.flightNumber == t.flightNumber
    ensures field == FlightNumberField ==> r.flightNumber == value && r.airportName == t.airportName
  {
    match field
    case AirportNameField => t.(airportName := value)
    case FlightNumberField => t.(flightNumber := value)
  }

  /** `handleDateChange(date)`: no date picked leaves the form alone; a picked
      date, already formatted as month and year, replaces the travel date. */
  function DateChange(t: Travel, formatted: Option<string>): (r: Travel)
    ensures formatted.None? ==> r == t
    ensures formatted.Some? ==> r.travelDate == formatted.value
    ensures r.(travelDate := t.travelDate) == t
  {
    match formatted
    case None => t
    case Some(d) => t.(travelDate := d)
  }

  function ApplyEdit(p: Passenger, e: PassengerEdit): Passenger {
    match e
    case SetFullName(n) => p.(fullName := n)
    case SetNationalId(id) => p.(nationalId := id)
    case SetLuggage(c) => p.(luggageCount := c)
  }

  /** `handlePassengerChange(index, field, value)`: only that passenger's field
      changes; an index outside the list changes nothing. */
  function PassengerChange(t: Travel, index: int, e: PassengerEdit): (r: Travel)
    ensures |r.passengers| == |t.passengers|
    ensures r.(passengers := t.passengers) == t
    ensures forall i :: 0 <= i < |t.passengers| && i != index ==> r.passengers[i] == t.passengers[i]
    ensures 0 <= index < |t.passengers| ==> r.passengers[index] == ApplyEdit(t.passengers[index], e)
    ensures !(0 <= index < |t.passengers|) ==> r == t
  {
    t.(passengers := seq(|t.passengers|, i requires 0 <= i < |t.passengers| =>
                          if i == index then ApplyEdit(t.passengers[i], e) else t.passengers[i]))
  }

  /** `addPassenger`: one blank passenger with one piece of luggage at the end. */
  function AddPassenger(t: Travel): (r: Travel)
    ensures |r.passengers| == |t.passengers| + 1 && r.passengers[|t.passengers|] == NewPassenger
    ensures r.passengers[..|t.passengers|] == t.passengers
    ensures r.(passengers := t.passengers) == t
  {
    t.(passengers := t.passengers + [NewPassenger])
  }

  /** `removePassenger(index)`: refused while only one passenger is left;
      otherwise the entry at `index` (if any) goes and the rest keep their order. */
  function RemovePassenger(t: Travel, index: int): (r: Travel)
    ensures |t.passengers| <= 1 ==> r == t
    ensures |t.passengers| > 1 && 0 <= index < |t.passengers| ==>
              r.passengers == t.passengers[..index] + t.passengers[index + 1..]
    ensures |t.passengers| > 1 && !(0 <= index < |t.passengers|) ==> r == t
    ensures r.(passengers := t.passengers) == t
  {
    if |t.passengers| <= 1 then t
    else if 0 <= index < |t.passengers| then
      t.(passengers := t.passengers[..index] + t.passengers[index + 1..])
    else t
  }

  /** The passenger list never becomes empty through removal. */
  lemma {:induction false} RemoveKeepsOne(t: Travel, indices: seq<int>)
    requires |t.passengers| >= 1
    ensures |RemoveAll(t, indices).passengers| >= 1
    decreases |indices|
  {
    if |indices| > 0 {
      RemoveKeepsOne(t, indices[..|indices| - 1]);
    }
  }

  /** Removals in sequence. */
  function RemoveAll(t: Travel, indices: seq<int>): Travel
    decreases |indices|
  {
    if |indices| == 0 then t else RemovePassenger(RemoveAll(t, indices[..|indices| - 1]), indices[|indices| - 1])
  }

  /** The minus button. */
  function LuggageMinus(c: int): (r: int)
    ensures r >= 0 && (c > 0 ==> r == c - 1) && (c <= 0 ==> r == 0)
  {
    MaxInt(0, c - 1)
  }

  /** The plus button. */
  function LuggagePlus(c: int): (r: int)
    ensures r == c + 1
    ensures c >= 0 ==> r > 0 && LuggageMinus(r) == c
  {
    c + 1
  }

  /** Pressing minus after plus on a non-negative count gives the count back,
      and a count that starts non-negative stays so under any presses. */
  lemma LuggageButtons(c: int, presses: seq<bool>)
    requires c >= 0
    ensures LuggageMinus(LuggagePlus(c)) == c
    ensures Press(c, presses) >= 0
  {
    PressNonNegative(c, presses);
  }

  /** The count after a sequence of presses (`true` is plus). */
  function Press(c: int, presses: seq<bool>): int
    decreases |presses|
  {
    if |presses| == 0 then c
    else Press(if presses[0] then LuggagePlus(c) else LuggageMinus(c), presses[1..])
  }

  lemma {:induction false} PressNonNegative(c: int, presses: seq<bool>)
    requires c >= 0
    ensures Press(c, presses) >= 0
    decreases |presses|
  {
    if |presses| > 0 {
      PressNonNegative(if presses[0] then LuggagePlus(c) else LuggageMinus(c), presses[1..]);
    }
  }
}
