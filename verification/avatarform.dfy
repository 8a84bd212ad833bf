/** The avatar page's glue around the ticket: the form defaults derived from
    the ticket, and the one-shot latch that starts the final extraction when
    the conversation switches to QR-code mode. */
module AvatarForm {
  import opened Common
  import opened Reservation

  // ------------------------------------------------------------ form defaults

  /** The confirmation form's initial contents. */
  datatype Defaults = Defaults(
    airportName: string,
    flightType: FlightType,
    travelDate: string,
    flightNumber: string,
    luggageCount: int,
    passengers: seq<Passenger>)

  /** `reduce((sum, p) => sum + p.luggageCount, acc)`: a left fold over the list. */
  function LuggageFold(acc: int, ps: seq<Passenger>): int
    decreases |ps|
  {
    if |ps| == 0 then acc else LuggageFold(acc + ps[0].luggageCount, ps[1..])
  }

  /** The luggage total, counted from the end of the list: the reference the
      fold is compared with. */
  function LuggageTotal(ps: seq<Passenger>): int {
    if |ps| == 0 then 0 else LuggageTotal(ps[..|ps| - 1]) + ps[|ps| - 1].luggageCount
  }

  /** The fold with a starting value `acc` adds `acc` to the total. */
  lemma {:induction false} FoldIsTotal(acc: int, ps: seq<Passenger>)
    ensures LuggageFold(acc, ps) == acc + LuggageTotal(ps)
    decreases |ps|
  {
    if |ps| > 0 {
      FoldIsTotal(acc + ps[0].luggageCount, ps[1..]);
      TotalCons(ps[0], ps[1..]);
      assert [ps[0]] + ps[1..] == ps;
    }
  }

  lemma {:induction false} TotalCons(p: Passenger, ps: seq<Passenger>)
    ensures LuggageTotal([p] + ps) == p.luggageCount + LuggageTotal(ps)
    decreases |ps|
  {
    if |ps| > 0 {
      var init := ps[..|ps| - 1];
      TotalCons(p, init);
      assert ([p] + ps)[..|ps|] == [p] + init;
    }
  }

  /** Counts that are never negative give a total that is not negative and is
      at least each passenger's own count. */
  lemma {:induction false} TotalBounds(ps: seq<Passenger>)
    requires forall i :: 0 <= i < |ps| ==> ps[i].luggageCount >= 0
    ensures LuggageTotal(ps) >= 0
    ensures forall i :: 0 <= i < |ps| ==> LuggageTotal(ps) >= ps[i].luggageCount
  {
    if |ps| > 0 {
      var init := ps[..|ps| - 1];
      TotalBounds(init);
      assert forall i :: 0 <= i < |init| ==> init[i] == ps[i];
    }
  }

  /** The defaults: absent header fields become empty (the flight type
      outbound), the passengers are copied, and the luggage count is the sum
      over all passengers. */
  function DefaultsOf(t: Ticket): (d: Defaults)
    ensures d.airportName == t.airportName.GetOr([])
    ensures d.travelDate == t.travelDate.GetOr([])
    ensures d.flightNumber == t.flightNumber.GetOr([])
    ensures d.flightType == (if t.flightType.Some? then t.flightType.value else OutboundFlight)
    ensures d.passengers == t.passengers
    ensures d.luggageCount == LuggageTotal(t.passengers)
  {
    FoldIsTotal(0, t.passengers);
    Defaults(t.airportName.GetOr([]), t.flightType.GetOr(OutboundFlight), t.travelDate.GetOr([]),
             t.flightNumber.GetOr([]), LuggageFold(0, t.passengers), t.passengers)
  }

  /** A ticket nobody has talked about yet gives an empty outbound form. */
  lemma EmptyTicketDefaults()
    ensures DefaultsOf(EmptyTicket) == Defaults([], OutboundFlight, [], [], 0, [])
  {
  }

  // ------------------------------------------------------------ the extraction latch

  /** One run of the QR-mode effect, given the latch as that render saw it:
      the new latch value and whether an extraction starts. */
  function LatchStep(latched: bool, qrMode: bool, talking: bool): (r: (bool, bool))
    ensures r.1 <==> qrMode && !talking && !latched
    ensures r.0 <==> (latched && qrMode) || r.1
  {
    if qrMode && !talking && !latched then (true, true)
    else if !qrMode && latched then (false, false)
    else (latched, false)
  }

  /** A render as the effect sees it. */
  datatype Frame = Frame(qrMode: bool, talking: bool)

  /** The number of extractions a run of renders starts, from latch `latched`. */
  function Starts(latched: bool, frames: seq<Frame>): nat
    decreases |frames|
  {
    if |frames| == 0 then 0
    else
      var (l, s) := LatchStep(latched, frames[0].qrMode, frames[0].talking);
      (if s then 1 else 0) + Starts(l, frames[1..])
  }

  predicate AllQr(frames: seq<Frame>) {
    forall i :: 0 <= i < |frames| ==> frames[i].qrMode
  }

  /** While QR mode stays on, at most one extraction starts, and none once
      the latch is set. */
  lemma {:induction false} AtMostOneExtraction(latched: bool, frames: seq<Frame>)
    requires AllQr(frames)
    ensures Starts(latched, frames) <= 1
    ensures latched ==> Starts(latched, frames) == 0
    decreases |frames|
  {
    if |frames| > 0 {
      var (l, s) := LatchStep(latched, frames[0].qrMode, frames[0].talking);
      assert AllQr(frames[1..]) by {
        forall i | 0 <= i < |frames[1..]| ensures frames[1..][i].qrMode {
          assert frames[1..][i] == frames[i + 1];
        }
      }
      AtMostOneExtraction(l, frames[1..]);
    }
  }

  /** Leaving QR mode re-arms the latch: the next quiet render in QR mode
      starts a fresh extraction. */
  lemma LeavingRearms(latched: bool, talking: bool)
    ensures var (l, _) := LatchStep(latched, false, talking);
            LatchStep(l, true, false) == (true, true)
  {
  }

  // ------------------------------------------------------------ extraction outcome

  /** The page state the extraction writes. */
  datatype View = View(showForm: bool, showQrCode: bool, tripId: int)

  const InitialView := View(false, false, 0)

  /** How the asynchronous chain ended: the extraction and the save of its
      result, or else the save of an empty trip. */
  datatype Completion =
    | Saved(id: int)
    | EmptySaved
    | NothingSaved

  /** A saved extraction shows its trip id; a failed one, once the empty trip
      is saved, shows id 0; both hide the form and show the QR code. When even
      the empty save fails nothing changes. */
  function Complete(v: View, c: Completion): (r: View)
    ensures c.Saved? ==> r == View(false, true, c.id)
    ensures c.EmptySaved? ==> r == View(false, true, 0)
    ensures c.NothingSaved? ==> r == v
    ensures !c.NothingSaved? ==> r.showQrCode && !r.showForm
  {
    match c
    case Saved(id) => View(false, true, id)
    case EmptySaved => View(false, true, 0)
    case NothingSaved => v
  }

  /** Which completion the chain reaches: any failure before the trip is saved
      falls through to the empty save. */
  function CompletionOf(extracted: bool, saveId: Option<int>, emptySaveOk: bool): (c: Completion)
    ensures c.Saved? <==> extracted && saveId.Some?
    ensures c.Saved? ==> c.id == saveId.value
    ensures c.NothingSaved? <==> !(extracted && saveId.Some?) && !emptySaveOk
  {
    if extracted && saveId.Some? then Saved(saveId.value)
    else if emptySaveOk then EmptySaved
    else NothingSaved
  }
}
