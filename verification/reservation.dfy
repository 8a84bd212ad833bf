/** The ticket the session builds up from question/answer pairs: each avatar
    question is routed by keyword to one field, and the user's answer fills it. */
module Reservation {
  import opened Common
  import opened Text
  import opened Patterns

  datatype FlightType = InboundFlight | OutboundFlight

  datatype Passenger = Passenger(fullName: string, nationalId: string, luggageCount: int)

  /** The header fields start out absent; the passenger list starts empty. */
  datatype Ticket = Ticket(
    airportName: Option<string>,
    flightType: Option<FlightType>,
    travelDate: Option<string>,
    flightNumber: Option<string>,
    passengers: seq<Passenger>)

  const EmptyTicket := Ticket(None, None, None, None, [])

  /** What a question is about, in the order the keywords are tried. */
  datatype Topic =
    | AirportTopic | FlightTypeTopic | DateTopic | FlightNumberTopic
    | NameTopic | NationalIdTopic | LuggageTopic | NoTopic

  function Rank(t: Topic): nat {
    match t
    case AirportTopic => 0
    case FlightTypeTopic => 1
    case DateTopic => 2
    case FlightNumberTopic => 3
    case NameTopic => 4
    case NationalIdTopic => 5
    case LuggageTopic => 6
    case NoTopic => 7
  }

  /** Whether the keyword pattern of a topic occurs in the question. */
  predicate Asks(t: Topic, q: string) {
    match t
    case AirportTopic => Spaced(q, NameWord, AirportWord, 1)
    case FlightTypeTopic => Spaced(q, KindWord, FlightWord, 1) || Spaced(q, KindWord, TripWord, 1)
    case DateTopic => Spaced(q, DateWord, TripWord, 1)
    case FlightNumberTopic => Spaced(q, NumberWord, FlightWord, 1)
    case NameTopic => DotStar(q, NameWord, PassengerWord)
    case NationalIdTopic => Spaced(q, CodeWord, NationalWord, 1)
    case LuggageTopic => Spaced(q, CountWord, SuitcaseWord, 1)
    case NoTopic => false
  }

  /** The first topic whose pattern matches: it matches, and no topic tried
      before it does (for `NoTopic`, none matches at all). */
  function TopicOf(q: string): (t: Topic)
    ensures t != NoTopic ==> Asks(t, q)
    ensures forall u :: Rank(u) < Rank(t) ==> !Asks(u, q)
  {
    if Asks(AirportTopic, q) then AirportTopic
    else if Asks(FlightTypeTopic, q) then FlightTypeTopic
    else if Asks(DateTopic, q) then DateTopic
    else if Asks(FlightNumberTopic, q) then FlightNumberTopic
    else if Asks(NameTopic, q) then NameTopic
    else if Asks(NationalIdTopic, q) then NationalIdTopic
    else if Asks(LuggageTopic, q) then LuggageTopic
    else NoTopic
  }

  /** The flight type an answer names: inbound wins when both words occur. */
  function FlightTypeIn(a: string, current: Option<FlightType>): (r: Option<FlightType>)
    ensures Contains(a, InboundWord) ==> r == Some(InboundFlight)
    ensures !Contains(a, InboundWord) && Contains(a, OutboundWord) ==> r == Some(OutboundFlight)
    ensures !Contains(a, InboundWord) && !Contains(a, OutboundWord) ==> r == current
  {
    if Contains(a, InboundWord) then Some(InboundFlight)
    else if Contains(a, OutboundWord) then Some(OutboundFlight)
    else current
  }

  /** `parseInt(a.match(/\d+/)?.[0] || "0")`. */
  function LuggageIn(a: string): (n: nat)
    ensures (forall j :: 0 <= j < |a| ==> !IsDigit(a[j])) ==> n == 0
  {
    var run := FirstDigitRun(a);
    if run == [] then 0 else DecimalValue(run)
  }

  /** The last passenger with `f` applied; nothing changes without passengers. */
  function WithLast(ps: seq<Passenger>, f: Passenger -> Passenger): (r: seq<Passenger>)
    ensures |r| == |ps|
    ensures |ps| > 0 ==> r[..|ps| - 1] == ps[..|ps| - 1] && r[|ps| - 1] == f(ps[|ps| - 1])
  {
    if |ps| == 0 then ps else ps[|ps| - 1 := f(ps[|ps| - 1])]
  }

  /** A name answer starts a new passenger when there is none yet or the
      last one has no name; otherwise it renames the last passenger. */
  function NameAnswer(ps: seq<Passenger>, a: string): (r: seq<Passenger>)
    ensures |ps| == 0 || ps[|ps| - 1].fullName == [] ==> r == ps + [Passenger(a, [], 0)]
    ensures |ps| > 0 && ps[|ps| - 1].fullName != [] ==>
              |r| == |ps| && r[..|ps| - 1] == ps[..|ps| - 1]
              && r[|ps| - 1] == ps[|ps| - 1].(fullName := a)
  {
    if |ps| == 0 || ps[|ps| - 1].fullName == [] then ps + [Passenger(a, [], 0)]
    else WithLast(ps, (p: Passenger) => p.(fullName := a))
  }

  /** An answer `a` to a question about `topic`: only that topic's field
      changes. */
  function Answer(t: Ticket, topic: Topic, a: string): (r: Ticket)
    ensures topic != AirportTopic ==> r.airportName == t.airportName
    ensures topic != FlightTypeTopic ==> r.flightType == t.flightType
    ensures topic != DateTopic ==> r.travelDate == t.travelDate
    ensures topic != FlightNumberTopic ==> r.flightNumber == t.flightNumber
    ensures topic !in {NameTopic, NationalIdTopic, LuggageTopic} ==> r.passengers == t.passengers
  {
    match topic
    case AirportTopic => t.(airportName := Some(a))
    case FlightTypeTopic => t.(flightType := FlightTypeIn(a, t.flightType))
    case DateTopic => t.(travelDate := Some(a))
    case FlightNumberTopic => t.(flightNumber := Some(a))
    case NameTopic => t.(passengers := NameAnswer(t.passengers, a))
    case NationalIdTopic =>
      t.(passengers := WithLast(t.passengers, (p: Passenger) => p.(nationalId := MatchTen(a, false))))
    case LuggageTopic =>
      t.(passengers := WithLast(t.passengers, (p: Passenger) => p.(luggageCount := LuggageIn(a))))
    case NoTopic => t
  }

  /** `updateInfo(question, answer)`: both are trimmed, the question picks the
      topic, and the answer updates that topic's field. */
  function UpdateInfo(t: Ticket, question: string, answer: string): (r: Ticket)
    ensures var topic := TopicOf(Trim(question));
            && (topic != AirportTopic ==> r.airportName == t.airportName)
            && (topic != FlightTypeTopic ==> r.flightType == t.flightType)
            && (topic != DateTopic ==> r.travelDate == t.travelDate)
            && (topic != FlightNumberTopic ==> r.flightNumber == t.flightNumber)
            && (topic !in {NameTopic, NationalIdTopic, LuggageTopic} ==> r.passengers == t.passengers)
  {
    Answer(t, TopicOf(Trim(question)), Trim(answer))
  }

  // ------------------------------------------------------------- lemmas

  /** A question about nothing known leaves the ticket as it was. */
  lemma NoTopicUnchanged(t: Ticket, question: string, answer: string)
    requires forall u :: !Asks(u, Trim(question))
    ensures UpdateInfo(t, question, answer) == t
  {
    assert TopicOf(Trim(question)) == NoTopic;
  }

  /** The three free-text header answers are stored trimmed. */
  lemma HeaderAnswerStored(t: Ticket, question: string, answer: string)
    ensures var r := UpdateInfo(t, question, answer);
            var topic := TopicOf(Trim(question));
            && (topic == AirportTopic ==> r.airportName == Some(Trim(answer)))
            && (topic == DateTopic ==> r.travelDate == Some(Trim(answer)))
            && (topic == FlightNumberTopic ==> r.flightNumber == Some(Trim(answer)))
  {
  }

  /** Passengers are only ever added one at a time and never removed; an ID
      answer stores either nothing or ten digits; a luggage answer never goes
      negative. */
  lemma PassengerAnswers(t: Ticket, question: string, answer: string)
    ensures var r := UpdateInfo(t, question, answer);
            && |t.passengers| <= |r.passengers| <= |t.passengers| + 1
            && (|r.passengers| == |t.passengers| + 1 ==> TopicOf(Trim(question)) == NameTopic)
            && (TopicOf(Trim(question)) == NationalIdTopic && |r.passengers| > 0 ==>
                  var id := r.passengers[|r.passengers| - 1].nationalId;
                  id == [] || (|id| == 10 && AllDigits(id)))
            && (TopicOf(Trim(question)) == LuggageTopic && |r.passengers| > 0 ==>
                  r.passengers[|r.passengers| - 1].luggageCount >= 0)
  {
  }

  /** The number stored for a luggage answer is the value of the first
      maximal digit run in it. */
  lemma LuggageValue(a: string, run: string, i: int)
    requires FirstRunAt(a, run, i) && run != [] && AllDigits(run)
    ensures LuggageIn(a) == DecimalValue(run)
  {
    var first := FirstDigitRun(a);
    assert a[i] == run[0];
    var k :| FirstRunAt(a, first, k);
    FirstRunUnique(a, first, k, run, i);
  }

  /** An ID or luggage answer rewrites one field of the last passenger and
      nothing else; with no passenger yet it changes nothing. */
  lemma LastPassengerAnswers(t: Ticket, question: string, answer: string)
    ensures var r := UpdateInfo(t, question, answer);
            var n := |t.passengers|;
            var topic := TopicOf(Trim(question));
            && (topic in {NationalIdTopic, LuggageTopic} && n == 0 ==> r == t)
            && (topic == NationalIdTopic && n > 0 ==>
                  |r.passengers| == n && r.passengers[..n - 1] == t.passengers[..n - 1]
                  && r.passengers[n - 1] == t.passengers[n - 1].(nationalId := MatchTen(Trim(answer), false)))
            && (topic == LuggageTopic && n > 0 ==>
                  |r.passengers| == n && r.passengers[..n - 1] == t.passengers[..n - 1]
                  && r.passengers[n - 1] == t.passengers[n - 1].(luggageCount := LuggageIn(Trim(answer))))
  {
    assert UpdateInfo(t, question, answer) == Answer(t, TopicOf(Trim(question)), Trim(answer));
  }

  /** A second name answer in a row corrects the first rather than adding
      another passenger, as long as the first was not blank. */
  lemma NameAnswerTwice(ps: seq<Passenger>, a1: string, a2: string)
    requires a1 != []
    ensures var ps1 := NameAnswer(ps, a1);
            var r := NameAnswer(ps1, a2);
            && |ps1| >= 1 && |r| == |ps1| && ps1[..|ps1| - 1] == r[..|ps1| - 1]
            && r[|r| - 1].fullName == a2
  {
  }

  /** The same through `updateInfo`: asking for a name twice keeps one passenger. */
  lemma NameQuestionTwice(t: Ticket, question: string, a1: string, a2: string)
    requires TopicOf(Trim(question)) == NameTopic && Trim(a1) != []
    ensures var t1 := UpdateInfo(t, question, a1);
            var r := UpdateInfo(t1, question, a2);
            |r.passengers| == |t1.passengers| >= 1
            && r.passengers[|r.passengers| - 1].fullName == Trim(a2)
  {
    NameAnswerTwice(t.passengers, Trim(a1), Trim(a2));
  }
}
