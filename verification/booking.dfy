/** The scripted booking dialogue: twelve steps from the greeting to the QR
    code, each consuming one user utterance. */
module Booking {
  import opened Common
  import opened Text
  import opened Patterns

  datatype Step =
    | Idle | AskAirport | AskFlightType | AskDate | AskPassengerCount
    | AskName | AskNationalId | AskBaggage | AskFlightNumber
    | Confirm | WaitForFinalConfirm | ShowQR

  /** One passenger as the dialogue collects it: every field is raw text. */
  datatype Entry = Entry(name: string, nationalId: string, baggage: string)

  const BlankEntry := Entry([], [], [])

  datatype Info = Info(
    airport: string, flightType: string, date: string,
    passengerCount: string, passengers: seq<Entry>, flightNumber: string)

  const InitialInfo := Info([], [], [], [], [], [])

  /** The step, what has been collected, and which passenger is being asked about. */
  datatype Flow = Flow(step: Step, info: Info, current: nat)

  const InitialFlow := Flow(Idle, InitialInfo, 0)

  /** The fixed prompts the avatar speaks. */
  datatype Prompt =
    | AskAirportPrompt | AskFlightTypePrompt | AskDatePrompt | AskPassengerCountPrompt
    | CountDigitsOnly | AskFirstName | NameOnly | AskNationalIdPrompt | NationalIdTenDigits
    | AskBaggagePrompt | BaggageDigitsOnly | AskNextName | AskFlightNumberPrompt
    | WhichPartToFix

  /** What a transition makes the avatar or the app do. */
  datatype Effect = Say(prompt: Prompt) | ReadSummary(info: Info) | SendBooking(info: Info) | Silent

  // ------------------------------------------------------------ extractors

  predicate IsNameStop(c: char) { IsDigit(c) || c == '.' }

  /** Position of the first digit or `.`, or the length when there is none. */
  function NameEnd(text: string): (p: nat)
    ensures p <= |text|
    ensures forall j :: 0 <= j < p ==> !IsNameStop(text[j])
    ensures p < |text| ==> IsNameStop(text[p])
  {
    if |text| == 0 then 0
    else if IsNameStop(text[0]) then 0
    else 1 + NameEnd(text[1..])
  }

  /** No digit and no full stop anywhere in `s`. */
  predicate NoNameStop(s: string) {
    forall j :: 0 <= j < |s| ==> !IsNameStop(s[j])
  }

  /** `extractName`: the text before the first digit or full stop, trimmed. */
  function ExtractName(text: string): (r: string)
    ensures IsTrimmed(r) && NoNameStop(r)
    ensures NoNameStop(text) ==> r == Trim(text)
  {
    var p := NameEnd(text);
    assert NoNameStop(text[..p]);
    TrimKeepsNoStop(text[..p]);
    assert NoNameStop(text) ==> p == |text| && text[..p] == text;
    Trim(text[..p])
  }

  lemma TrimKeepsNoStop(t: string)
    requires NoNameStop(t)
    ensures NoNameStop(Trim(t))
  {
    TrimCharacterization(t);
    var i, j :| Slice(t, i, j) && t[i..j] == Trim(t);
    assert forall k :: 0 <= k < j - i ==> Trim(t)[k] == t[i + k];
  }

  /** `extractNationalId`: the first ten-digit run standing on word boundaries. */
  function ExtractNationalId(text: string): (r: string)
    ensures r == [] || (|r| == 10 && AllDigits(r))
    ensures r == [] <==> forall j :: !At(BoundedTenDigits, text, j)
  {
    MatchTen(text, true)
  }

  /** `extractBaggageCount`: the first run of digits. */
  function ExtractBaggageCount(text: string): (r: string)
    ensures AllDigits(r)
    ensures r == [] <==> forall j :: 0 <= j < |text| ==> !IsDigit(text[j])
  {
    FirstDigitRun(text)
  }

  // ------------------------------------------------------------ transitions

  /** `passengers[i] = { ...passengers[i], field }`: writing one past the end
      appends an entry whose other fields are missing, read here as empty. */
  function SetEntry(ps: seq<Entry>, i: nat, f: Entry -> Entry): (r: seq<Entry>)
    requires i <= |ps|
    ensures |r| == if i < |ps| then |ps| else |ps| + 1
    ensures r[i] == (if i < |ps| then f(ps[i]) else f(BlankEntry))
    ensures forall k :: 0 <= k < |ps| && k != i ==> r[k] == ps[k]
  {
    if i < |ps| then ps[i := f(ps[i])] else ps + [f(BlankEntry)]
  }

  /** States the dialogue can be in: the current passenger is at most one past
      the collected list, and the count is the digit run it was read from. */
  predicate Inv(fl: Flow) {
    fl.current <= |fl.info.passengers| && AllDigits(fl.info.passengerCount)
  }

  /** `handleBookingFlow(userText)` on the current state. */
  function Transition(fl: Flow, text: string): (r: (Flow, Effect))
    requires Inv(fl)
    ensures Inv(r.0)
    ensures fl.step == Idle ==> r.0 == fl.(step := AskAirport)
    ensures fl.step == ShowQR ==> r == (fl, Silent)
  {
    var info := fl.info;
    match fl.step
    case Idle => (fl.(step := AskAirport), Say(AskAirportPrompt))
    case AskAirport =>
      (Flow(AskFlightType, info.(airport := text), fl.current), Say(AskFlightTypePrompt))
    case AskFlightType =>
      (Flow(AskDate, info.(flightType := text), fl.current), Say(AskDatePrompt))
    case AskDate =>
      (Flow(AskPassengerCount, info.(date := text), fl.current), Say(AskPassengerCountPrompt))
    case AskPassengerCount =>
      var count := ExtractBaggageCount(text);
      if count == [] then (fl, Say(CountDigitsOnly))
      else
        var n := DecimalValue(count);
        (Flow(AskName, info.(passengerCount := count, passengers := seq(n, _ => BlankEntry)), 0),
         Say(AskFirstName))
    case AskName =>
      var name := ExtractName(text);
      if name == [] then (fl, Say(NameOnly))
      else
        var ps := SetEntry(info.passengers, fl.current, (e: Entry) => e.(name := name));
        (Flow(AskNationalId, info.(passengers := ps), fl.current), Say(AskNationalIdPrompt))
    case AskNationalId =>
      var id := ExtractNationalId(text);
      if id == [] then (fl, Say(NationalIdTenDigits))
      else
        var ps := SetEntry(info.passengers, fl.current, (e: Entry) => e.(nationalId := id));
        (Flow(AskBaggage, info.(passengers := ps), fl.current), Say(AskBaggagePrompt))
    case AskBaggage =>
      var bags := ExtractBaggageCount(text);
      if bags == [] then (fl, Say(BaggageDigitsOnly))
      else
        var ps := SetEntry(info.passengers, fl.current, (e: Entry) => e.(baggage := bags));
        if fl.current + 1 < DecimalValue(info.passengerCount) then
          (Flow(AskName, info.(passengers := ps), fl.current + 1), Say(AskNextName))
        else
          (Flow(AskFlightNumber, info.(passengers := ps), fl.current), Say(AskFlightNumberPrompt))
    case AskFlightNumber =>
      (Flow(Confirm, info.(flightNumber := text), fl.current), Silent)
    case Confirm =>
      (fl.(step := WaitForFinalConfirm), ReadSummary(info))
    case WaitForFinalConfirm =>
      if Contains(text, ConfirmWord) || Contains(text, YesWord) then
        (fl.(step := ShowQR), SendBooking(info))
      else (fl, Say(WhichPartToFix))
    case ShowQR => (fl, Silent)
  }

  // ------------------------------------------------------------ lemmas

  /** The three free-text questions store the utterance verbatim and move on
      by one step. */
  lemma FreeTextSteps(fl: Flow, text: string)
    requires Inv(fl)
    ensures var r := Transition(fl, text).0;
            && (fl.step == AskAirport ==> r == Flow(AskFlightType, fl.info.(airport := text), fl.current))
            && (fl.step == AskFlightType ==> r == Flow(AskDate, fl.info.(flightType := text), fl.current))
            && (fl.step == AskDate ==> r == Flow(AskPassengerCount, fl.info.(date := text), fl.current))
            && (fl.step == AskFlightNumber ==> r == Flow(Confirm, fl.info.(flightNumber := text), fl.current))
  {
  }

  /** A passenger count without digits changes nothing; with digits, the list
      becomes that many blank entries and the first passenger is asked for. */
  lemma PassengerCountStep(fl: Flow, text: string)
    requires Inv(fl) && fl.step == AskPassengerCount
    ensures var r := Transition(fl, text).0;
            var count := ExtractBaggageCount(text);
            && (count == [] ==> r == fl)
            && (count != [] ==>
                  && r.step == AskName && r.current == 0 && r.info.passengerCount == count
                  && |r.info.passengers| == DecimalValue(count)
                  && (forall k :: 0 <= k < |r.info.passengers| ==> r.info.passengers[k] == BlankEntry))
  {
  }

  /** The entry of the passenger being asked about, blank when the list
      does not reach it yet. */
  function CurrentEntry(fl: Flow): Entry {
    if fl.current < |fl.info.passengers| then fl.info.passengers[fl.current] else BlankEntry
  }

  /** `r` differs from `fl` only in the current passenger, which is now `e`;
      a passenger one past the end is appended. */
  predicate ChangesOnlyCurrent(fl: Flow, r: Flow, e: Entry) {
    var ps, ps', i := fl.info.passengers, r.info.passengers, fl.current;
    && r.current == i
    && r.info == fl.info.(passengers := ps')
    && |ps'| == (if i < |ps| then |ps| else |ps| + 1)
    && i < |ps'| && ps'[i] == e
    && forall k :: 0 <= k < |ps| && k != i ==> ps'[k] == ps[k]
  }

  /** A reply without a name leaves the state alone; a name is stored on the
      current passenger and the ID is asked for next. */
  lemma NameStep(fl: Flow, text: string)
    requires Inv(fl) && fl.step == AskName
    ensures var r := Transition(fl, text).0;
            && (ExtractName(text) == [] ==> r == fl)
            && (ExtractName(text) != [] ==>
                  r.step == AskNationalId && ChangesOnlyCurrent(fl, r, CurrentEntry(fl).(name := ExtractName(text))))
  {
  }

  /** A reply without a ten-digit run leaves the state alone; an ID is stored
      on the current passenger and the baggage is asked for next. */
  lemma NationalIdStep(fl: Flow, text: string)
    requires Inv(fl) && fl.step == AskNationalId
    ensures var r := Transition(fl, text).0;
            && (ExtractNationalId(text) == [] ==> r == fl)
            && (ExtractNationalId(text) != [] ==>
                  r.step == AskBaggage && ChangesOnlyCurrent(fl, r, CurrentEntry(fl).(nationalId := ExtractNationalId(text))))
  {
  }

  /** A reply without digits leaves the state alone; a count is stored on the
      current passenger, whose index then advances as the next lemma says. */
  lemma BaggageStep(fl: Flow, text: string)
    requires Inv(fl) && fl.step == AskBaggage
    ensures var r := Transition(fl, text).0;
            && (ExtractBaggageCount(text) == [] ==> r == fl)
            && (ExtractBaggageCount(text) != [] ==>
                  ChangesOnlyCurrent(fl, r.(current := fl.current), CurrentEntry(fl).(baggage := ExtractBaggageCount(text))))
  {
  }

  /** After an accepted baggage answer the dialogue moves to the next passenger
      while there is one, and to the flight number after the last. */
  lemma BaggageAdvance(fl: Flow, text: string)
    requires Inv(fl) && fl.step == AskBaggage && ExtractBaggageCount(text) != []
    ensures var r := Transition(fl, text).0;
            && (fl.current + 1 < DecimalValue(fl.info.passengerCount) ==>
                  r.step == AskName && r.current == fl.current + 1)
            && (fl.current + 1 >= DecimalValue(fl.info.passengerCount) ==>
                  r.step == AskFlightNumber && r.current == fl.current)
  {
  }

  /** The closing exchange: the summary is read whatever the user says, and the
      booking is sent exactly when the reply confirms. */
  lemma ClosingSteps(fl: Flow, text: string)
    requires Inv(fl)
    ensures fl.step == Confirm ==> Transition(fl, text) == (fl.(step := WaitForFinalConfirm), ReadSummary(fl.info))
    ensures fl.step == WaitForFinalConfirm ==>
              (Transition(fl, text).0.step == ShowQR <==> Contains(text, ConfirmWord) || Contains(text, YesWord))
    ensures fl.step == WaitForFinalConfirm ==>
              (Transition(fl, text).1 == SendBooking(fl.info) <==> Transition(fl, text).0.step == ShowQR)
  {
  }

  /** Utterances fed one after another. */
  function Run(fl: Flow, texts: seq<string>): (r: Flow)
    requires Inv(fl)
    ensures Inv(r)
    decreases |texts|
  {
    if |texts| == 0 then fl else Run(Transition(fl, texts[0]).0, texts[1..])
  }

  /** Once the QR code is shown, nothing the user says changes anything. */
  lemma {:induction false} ShowQRAbsorbing(fl: Flow, texts: seq<string>)
    requires Inv(fl) && fl.step == ShowQR
    ensures Run(fl, texts) == fl
    decreases |texts|
  {
    if |texts| > 0 {
      ShowQRAbsorbing(Transition(fl, texts[0]).0, texts[1..]);
    }
  }

  /** Position of each step in the script. */
  function Order(s: Step): nat {
    match s
    case Idle => 0
    case AskAirport => 1
    case AskFlightType => 2
    case AskDate => 3
    case AskPassengerCount => 4
    case AskName => 5
    case AskNationalId => 6
    case AskBaggage => 7
    case AskFlightNumber => 8
    case Confirm => 9
    case WaitForFinalConfirm => 10
    case ShowQR => 11
  }

  /** The script only moves forward, by at most one step, except for the loop
      from the baggage question back to the next passenger's name. */
  lemma Forward(fl: Flow, text: string)
    requires Inv(fl)
    ensures var s := Transition(fl, text).0.step;
            || s == fl.step
            || Order(s) == Order(fl.step) + 1
            || (fl.step == AskBaggage && s == AskName && Transition(fl, text).0.current == fl.current + 1)
            || (fl.step == AskBaggage && s == AskFlightNumber)
  {
  }

  /** An eleven-digit national ID is refused outright. */
  lemma ElevenDigitIdRefused(text: string)
    requires |text| == 11 && AllDigits(text)
    ensures ExtractNationalId(text) == []
  {
    ElevenDigitsNoBoundedMatch(text);
  }
}
