/** The Iranian national-ID checksum: ten ASCII digits, the last of which is a
    mod-11 check digit over the first nine weighted 10 down to 2. */
module NationalId {
  import opened Text

  /** The first `n` digits of `s`, weighted 10, 9, ... from the left. */
  function WeightedSum(s: string, n: nat): nat
    requires n <= |s| && n <= 9 && AllDigits(s[..n])
  {
    if n == 0 then 0
    else
      assert s[..n - 1] == s[..n][..n - 1] && s[n - 1] == s[..n][n - 1];
      WeightedSum(s, n - 1) + DigitValue(s[n - 1]) * (10 - (n - 1))
  }

  /** The weighted sum of the nine leading digits, reduced mod 11. */
  function Remainder(s: string): (r: nat)
    requires |s| >= 9 && AllDigits(s[..9])
    ensures r <= 10
  {
    WeightedSum(s, 9) % 11
  }

  /** The only final digit that validates after a given remainder. */
  function CheckDigitFor(sum: nat): (d: nat)
    requires sum <= 10
    ensures d <= 9
  {
    if sum < 2 then sum else 11 - sum
  }

  /** `isValidIranianNationalId`: exactly ten ASCII digits, and the last one
      agrees with the remainder of the nine before it. */
  function IsValid(nid: string): (ok: bool)
    ensures ok ==> |nid| == 10 && AllDigits(nid)
    ensures ok <==> |nid| == 10 && AllDigits(nid) &&
                    var sum := Remainder(nid);
                    var check := DigitValue(nid[9]);
                    (sum < 2 && check == sum) || (sum >= 2 && check == 11 - sum)
  {
    if !(|nid| == 10 && AllDigits(nid)) then false
    else
      assert AllDigits(nid[..9]);
      DigitValue(nid[9]) == CheckDigitFor(Remainder(nid))
  }

  /** The check digit only looks at the nine-digit prefix. */
  lemma RemainderOfPrefix(p: string, c: char)
    requires |p| == 9 && AllDigits(p) && IsDigit(c)
    ensures AllDigits((p + [c])[..9]) && Remainder(p + [c]) == Remainder(p)
  {
    var s := p + [c];
    assert s[..9] == p;
    WeightedSumPrefix(s, p, 9);
  }

  lemma {:induction false} WeightedSumPrefix(s: string, p: string, n: nat)
    requires n <= |p| && n <= |s| && n <= 9 && s[..n] == p[..n] && AllDigits(p[..n])
    ensures WeightedSum(s, n) == WeightedSum(p, n)
  {
    if n > 0 {
      assert s[..n - 1] == s[..n][..n - 1] && p[..n - 1] == p[..n][..n - 1];
      assert s[n - 1] == s[..n][n - 1] && p[n - 1] == p[..n][n - 1];
      WeightedSumPrefix(s, p, n - 1);
    }
  }

  /** Every nine-digit prefix is completed to a valid ID by exactly one digit. */
  lemma UniqueCheckDigit(p: string, c: char)
    requires |p| == 9 && AllDigits(p) && IsDigit(c)
    ensures IsValid(p + [c]) <==> DigitValue(c) == CheckDigitFor(Remainder(p))
  {
    RemainderOfPrefix(p, c);
    assert (p + [c])[9] == c;
    assert AllDigits(p + [c]);
  }

  /** The completing digit exists for every prefix. */
  lemma CheckDigitExists(p: string)
    requires |p| == 9 && AllDigits(p)
    ensures IsDigit(DigitChar(CheckDigitFor(Remainder(p))))
    ensures IsValid(p + [DigitChar(CheckDigitFor(Remainder(p)))])
  {
    var c := DigitChar(CheckDigitFor(Remainder(p)));
    UniqueCheckDigit(p, c);
  }

  /** There is no rule against repeated digits: ten zeros pass. */
  lemma AllZerosValid()
    ensures IsValid("0000000000")
  {
    var s := "0000000000";
    assert AllDigits(s);
    assert WeightedSum(s, 9) == 0;
  }

  /** A weight-by-weight example: 1·10 + 2·9 + … + 9·2 = 210 ≡ 1 (mod 11), and a
      remainder below 2 is its own check digit. */
  lemma ExampleValid()
    ensures IsValid("1234567891") && !IsValid("1234567892")
  {
    var s := "1234567891";
    var t := "1234567892";
    assert AllDigits(s) && AllDigits(t);
    assert WeightedSum(s, 9) == 210;
    assert s[..9] == t[..9];
    WeightedSumPrefix(t, s, 9);
  }
}

/** The confirm form's schema, as the issues its validator reports. */
module TicketForm {
  import opened Text
  import NationalId

  datatype Passenger = Passenger(fullName: string, nationalId: string, luggageCount: int)

  datatype Form = Form(airportName: string, travelDate: string, flightNumber: string,
                       passengers: seq<Passenger>)

  /** Which input an issue is attached to. */
  datatype Field =
    | AirportName | TravelDate | FlightNumber | PassengerList
    | FullName(index: nat) | NationalIdField(index: nat) | LuggageCount(index: nat)

  /** The rule that failed. */
  datatype Rule = TooShort | TooLong | NotTenDigits | BadChecksum | Negative

  datatype Issue = Issue(field: Field, rule: Rule)

  datatype Outcome = Accepted(data: Form) | Rejected(issues: seq<Issue>)

  // ---------------------------------------------------------- the rules

  predicate ValidPassenger(p: Passenger) {
    && |p.fullName| >= 2
    && |p.nationalId| == 10 && AllDigits(p.nationalId)
    && NationalId.IsValid(p.nationalId)
    && p.luggageCount >= 0
  }

  predicate ValidForm(f: Form) {
    && |f.airportName| >= 2
    && |f.travelDate| >= 1
    && |f.flightNumber| >= 2
    && |f.passengers| >= 1
    && forall i :: 0 <= i < |f.passengers| ==> ValidPassenger(f.passengers[i])
  }

  // ---------------------------------------------------------- the validator

  /** The issue `x` when the failure condition `c` holds, nothing otherwise. */
  function IssueIf(c: bool, x: Issue): seq<Issue> { if c then [x] else [] }

  /** Every check of the passenger schema runs; the checksum refinement runs
      even after a length or pattern failure. */
  function PassengerIssues(p: Passenger, i: nat): (r: seq<Issue>)
    ensures r == [] <==> ValidPassenger(p)
    ensures forall x :: x in r ==> x.field in {FullName(i), NationalIdField(i), LuggageCount(i)}
  {
    var id := p.nationalId;
    IssueIf(|p.fullName| < 2, Issue(FullName(i), TooShort))
    + IssueIf(|id| < 10, Issue(NationalIdField(i), TooShort))
    + IssueIf(|id| > 10, Issue(NationalIdField(i), TooLong))
    + IssueIf(!(|id| == 10 && AllDigits(id)), Issue(NationalIdField(i), NotTenDigits))
    + IssueIf(!NationalId.IsValid(id), Issue(NationalIdField(i), BadChecksum))
    + IssueIf(p.luggageCount < 0, Issue(LuggageCount(i), Negative))
  }

  function PassengersIssues(ps: seq<Passenger>, from: nat): (r: seq<Issue>)
    ensures r == [] <==> forall i :: 0 <= i < |ps| ==> ValidPassenger(ps[i])
    decreases |ps|
  {
    if |ps| == 0 then []
    else
      var rest := PassengersIssues(ps[1..], from + 1);
      assert forall i :: 1 <= i < |ps| ==> ps[i] == ps[1..][i - 1];
      PassengerIssues(ps[0], from) + rest
  }

  /** All issues of a form, in schema order. */
  function FormIssues(f: Form): (r: seq<Issue>)
    ensures r == [] <==> ValidForm(f)
  {
    IssueIf(|f.airportName| < 2, Issue(AirportName, TooShort))
    + IssueIf(|f.travelDate| < 1, Issue(TravelDate, TooShort))
    + IssueIf(|f.flightNumber| < 2, Issue(FlightNumber, TooShort))
    + IssueIf(|f.passengers| < 1, Issue(PassengerList, TooShort))
    + PassengersIssues(f.passengers, 0)
  }

  /** Submitting: the form's data reaches `onConfirm` unchanged when every rule
      holds; otherwise the issues are reported and nothing is confirmed. */
  function Submit(f: Form): (o: Outcome)
    ensures o.Accepted? <==> ValidForm(f)
    ensures o.Accepted? ==> o.data == f
    ensures o.Rejected? ==> |o.issues| > 0
  {
    var issues := FormIssues(f);
    if issues == [] then Accepted(f) else Rejected(issues)
  }
}
