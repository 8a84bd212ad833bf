/** The handful of regular expressions the dialogue code tests and matches
    with, each written out as the decomposition of the text that makes it
    match, plus the leftmost-match searches behind `match`. */
module Patterns {
  import opened Common
  import opened Text

  // ------------------------------------------------------------ keywords

  const NameWord := "نام"            // "name"
  const AirportWord := "فرودگاه"     // "airport"
  const KindWord := "نوع"            // "type"
  const FlightWord := "پرواز"        // "flight"
  const TripWord := "سفر"            // "trip"
  const DateWord := "تاریخ"          // "date"
  const NumberWord := "شماره"        // "number"
  const PassengerWord := "مسافر"     // "passenger"
  const CodeWord := "کد"             // "code"
  const NationalWord := "ملی"        // "national"
  const CountWord := "تعداد"         // "count"
  const SuitcaseWord := "چمدان"      // "suitcase"
  const InboundWord := "ورودی"       // "inbound"
  const OutboundWord := "خروجی"      // "outbound"
  const ConfirmWord := "تأیید"       // "confirm"
  const YesWord := "بله"             // "yes"

  // ------------------------------------------------------------ tests

  /** `w1` at `i`, `w2` at `k`, and between them whitespace only, at least
      `minGap` characters of it: one way for `w1\s+w2` (`minGap` 1) or
      `w1\s*w2` (`minGap` 0) to match. */
  predicate SpacedAt(s: string, w1: string, w2: string, minGap: nat, i: int, k: int) {
    && OccursAt(s, w1, i) && OccursAt(s, w2, k)
    && i + |w1| + minGap <= k
    && AllSpaces(s[i + |w1|..k])
  }

  /** `/w1\s+w2/.test(s)` (`minGap` 1) or `/w1\s*w2/.test(s)` (`minGap` 0). */
  predicate Spaced(s: string, w1: string, w2: string, minGap: nat) {
    exists i, k | 0 <= i <= k <= |s| :: SpacedAt(s, w1, w2, minGap, i, k)
  }

  /** `w1` at `i`, `w2` at `k`, and no line terminator in between: one way for
      `w1.*w2` to match. */
  predicate DotStarAt(s: string, w1: string, w2: string, i: int, k: int) {
    && OccursAt(s, w1, i) && OccursAt(s, w2, k)
    && i + |w1| <= k
    && forall m :: i + |w1| <= m < k ==> !IsLineTerminator(s[m])
  }

  /** `/w1.*w2/.test(s)`. */
  predicate DotStar(s: string, w1: string, w2: string) {
    exists i, k | 0 <= i <= k <= |s| :: DotStarAt(s, w1, w2, i, k)
  }

  /** Allowing more whitespace never hurts: `w1\s+w2` matching implies
      `w1\s*w2` matching. */
  lemma SpacedWeaken(s: string, w1: string, w2: string)
    requires Spaced(s, w1, w2, 1)
    ensures Spaced(s, w1, w2, 0)
  {
    var i, k :| 0 <= i <= k <= |s| && SpacedAt(s, w1, w2, 1, i, k);
    assert SpacedAt(s, w1, w2, 0, i, k);
  }

  /** `\s*` also accepts no whitespace at all: the two words written together match. */
  lemma AdjacentWords(w1: string, w2: string)
    ensures Spaced(w1 + w2, w1, w2, 0)
  {
    var s := w1 + w2;
    assert s[..|w1|] == w1 && s[|w1|..|w1| + |w2|] == w2 && s[|w1|..|w1|] == [];
    assert SpacedAt(s, w1, w2, 0, 0, |w1|);
  }

  // ------------------------------------------------------------ matches

  /** What a leftmost search is looking for. */
  datatype Target =
    | TenDigits        // `\d{10}`
    | BoundedTenDigits // `\b\d{10}\b`
    | Digit            // the first character of `\d+`

  predicate TenAt(s: string, i: int) {
    0 <= i && i + 10 <= |s| && AllDigits(s[i..i + 10])
  }

  /** A word boundary sits just before position `i`; since the character at
      `i` is a digit, that means the one before it is not a word character. */
  predicate BoundaryBefore(s: string, i: int)
    requires 0 <= i <= |s|
  {
    i == 0 || !IsWordChar(s[i - 1])
  }

  predicate BoundaryAfter(s: string, j: int)
    requires 0 <= j <= |s|
  {
    j == |s| || !IsWordChar(s[j])
  }

  predicate At(t: Target, s: string, i: int) {
    match t
    case TenDigits => TenAt(s, i)
    case BoundedTenDigits => TenAt(s, i) && BoundaryBefore(s, i) && BoundaryAfter(s, i + 10)
    case Digit => 0 <= i < |s| && IsDigit(s[i])
  }

  /** The leftmost position at or after `from` where the target starts. */
  function Find(t: Target, s: string, from: nat): (r: Option<nat>)
    ensures r.Some? ==> from <= r.value < |s| && At(t, s, r.value)
    ensures r.Some? ==> forall j :: from <= j < r.value ==> !At(t, s, j)
    ensures r.None? ==> forall j :: from <= j ==> !At(t, s, j)
    decreases |s| - from
  {
    if from >= |s| then None
    else if At(t, s, from) then Some(from)
    else Find(t, s, from + 1)
  }

  function TenTarget(bounded: bool): Target {
    if bounded then BoundedTenDigits else TenDigits
  }

  /** `s.match(/\d{10}/)?.[0] || ""` (and with `\b` on both sides when
      `bounded`): the leftmost ten-digit window, or the empty string. */
  function MatchTen(s: string, bounded: bool): (r: string)
    ensures r == [] || (|r| == 10 && AllDigits(r))
    ensures r == [] <==> forall j :: !At(TenTarget(bounded), s, j)
    ensures r != [] ==> exists i :: At(TenTarget(bounded), s, i) && s[i..i + 10] == r
                                    && forall j :: 0 <= j < i ==> !At(TenTarget(bounded), s, j)
  {
    match Find(TenTarget(bounded), s, 0)
    case Some(i) => s[i..i + 10]
    case None => []
  }

  /** End of the maximal digit run starting at `p`. */
  function DigitRunEnd(s: string, p: nat): (e: nat)
    requires p <= |s|
    ensures p <= e <= |s| && AllDigits(s[p..e]) && (e == |s| || !IsDigit(s[e]))
    decreases |s| - p
  {
    if p < |s| && IsDigit(s[p]) then
      var e := DigitRunEnd(s, p + 1);
      assert s[p..e] == [s[p]] + s[p + 1..e];
      e
    else p
  }

  /** `r` is the digit run that starts at `i`: no digit comes before it and
      it cannot be extended. */
  predicate FirstRunAt(s: string, r: string, i: int) {
    && 0 <= i && i + |r| <= |s| && s[i..i + |r|] == r
    && (forall j :: 0 <= j < i ==> !IsDigit(s[j]))
    && (i + |r| == |s| || !IsDigit(s[i + |r|]))
  }

  /** Every character the run covers is a digit. */
  lemma RunDigits(s: string, r: string, i: int)
    requires FirstRunAt(s, r, i) && AllDigits(r)
    ensures forall k :: i <= k < i + |r| ==> IsDigit(s[k])
  {
    forall k | i <= k < i + |r| ensures IsDigit(s[k]) {
      assert s[k] == r[k - i];
    }
  }

  /** A string has at most one first non-empty digit run. */
  lemma FirstRunUnique(s: string, r1: string, i1: int, r2: string, i2: int)
    requires FirstRunAt(s, r1, i1) && r1 != [] && AllDigits(r1)
    requires FirstRunAt(s, r2, i2) && r2 != [] && AllDigits(r2)
    ensures i1 == i2 && r1 == r2
  {
    RunDigits(s, r1, i1);
    RunDigits(s, r2, i2);
    assert IsDigit(s[i1]) && IsDigit(s[i2]);
    assert i1 + |r1| < |s| ==> !IsDigit(s[i1 + |r1|]);
    assert i2 + |r2| < |s| ==> !IsDigit(s[i2 + |r2|]);
  }

  /** `s.match(/\d+/)?.[0]`, with the empty string for no match: the first
      maximal run of digits. */
  function FirstDigitRun(s: string): (r: string)
    ensures AllDigits(r)
    ensures r == [] <==> forall j :: 0 <= j < |s| ==> !IsDigit(s[j])
    ensures r != [] ==> exists i :: FirstRunAt(s, r, i)
  {
    match Find(Digit, s, 0)
    case Some(i) =>
      var e := DigitRunEnd(s, i);
      assert s[i..e][0] == s[i];
      forall j | 0 <= j < i ensures !IsDigit(s[j]) {
        assert !At(Digit, s, j);
      }
      assert i + |s[i..e]| == e;
      assert FirstRunAt(s, s[i..e], i);
      s[i..e]
    case None =>
      forall j | 0 <= j < |s| ensures !IsDigit(s[j]) {
        assert !At(Digit, s, j);
      }
      []
  }

  /** An eleven-digit run contains no bounded ten-digit match: `\b` rules out
      every window inside it. */
  lemma ElevenDigitsNoBoundedMatch(s: string)
    requires |s| == 11 && AllDigits(s)
    ensures MatchTen(s, true) == []
    ensures MatchTen(s, false) == s[..10]
  {
    forall j ensures !At(BoundedTenDigits, s, j) {
      if TenAt(s, j) {
        if j == 0 {
          assert IsDigit(s[10]);
        } else {
          assert IsDigit(s[j - 1]);
        }
      }
    }
    assert At(TenDigits, s, 0);
  }
}
