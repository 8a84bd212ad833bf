/** The stand-alone recorder: a voice-activity gate that starts recording on
    speech and stops it after a stretch of silence, and the word filter applied
    to the transcription it gets back. */
module Recorder {
  import opened Text

  type Byte = x: int | 0 <= x < 256

  // ------------------------------------------------------------ voice activity

  /** The level of silence in a time-domain sample, and how far from it a
      sample must be to count as sound. */
  const Silence: int := 128
  const SpeechMargin: int := 10

  predicate Loud(v: Byte) {
    v - Silence > SpeechMargin || Silence - v > SpeechMargin
  }

  /** `data.some(v => Math.abs(v - 128) > 10)`. */
  function IsSpeaking(samples: seq<Byte>): (b: bool)
    ensures b <==> exists i :: 0 <= i < |samples| && Loud(samples[i])
  {
    if |samples| == 0 then false
    else if Loud(samples[0]) then true
    else
      assert forall i :: 1 <= i < |samples| ==> samples[i] == samples[1..][i - 1];
      IsSpeaking(samples[1..])
  }

  /** The recorder's own states; the gate never pauses it. */
  datatype RecorderState = Inactive | Recording | Paused

  /** The silence timer: none, armed, or fired with its handle still held. */
  datatype Timer = NoTimer | Pending | Fired

  datatype Gate = Gate(recorder: RecorderState, timer: Timer)

  const InitialGate := Gate(Inactive, NoTimer)

  /** The delay of silence after which recording stops. */
  const SilenceDelayMs: nat := 1500

  /** One analysis frame. Speech starts an inactive recorder and drops any
      timer; silence while recording with no timer held arms one. */
  function Detect(g: Gate, speaking: bool): (r: Gate)
    ensures speaking ==> r.timer == NoTimer
    ensures speaking && g.recorder == Inactive ==> r.recorder == Recording
    ensures speaking && g.recorder != Inactive ==> r.recorder == g.recorder
    ensures !speaking && g.recorder == Recording && g.timer == NoTimer ==> r == Gate(Recording, Pending)
    ensures !speaking && !(g.recorder == Recording && g.timer == NoTimer) ==> r == g
  {
    if speaking then
      Gate(if g.recorder == Inactive then Recording else g.recorder, NoTimer)
    else if g.recorder == Recording && g.timer == NoTimer then
      Gate(Recording, Pending)
    else g
  }

  /** The armed timer fires: the recorder is stopped and the handle is kept,
      not cleared. Without an armed timer nothing fires. */
  function Fire(g: Gate): (r: Gate)
    ensures g.timer == Pending ==> r == Gate(Inactive, Fired)
    ensures g.timer != Pending ==> r == g
  {
    if g.timer == Pending then Gate(Inactive, Fired) else g
  }

  /** States the gate can reach: an armed timer means the recorder is
      recording, a fired one that it is stopped, and it is never paused. */
  predicate GateInv(g: Gate) {
    && g.recorder != Paused
    && (g.timer == Pending ==> g.recorder == Recording)
    && (g.timer == Fired ==> g.recorder == Inactive)
  }

  datatype Event = AnalysisFrame(speaking: bool) | TimerFires

  function Step(g: Gate, e: Event): Gate {
    match e
    case AnalysisFrame(speaking) => Detect(g, speaking)
    case TimerFires => Fire(g)
  }

  function Run(g: Gate, events: seq<Event>): Gate
    decreases |events|
  {
    if |events| == 0 then g else Run(Step(g, events[0]), events[1..])
  }

  /** From the initial state, whatever frames and timer events arrive, the
      invariant holds, so the timer only ever stops a recording recorder and
      a start only ever happens on an inactive one. */
  lemma {:induction false} GateInvariant(g: Gate, events: seq<Event>)
    requires GateInv(g)
    ensures GateInv(Run(g, events))
    decreases |events|
  {
    if |events| > 0 {
      StepKeepsInv(g, events[0]);
      GateInvariant(Step(g, events[0]), events[1..]);
    }
  }

  lemma StepKeepsInv(g: Gate, e: Event)
    requires GateInv(g)
    ensures GateInv(Step(g, e))
    ensures e == TimerFires && g.timer == Pending ==> g.recorder == Recording
  {
  }

  /** The kept handle of a fired timer is harmless: the next speech frame
      restarts recording and clears it, and silence in between arms nothing. */
  lemma FiredHandleHarmless(g: Gate)
    requires GateInv(g) && g.timer == Fired
    ensures Detect(g, false) == g
    ensures Detect(g, true) == Gate(Recording, NoTimer)
  {
  }

  // ------------------------------------------------------------ word filter

  const MusicWord := "موسیقی"   // "music"
  const SongWord := "آهنگ"      // "song"
  const SoundWord := "صدا"      // "sound"

  /** `s.replace(new RegExp(w, "g"), "")`: a left-to-right scan that deletes
      each non-overlapping occurrence of `w`. The case-insensitive flag has no
      effect on these words, whose letters have no case. */
  function RemoveAll(s: string, w: string): (r: string)
    requires |w| > 0
    ensures |r| <= |s|
    decreases |s|
  {
    if |s| < |w| then s
    else if s[..|w|] == w then RemoveAll(s[|w|..], w)
    else [s[0]] + RemoveAll(s[1..], w)
  }

  /** Deletion only: every letter of the result, with its multiplicity, comes
      from the input. */
  lemma {:induction false} RemoveAllOnlyDeletes(s: string, w: string)
    requires |w| > 0
    ensures multiset(RemoveAll(s, w)) <= multiset(s)
    decreases |s|
  {
    if |s| >= |w| {
      if s[..|w|] == w {
        RemoveAllOnlyDeletes(s[|w|..], w);
        assert s == s[..|w|] + s[|w|..];
      } else {
        RemoveAllOnlyDeletes(s[1..], w);
        assert s == [s[0]] + s[1..];
      }
    }
  }

  /** Text without the word is left as it is. */
  lemma {:induction false} RemoveAllAbsent(s: string, w: string)
    requires |w| > 0 && !Contains(s, w)
    ensures RemoveAll(s, w) == s
    decreases |s|
  {
    if |s| >= |w| {
      ContainsIff(s, w);
      assert !OccursAt(s, w, 0);
      assert s[0..|w|] == s[..|w|];
      forall i | 0 <= i && i + |w| <= |s| - 1 ensures !OccursAt(s[1..], w, i) {
        assert s[1..][i..i + |w|] == s[i + 1..i + 1 + |w|];
        assert !OccursAt(s, w, i + 1);
      }
      ContainsIff(s[1..], w);
      RemoveAllAbsent(s[1..], w);
      assert [s[0]] + s[1..] == s;
    }
  }

  /** Text that holds the word somewhere comes out strictly shorter: the scan
      either deletes a copy before reaching it or deletes it. */
  lemma {:induction false} RemoveAllShrinks(s: string, w: string, i: int)
    requires |w| > 0 && OccursAt(s, w, i)
    ensures |RemoveAll(s, w)| < |s|
    decreases |s|
  {
    if s[..|w|] != w {
      assert i != 0 by {
        assert s[0..|w|] == s[..|w|];
      }
      assert s[1..][i - 1..i - 1 + |w|] == s[i..i + |w|];
      RemoveAllShrinks(s[1..], w, i - 1);
    }
  }

  /** The word followed by anything loses that copy. */
  lemma RemoveAllLeading(w: string, rest: string)
    requires |w| > 0
    ensures RemoveAll(w + rest, w) == RemoveAll(rest, w)
  {
    assert (w + rest)[..|w|] == w;
    assert (w + rest)[|w|..] == rest;
  }

  /** `filterWords`: the three banned words are deleted in list order and the
      result is trimmed. */
  function FilterWords(text: string): (r: string)
    ensures |r| <= |text| && IsTrimmed(r)
  {
    Trim(RemoveAll(RemoveAll(RemoveAll(text, MusicWord), SongWord), SoundWord))
  }

  /** A trimmed transcription containing none of the words passes unchanged. */
  lemma CleanTextUnchanged(text: string)
    requires IsTrimmed(text)
    requires !Contains(text, MusicWord) && !Contains(text, SongWord) && !Contains(text, SoundWord)
    ensures FilterWords(text) == text
  {
    RemoveAllAbsent(text, MusicWord);
    RemoveAllAbsent(text, SongWord);
    RemoveAllAbsent(text, SoundWord);
    TrimCharacterization(text);
  }

  /** A word whose first letter does not occur in the text does not occur. */
  lemma FirstLetterAbsent(s: string, w: string)
    requires |w| > 0 && forall i :: 0 <= i < |s| ==> s[i] != w[0]
    ensures !Contains(s, w)
  {
    forall i | 0 <= i && i + |w| <= |s| ensures !OccursAt(s, w, i) {
      assert s[i..i + |w|][0] == s[i];
    }
    ContainsIff(s, w);
  }

  /** Deleting a three-letter word from between two letters and one letter
      leaves the three letters, when neither earlier start matches. */
  lemma RemoveMiddle(x: char, y: char, z: char, a: char, b: char, c: char)
    requires [x, y, a] != [a, b, c] && [y, a, b] != [a, b, c]
    ensures RemoveAll([x, y, a, b, c, z], [a, b, c]) == [x, y, z]
  {
    var w := [a, b, c];
    var s := [x, y, a, b, c, z];
    assert s[..3] == [x, y, a] && s[1..] == [y, a, b, c, z];
    NoMatchHere(s, w);
    var s1 := [y, a, b, c, z];
    assert s1[..3] == [y, a, b] && s1[1..] == [a, b, c, z];
    NoMatchHere(s1, w);
    assert [a, b, c, z] == w + [z];
    RemoveAllLeading(w, [z]);
    var tail := RemoveAll([z], w);
    assert tail == [z];
    var r1 := RemoveAll(s1, w);
    assert r1 == [y] + tail;
    assert RemoveAll(s, w) == [x] + r1;
    ThreeLetters(x, y, z);
  }

  lemma ThreeLetters(x: char, y: char, z: char)
    ensures [x] + ([y] + [z]) == [x, y, z]
  {
  }

  /** Without a match at the front the first letter is kept. */
  lemma NoMatchHere(s: string, w: string)
    requires 0 < |w| <= |s| && s[..|w|] != w
    ensures RemoveAll(s, w) == [s[0]] + RemoveAll(s[1..], w)
  {
  }

  /** The letters of the example. */
  const Sad: char := 'ص'
  const Dal: char := 'د'
  const Alef: char := 'ا'

  /** One pass does not guarantee the words are gone: deleting the inner
      copy of "صدا" from "صدصداا" joins its neighbours into another. */
  lemma BannedWordCanRemain()
    ensures var s := [Sad, Dal] + SoundWord + [Alef];
            FilterWords(s) == SoundWord && Contains(FilterWords(s), SoundWord)
  {
    var s := [Sad, Dal] + SoundWord + [Alef];
    assert SoundWord == [Sad, Dal, Alef];
    assert s == [Sad, Dal, Sad, Dal, Alef, Alef];
    FirstLetterAbsent(s, MusicWord);
    FirstLetterAbsent(s, SongWord);
    RemoveAllAbsent(s, MusicWord);
    RemoveAllAbsent(s, SongWord);
    RemoveMiddle(Sad, Dal, Alef, Sad, Dal, Alef);
    assert RemoveAll(RemoveAll(RemoveAll(s, MusicWord), SongWord), SoundWord) == SoundWord;
    SoundWordTrimmed();
    assert StartsWith(SoundWord, SoundWord);
  }

  lemma SoundWordTrimmed()
    ensures Trim(SoundWord) == SoundWord
  {
    assert !IsSpace(Sad) && !IsSpace(Alef);
    assert IsTrimmed(SoundWord);
    TrimCharacterization(SoundWord);
  }
}
