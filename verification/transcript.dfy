/** What happens to a recognised utterance before it reaches the avatar: the
    session's echo filter and national-ID retry counter, and the speech hook's
    own filter and recogniser start/stop decisions. */
module Transcript {
  import opened Common
  import opened Text
  import opened Normalize
  import opened EditDistance
  import opened Patterns
  import opened MessageLog
  import Reservation
  import NationalId

  // ------------------------------------------------------------ the session

  const MaxNidRetry: nat := 3

  /** The echo threshold on the similarity ratio. */
  const EchoThreshold: real := 0.6

  /** What the session sends on the user's behalf: the utterance itself, or
      one of the two fixed national-ID complaints. */
  datatype Sent = UserText(text: string) | InvalidNationalId | NationalIdGivenUp

  datatype Session = Session(ticket: Reservation.Ticket, nidRetry: nat)

  /** The optional collaborators `handleTranscript` is given. */
  datatype Options = Options(hasAvatar: bool, hasSendMessage: bool)

  datatype Outcome = Outcome(session: Session, sent: seq<Sent>)

  /** The cleaned-up utterance is taken for the avatar's own voice: it is not
      empty, and it is close to, or contained in, the avatar's last words. */
  predicate IsEcho(userText: string, avatarText: string): (e: bool)
    ensures e <==> userText != [] && (Similarity(userText, avatarText) > EchoThreshold
                                      || exists i :: OccursAt(avatarText, userText, i))
  {
    ContainsIff(avatarText, userText);
    |userText| > 0 && (Similarity(userText, avatarText) > EchoThreshold || Contains(avatarText, userText))
  }

  /** The last prompt asked for a national ID (`کد\s*ملی`). */
  predicate AsksNationalId(avatarText: string) {
    Spaced(avatarText, CodeWord, NationalWord, 0)
  }

  /** The ID check after a reply to an ID prompt: a valid ID resets the retry
      counter; an invalid one complains and counts up to the maximum, then
      gives up and resets. */
  function NidCheck(retry: nat, text: string): (r: (nat, seq<Sent>))
    ensures NationalId.IsValid(DigitsOf(text)) ==> r == (0, [])
    ensures !NationalId.IsValid(DigitsOf(text)) && retry < MaxNidRetry ==> r == (retry + 1, [InvalidNationalId])
    ensures !NationalId.IsValid(DigitsOf(text)) && retry >= MaxNidRetry ==> r == (0, [NationalIdGivenUp])
    ensures retry <= MaxNidRetry ==> r.0 <= MaxNidRetry
  {
    if !NationalId.IsValid(DigitsOf(text)) then
      if retry < MaxNidRetry then (retry + 1, [InvalidNationalId])
      else (0, [NationalIdGivenUp])
    else (0, [])
  }

  /** The decision `handleTranscript` takes once both texts are normalised:
      an echo, or missing collaborators, or a talking avatar, sends nothing
      and changes nothing; otherwise the raw utterance goes out first, the
      ticket is updated from it, and after an ID prompt the ID check may add
      one complaint. */
  function Respond(s: Session, text: string, userText: string, avatarText: string,
                   opts: Options, talking: bool): (o: Outcome)
    ensures IsEcho(userText, avatarText) ==> o == Outcome(s, [])
    ensures !(opts.hasAvatar && !talking && opts.hasSendMessage) ==> o == Outcome(s, [])
    ensures o.sent != [] <==> !IsEcho(userText, avatarText) && opts.hasAvatar && !talking && opts.hasSendMessage
    ensures o.sent == [] ==> o.session == s
    ensures o.sent != [] ==>
              && o.sent[0] == UserText(text) && |o.sent| <= 2
              && o.session.ticket == Reservation.UpdateInfo(s.ticket, avatarText, text)
    ensures o.sent != [] && !AsksNationalId(avatarText) ==> o.session.nidRetry == s.nidRetry && |o.sent| == 1
    ensures o.sent != [] && AsksNationalId(avatarText) ==> (o.session.nidRetry, o.sent[1..]) == NidCheck(s.nidRetry, text)
    ensures s.nidRetry <= MaxNidRetry ==> o.session.nidRetry <= MaxNidRetry
  {
    if IsEcho(userText, avatarText) then Outcome(s, [])
    else if !(opts.hasAvatar && !talking && opts.hasSendMessage) then Outcome(s, [])
    else
      var ticket := Reservation.UpdateInfo(s.ticket, avatarText, text);
      if AsksNationalId(avatarText) then
        var (retry, extra) := NidCheck(s.nidRetry, text);
        assert ([UserText(text)] + extra)[1..] == extra;
        Outcome(Session(ticket, retry), [UserText(text)] + extra)
      else
        Outcome(Session(ticket, s.nidRetry), [UserText(text)])
  }

  /** `handleTranscript(text, options)`: `lastAvatarRaw` is the remembered last
      avatar message and `talking` whether the avatar is speaking. The user's
      side is de-duplicated and normalised, the avatar's normalised; an
      utterance that goes out goes out first and unchanged. */
  function HandleTranscript(s: Session, text: string, lastAvatarRaw: string,
                            opts: Options, talking: bool): (o: Outcome)
    ensures o.sent == [] ==> o.session == s
    ensures o.sent != [] ==> o.sent[0] == UserText(text) && |o.sent| <= 2
    ensures s.nidRetry <= MaxNidRetry ==> o.session.nidRetry <= MaxNidRetry
  {
    Respond(s, text, NormalizeText(RemoveConsecutiveDuplicates(text)), NormalizeText(lastAvatarRaw), opts, talking)
  }

  /** An utterance that normalises to nothing is never taken for an echo. */
  lemma EmptyNeverEcho(userText: string, avatarText: string)
    requires userText == []
    ensures !IsEcho(userText, avatarText)
  {
  }

  /** Repeating the avatar's own words back is always filtered. */
  lemma OwnWordsAreEcho(userText: string, avatarText: string)
    requires userText == avatarText && userText != []
    ensures IsEcho(userText, avatarText)
  {
    assert Similarity(userText, avatarText) == 1.0;
  }

  /** The retry counter never leaves 0..3, however many utterances arrive. */
  lemma {:induction false} RetryBounded(s: Session, texts: seq<string>, lastAvatarRaw: string,
                                       opts: Options, talking: bool)
    requires s.nidRetry <= MaxNidRetry
    ensures RunTranscripts(s, texts, lastAvatarRaw, opts, talking).nidRetry <= MaxNidRetry
    decreases |texts|
  {
    if |texts| > 0 {
      var s1 := HandleTranscript(s, texts[0], lastAvatarRaw, opts, talking).session;
      RetryBounded(s1, texts[1..], lastAvatarRaw, opts, talking);
    }
  }

  /** Utterances handled one after another under the same prompt. */
  function RunTranscripts(s: Session, texts: seq<string>, lastAvatarRaw: string,
                          opts: Options, talking: bool): Session
    decreases |texts|
  {
    if |texts| == 0 then s
    else RunTranscripts(HandleTranscript(s, texts[0], lastAvatarRaw, opts, talking).session,
                        texts[1..], lastAvatarRaw, opts, talking)
  }

  /** Under an ID prompt, invalid replies count 1, 2, 3 and the fourth gives up. */
  lemma FourthInvalidGivesUp(text: string)
    requires !NationalId.IsValid(DigitsOf(text))
    ensures NidCheck(0, text).0 == 1 && NidCheck(1, text).0 == 2 && NidCheck(2, text).0 == 3
    ensures NidCheck(3, text) == (0, [NationalIdGivenUp])
  {
  }

  // ------------------------------------------------------------ the speech hook

  /** The sum of the lengths of the results from `from` on. */
  function TotalLength(results: seq<string>, from: nat): nat
    decreases |results| - from
  {
    if from >= |results| then 0 else |results[from]| + TotalLength(results, from + 1)
  }

  /** The transcript of a recognition event: the results from `resultIndex`
      on, concatenated. Nothing is added or dropped: its length is the sum of
      theirs. */
  function ResultTranscript(results: seq<string>, resultIndex: nat): (r: string)
    ensures |r| == TotalLength(results, resultIndex)
    decreases |results| - resultIndex
  {
    if resultIndex >= |results| then [] else results[resultIndex] + ResultTranscript(results, resultIndex + 1)
  }

  /** Each result from `resultIndex` on appears in the transcript, in order,
      right after the results before it. */
  lemma {:induction false} ResultInTranscript(results: seq<string>, resultIndex: nat, k: nat)
    requires resultIndex <= k < |results|
    ensures var r := ResultTranscript(results, resultIndex);
            var off := TotalLength(results, resultIndex) - TotalLength(results, k);
            0 <= off && off + |results[k]| <= |r| && r[off..off + |results[k]|] == results[k]
    decreases k - resultIndex
  {
    var r := ResultTranscript(results, resultIndex);
    if resultIndex == k {
      assert r == results[k] + ResultTranscript(results, k + 1);
      assert r[..|results[k]|] == results[k];
    } else {
      ResultInTranscript(results, resultIndex + 1, k);
      var rest := ResultTranscript(results, resultIndex + 1);
      var off' := TotalLength(results, resultIndex + 1) - TotalLength(results, k);
      var n := |results[resultIndex]|;
      assert r == results[resultIndex] + rest;
      assert r[n + off'..n + off' + |results[k]|] == rest[off'..off' + |results[k]|];
    }
  }

  /** The text the hook compares against: the newest avatar message, or the
      empty string. */
  function ReferenceText(ms: seq<Message>): (r: string)
    ensures (forall i :: 0 <= i < |ms| ==> ms[i].sender != Avatar) ==> r == []
    ensures forall j :: NewestAvatarAt(ms, j) ==> r == ms[j].content
  {
    LastAvatarContent(ms, [])
  }

  /** The hook's echo test: both sides non-empty after normalisation and the
      utterance contained in the avatar's text. */
  predicate HookIgnores(userText: string, avatarText: string) {
    |userText| > 0 && |avatarText| > 0 && Contains(avatarText, userText)
  }

  datatype HookResult = HookResult(forwarded: Option<string>, log: Log)

  /** `onresult`: build the transcript, drop it if it echoes the avatar or is
      empty once normalised, and otherwise forward the raw transcript and record
      it as a user chunk. */
  function OnResult(log: Log, results: seq<string>, resultIndex: nat): (r: HookResult)
    requires Inv(log)
    ensures var raw := ResultTranscript(results, resultIndex);
            var userText := NormalizeText(raw);
            var avatarText := NormalizeText(ReferenceText(log.messages));
            && (r.forwarded.Some? <==> |userText| > 0 && !HookIgnores(userText, avatarText))
            && (r.forwarded.Some? ==> r.forwarded.value == raw && r.log == Chunk(log, Client, raw))
            && (r.forwarded.None? ==> r.log == log)
  {
    var raw := ResultTranscript(results, resultIndex);
    var userText := NormalizeText(raw);
    var avatarText := NormalizeText(ReferenceText(log.messages));
    if HookIgnores(userText, avatarText) then HookResult(None, log)
    else if |userText| > 0 then HookResult(Some(raw), Chunk(log, Client, raw))
    else HookResult(None, log)
  }

  /** What the hook does to the recogniser when the talking flag or the enabled
      flag changes. */
  datatype Command = NoCommand | Start | Stop

  function TalkingCommand(hasRecognizer: bool, talking: bool, enabled: bool): (c: Command)
    ensures c == Stop <==> hasRecognizer && talking
    ensures c == Start <==> hasRecognizer && !talking && enabled
  {
    if !hasRecognizer then NoCommand
    else if talking then Stop
    else if enabled then Start
    else NoCommand
  }

  /** Setting up: a disabled hook, or a browser without the API, creates no
      recogniser; otherwise one is created, and a first start is scheduled
      (after 5000 ms, skipped if already running) only while the avatar is quiet. */
  datatype Setup = Setup(created: bool, startScheduled: bool)

  const InitialStartDelayMs: nat := 5000

  function SetUp(enabled: bool, apiAvailable: bool, talking: bool): (r: Setup)
    ensures r.created <==> enabled && apiAvailable
    ensures r.startScheduled <==> r.created && !talking
  {
    if !enabled || !apiAvailable then Setup(false, false)
    else Setup(true, !talking)
  }

  /** The scheduled first start fires only when the recogniser is not already running. */
  function DelayedStart(isActive: bool): (c: Command)
    ensures c == Start <==> !isActive
    ensures c != Stop
  {
    if isActive then NoCommand else Start
  }
}
