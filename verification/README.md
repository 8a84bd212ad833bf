# Voice-booking avatar: a Dafny model of its decision logic

The application is a Persian-language airport check-in kiosk. A streaming avatar talks with the
traveller, and speech recognition turns the traveller's replies into text. From that text the
app fills a ticket: airport, flight type, date, flight number, and the passengers with their
national IDs and luggage. It then shows a confirmation form and finally a QR code.

This project models the deterministic part of that app as pure Dafny functions over immutable
data, and proves what the code promises:

- **Form validation.** The Iranian national-ID checksum and the confirm form's schema
  (module `NationalId`, module `TicketForm`).
- **Transcript tools.** `normalizeText`, the sentence split and duplicate removal, the
  Levenshtein table and the similarity ratio (`Text`, `Normalize`, `EditDistance`).
- **Dialogue state.**
  - The message log the session keeps (`MessageLog`).
  - The transcript gate of the session context and of the speech-recognition hook, with its
    echo filter and national-ID retry counter (`Transcript`).
  - The twelve-step scripted booking dialogue and its extractors (`Booking`, `Patterns`).
  - The keyword-routed ticket updater (`Reservation`).
  - The passenger editor (`TravelEditor`).
  - The form defaults and the one-shot extraction latch of the avatar page (`AvatarForm`).
- **Chroma keying.** The HSV green-screen pass and the threshold pass, each over an RGBA byte
  sequence (`ChromaKey`).
- **Layout arithmetic.** Canvas sizing, scale clamps, offsets, the saved calibration and the
  drawing rectangles (`Layout`).
- **The recorder.** Its voice-activity gate and its banned-word filter (`Recorder`).

The JavaScript semantics that matter are written out:

- `%` truncates toward zero.
- `Math.round(x)` is `floor(x + 1/2)`.
- A store into a `Uint8ClampedArray` clamps to 0..255.
- A canvas dimension attribute truncates, so a height of `1.5 * w` becomes `floor(3w/2)`.
- `||` replaces falsy values, including `0`.
- Assigning to `passengers[length]` appends.
- `\s` and `trim` use the ECMAScript white-space and line-terminator set.
- `toLowerCase` maps ASCII only; Persian letters have no case.

Numbers are exact: `int` for integers and `real` for the browser's doubles.

React state updates are modelled as "current state in, next state out". Closures that read a
stale render's state are modelled as reading the current state.

`components/logic/context.tsx:12` imports `isValidIranianNationalId` from a module that does
not define it. The model uses the definition in `components/ConfirmEditableForm.tsx` at both
call sites.

## Model

| member | source | states |
|---|---|---|
| NationalId.IsValid | components/ConfirmEditableForm.tsx:38-48 | Valid exactly when the text is ten ASCII digits and, with `sum` the weighted remainder of the first nine, the last digit equals `sum` when `sum < 2` and `11 - sum` otherwise |
| NationalId.Remainder | components/ConfirmEditableForm.tsx:41-45 | The first nine digits weighted 10 down to 2, summed, mod 11: always in 0..10 |
| NationalId.UniqueCheckDigit | components/ConfirmEditableForm.tsx:41-47 | A nine-digit prefix followed by a digit validates iff that digit is the prefix's check digit |
| NationalId.CheckDigitExists | components/ConfirmEditableForm.tsx:41-47 | Every nine-digit prefix has a check digit 0-9 that makes it valid |
| NationalId.AllZerosValid | components/ConfirmEditableForm.tsx:38-48 | "0000000000" is accepted: there is no repeated-digit rejection |
| NationalId.ExampleValid | components/ConfirmEditableForm.tsx:38-48 | "1234567891" is accepted and "1234567892" is rejected |
| TicketForm.PassengerIssues | components/ConfirmEditableForm.tsx:15-26 | No issue iff full name has at least 2 chars, the ID is ten digits with a valid checksum, and luggage is at least 0; every issue names one of that passenger's three fields |
| TicketForm.PassengersIssues | components/ConfirmEditableForm.tsx:15-33 | No issue iff every passenger in the list is valid |
| TicketForm.FormIssues | components/ConfirmEditableForm.tsx:28-33 | No issue iff airport has at least 2 chars, date at least 1, flight number at least 2, and the passenger list is non-empty with all entries valid |
| TicketForm.Submit | components/ConfirmEditableForm.tsx:72-74 | Accepted iff the form is valid, and then the data handed on is exactly the form; a rejection carries at least one issue |
| Text.TrimCharacterization | components/InteractiveAvatar.tsx:117 | `trim` removes exactly a leading and a trailing run of white space, and leaves trimmed text unchanged |
| Text.ToLower | components/InteractiveAvatar.tsx:118 | Same length, and each character is mapped on its own (ASCII upper case to lower case, all else kept) |
| Text.DigitsOf | components/logic/context.tsx:277 | Only digits remain; a text of digits is returned unchanged |
| Text.DigitsOfChar | components/logic/context.tsx:277 | A single character survives exactly when it is a digit |
| Text.DigitsOfAppend | components/logic/context.tsx:277 | The digits of a concatenation are the digits of each part, in order |
| Normalize.CollapseSpaces | components/InteractiveAvatar.tsx:115 | Keeps every non-space character in order; leaves no two neighbouring spaces and only plain spaces; empty iff the input is; starts with a space iff the input starts with white space |
| Normalize.CollapseCons | components/InteractiveAvatar.tsx:115 | A non-space character is kept as the head of the result |
| Normalize.CollapseRunRule | components/InteractiveAvatar.tsx:115 | A white-space run of any length, up to a non-space character or the end, becomes exactly one space |
| Normalize.RemovePunct | components/InteractiveAvatar.tsx:116 | Leaves none of the eight punctuation marks; keeps text that has none |
| Normalize.RemovePunctCons | components/InteractiveAvatar.tsx:116 | One character is dropped exactly when it is one of the eight marks; the rest is processed alone |
| Normalize.RemovePunctAppend | components/InteractiveAvatar.tsx:116 | Removal works piecewise: the result for a concatenation is the concatenation of the results |
| Normalize.NormalizeText | components/InteractiveAvatar.tsx:113-119 | The result has no punctuation, no leading or trailing white space, only plain spaces and no ASCII upper case |
| Normalize.NormalizeKeepsWords | components/InteractiveAvatar.tsx:113-119 | Ignoring white space, the result is exactly the input's characters with the eight marks removed and ASCII lowered, in order |
| Normalize.NormalizeFixesNormal | components/InteractiveAvatar.tsx:113-119 | Text already in normal form is a fixed point |
| Normalize.NormalizeNotIdempotent | components/InteractiveAvatar.tsx:115-116 | Spaces are collapsed before punctuation is removed, so "x . y" becomes "x  y", and a second pass changes it to "x y" |
| Normalize.SplitSentences | components/InteractiveAvatar.tsx:123 | There is at least one piece, and the pieces with their separators glue back to the text |
| Normalize.SplitSentencesWell | components/InteractiveAvatar.tsx:123 | Each piece but the last ends in `.`, `!` or `؟` and is followed by its whole white-space run; no piece has a split point inside |
| Normalize.OnePiece | components/InteractiveAvatar.tsx:123 | Text with no split point is a single piece |
| Normalize.DropRepeats | components/InteractiveAvatar.tsx:126-130 | Keeps at most the input's pieces; every kept piece is non-empty and is one of the input pieces |
| Normalize.DropRepeatsSelects | components/InteractiveAvatar.tsx:126-130 | The result has one entry per surviving piece (non-empty and unlike its predecessor), and each surviving piece sits at the position given by the number of survivors before it |
| Normalize.CountKeptGrows | components/InteractiveAvatar.tsx:126-130 | A surviving piece precedes every survivor after it, so the order is kept |
| Normalize.DropRepeatsLast | components/InteractiveAvatar.tsx:126-130 | Among non-empty pieces the last kept piece equals the last piece |
| Normalize.DropRepeatsNoAdjacent | components/InteractiveAvatar.tsx:126-130 | Without empty pieces, no two neighbours of the result are equal |
| Normalize.SurvivorsDistinct | components/InteractiveAvatar.tsx:121-133 | After a real split, no two surviving neighbouring sentences are equal |
| Normalize.RemoveConsecutiveDuplicates | components/InteractiveAvatar.tsx:121-133 | The joined result is trimmed |
| Normalize.SingleSentence | components/InteractiveAvatar.tsx:121-133 | A text without a sentence break is only trimmed |
| EditDistance.ComputeLevenshtein | components/InteractiveAvatar.tsx:84-111 | The row-by-row table computation returns the recursive edit distance of the two strings |
| EditDistance.Levenshtein | components/InteractiveAvatar.tsx:84-111 | The distance lies between the length difference and the longer length |
| EditDistance.NextRow | components/InteractiveAvatar.tsx:96-108 | One outer iteration turns row `i - 1` of the table into row `i` |
| EditDistance.DistBounds | components/InteractiveAvatar.tsx:84-111 | Each table cell lies between the difference of the prefix lengths and the larger of them |
| EditDistance.DistSymmetric | components/InteractiveAvatar.tsx:84-111 | Swapping the strings transposes the table |
| EditDistance.DistZeroIff | components/InteractiveAvatar.tsx:84-111 | A cell is 0 iff the two prefixes are equal |
| EditDistance.LevenshteinZeroIff | components/InteractiveAvatar.tsx:84-111 | The distance is 0 iff the strings are equal |
| EditDistance.LevenshteinFacts | components/InteractiveAvatar.tsx:84-111 | The distance is symmetric and lies between the length difference and the longer length |
| EditDistance.LevenshteinEmpty | components/InteractiveAvatar.tsx:84-111 | The distance to the empty string is the other string's length |
| EditDistance.Similarity | components/InteractiveAvatar.tsx:72-81 | In [0,1]; exactly 1 for equal strings; 0 when exactly one string is empty |
| EditDistance.SimilaritySymmetric | components/InteractiveAvatar.tsx:72-81 | The ratio does not depend on argument order |
| MessageLog.Chunk | components/logic/context.tsx:181-221 | A chunk from the open sender extends the last message and changes nothing else; from anyone else it appends one new message; either way that sender becomes current and the log stays well formed |
| MessageLog.ChunkKeepsText | components/logic/context.tsx:181-221 | Everything a sender has said grows by exactly the chunk, and the other sender's words are unchanged |
| MessageLog.ChunksMerge | components/logic/context.tsx:181-199 | Two chunks in a row from one sender end up in one message |
| MessageLog.EndMessage | components/logic/context.tsx:224-226 | Closes the open message and keeps the list |
| MessageLog.Clear | components/logic/context.tsx:327-330 | Empties the list and clears the sender |
| MessageLog.LastAvatarContent | components/logic/context.tsx:228-237 | The content of the newest avatar message; the old value while there is none |
| MessageLog.ClientChunkKeepsAvatarText | components/logic/context.tsx:203-237 | A user chunk never changes the avatar text the session remembers |
| Transcript.NidCheck | components/logic/context.tsx:276-303 | A valid ID resets the counter with no message; an invalid one increments it and asks again while below 3, otherwise resets it and gives up; the counter stays in 0..3 |
| Transcript.IsEcho | components/logic/context.tsx:253-260 | An echo iff the normalized utterance is non-empty and either its similarity to the avatar's words exceeds 0.6 or it occurs in them at some position |
| Transcript.Respond | components/logic/context.tsx:253-303 | An echo, or a missing avatar, a missing sender or a talking avatar, changes nothing; otherwise the raw text is sent first, the ticket is updated from the avatar's last prompt, and only an ID prompt runs the ID check |
| Transcript.HandleTranscript | components/logic/context.tsx:244-322 | Nothing sent means nothing changed; what is sent starts with the user's own text; the retry counter stays within its bound |
| Transcript.EmptyNeverEcho | components/logic/context.tsx:253-260 | An empty normalized transcript is never dropped as an echo |
| Transcript.OwnWordsAreEcho | components/logic/context.tsx:253-260 | Repeating the avatar's own words is dropped |
| Transcript.RetryBounded | components/logic/context.tsx:242-303 | Over any run of transcripts the retry counter stays in 0..3 |
| Transcript.FourthInvalidGivesUp | components/logic/context.tsx:276-303 | Three invalid IDs count up to 3 and the fourth gives up and resets |
| Transcript.ResultTranscript | components/logic/useAutoSTT.ts:50-54 | The transcript is as long as the results from `resultIndex` on |
| Transcript.ResultInTranscript | components/logic/useAutoSTT.ts:50-54 | Each result from `resultIndex` on appears in the transcript at its running offset |
| Transcript.ReferenceText | components/logic/useAutoSTT.ts:58-60 | The newest avatar message's content, or "" when there is none |
| Transcript.OnResult | components/logic/useAutoSTT.ts:50-90 | The raw transcript is forwarded and logged as a user message iff its normalized form is non-empty and is not contained in the avatar's text; otherwise the log is unchanged |
| Transcript.TalkingCommand | components/logic/useAutoSTT.ts:114-125 | Stop iff a recognizer exists and the avatar talks; start iff it exists, the avatar is quiet and the hook is enabled |
| Transcript.SetUp | components/logic/useAutoSTT.ts:27-104 | A recognizer is created iff the hook is enabled and the browser has the API; a start is scheduled iff it was created and the avatar is quiet |
| Transcript.DelayedStart | components/logic/useAutoSTT.ts:94-104 | The delayed start starts an inactive recognizer and never stops one |
| Patterns.Find | components/logic/useBookingFlow.ts:40-44 | The leftmost position from `from` on where the pattern matches, or none |
| Patterns.MatchTen | components/logic/useBookingFlow.ts:40-44 | Empty iff no ten-digit match exists; otherwise the ten digits of the leftmost match |
| Patterns.FirstDigitRun | components/logic/useBookingFlow.ts:45-49 | Empty iff the text has no digit; otherwise a maximal digit run that starts at the first digit |
| Patterns.FirstRunUnique | components/logic/useBookingFlow.ts:45-49 | A text has only one first maximal non-empty digit run |
| Patterns.ElevenDigitsNoBoundedMatch | components/logic/useBookingFlow.ts:40-44 | Eleven digits give no word-bounded match but an unbounded one of their first ten |
| Booking.NameEnd | components/logic/useBookingFlow.ts:36-39 | The position of the first ASCII digit or `.`, or the end |
| Booking.ExtractName | components/logic/useBookingFlow.ts:36-39 | The result is trimmed and free of digits and dots; a text without them is only trimmed |
| Booking.ExtractNationalId | components/logic/useBookingFlow.ts:40-44 | Empty or ten digits; empty iff no word-bounded ten-digit run exists |
| Booking.ElevenDigitIdRefused | components/logic/useBookingFlow.ts:40-44 | An eleven-digit run yields nothing |
| Booking.ExtractBaggageCount | components/logic/useBookingFlow.ts:45-49 | Only digits; empty iff the text has no digit |
| Booking.Transition | components/logic/useBookingFlow.ts:73-227 | Keeps the state well formed; idle goes to the airport question and changes nothing else; the QR step is absorbing |
| Booking.FreeTextSteps | components/logic/useBookingFlow.ts:82-195 | Airport, flight type, date and flight number store the text verbatim and advance one step |
| Booking.PassengerCountStep | components/logic/useBookingFlow.ts:97-114 | Without digits nothing changes; otherwise the count is stored, the list becomes that many blank passengers, the first is current, and the name is asked |
| Booking.NameStep | components/logic/useBookingFlow.ts:115-138 | No name changes nothing; a name writes only the current passenger's name and moves to the ID question |
| Booking.NationalIdStep | components/logic/useBookingFlow.ts:139-163 | No ID changes nothing; an ID writes only the current passenger's ID and moves to the baggage question |
| Booking.BaggageStep | components/logic/useBookingFlow.ts:164-181 | No count changes nothing; a count writes only the current passenger's baggage |
| Booking.BaggageAdvance | components/logic/useBookingFlow.ts:182-190 | After valid baggage, the next passenger's name is asked while passengers remain, else the flight number |
| Booking.ClosingSteps | components/logic/useBookingFlow.ts:196-223 | Confirm reads the summary and waits; the final step reaches the QR code, sending the booking, iff the text contains "تأیید" or "بله" |
| Booking.ShowQRAbsorbing | components/logic/useBookingFlow.ts:224-225 | Once the QR code shows, no input changes the state |
| Booking.Forward | components/logic/useBookingFlow.ts:73-227 | Each step stays, advances by one, or loops back to the next passenger's name |
| Reservation.TopicOf | components/logic/useReservationState.ts:26-47 | The first of the seven question patterns the question matches, in source order |
| Reservation.FlightTypeIn | components/logic/useReservationState.ts:28-30 | Inbound if the answer says so, else outbound if it says that, else unchanged |
| Reservation.LuggageIn | components/logic/useReservationState.ts:46 | An answer without digits gives 0 |
| Reservation.LuggageValue | components/logic/useReservationState.ts:46 | With digits, the count is the decimal value of the answer's first maximal digit run |
| Reservation.NameAnswer | components/logic/useReservationState.ts:35-40 | Appends a new passenger when there is none or the last has no name; otherwise renames the last |
| Reservation.Answer | components/logic/useReservationState.ts:26-47 | An answer changes only the field of its topic |
| Reservation.UpdateInfo | components/logic/useReservationState.ts:21-47 | Every header field outside the question's topic is unchanged; passengers change only for passenger questions |
| Reservation.NoTopicUnchanged | components/logic/useReservationState.ts:21-47 | A question matching no pattern leaves the ticket unchanged |
| Reservation.HeaderAnswerStored | components/logic/useReservationState.ts:26-34 | Airport, date and flight number are set to the trimmed answer |
| Reservation.PassengerAnswers | components/logic/useReservationState.ts:35-46 | The list grows by at most one, and only for a name; an ID is "" or ten digits; luggage is never negative |
| Reservation.LastPassengerAnswers | components/logic/useReservationState.ts:41-46 | With no passenger an ID or luggage answer changes nothing; otherwise only the last passenger changes, getting the answer's first ten-digit run (or "") as ID, or its first number (or 0) as luggage |
| Reservation.NameQuestionTwice | components/logic/useReservationState.ts:35-40 | A second name answer overwrites the passenger the first one created |
| TravelEditor.BasicInfoChange | components/TravelForm.tsx:46-54 | Changes only the named field |
| TravelEditor.DateChange | components/TravelForm.tsx:56-63 | No date changes nothing; otherwise only the date changes |
| TravelEditor.PassengerChange | components/TravelForm.tsx:65-76 | Only the named passenger's field changes; an out-of-range index changes nothing |
| TravelEditor.AddPassenger | components/TravelForm.tsx:78-86 | Appends an empty passenger with one bag and keeps the others |
| TravelEditor.RemovePassenger | components/TravelForm.tsx:88-95 | With more than one passenger it removes exactly the indexed one in order; otherwise nothing changes |
| TravelEditor.RemoveKeepsOne | components/TravelForm.tsx:88-95 | No sequence of removals empties the list |
| TravelEditor.LuggageMinus | components/TravelForm.tsx:274-280 | Never negative; decrements a positive count |
| TravelEditor.LuggagePlus | components/TravelForm.tsx:289-297 | One more bag; from a non-negative count the minus button undoes it |
| TravelEditor.LuggageButtons | components/TravelForm.tsx:274-297 | Minus undoes plus on a non-negative count, and presses keep the count non-negative |
| AvatarForm.DefaultsOf | components/InteractiveAvatar.tsx:432-447 | Absent header fields become "", the flight type defaults to outbound, and luggage is the passengers' total |
| AvatarForm.FoldIsTotal | components/InteractiveAvatar.tsx:440 | The left fold from `acc` is `acc` plus the total |
| AvatarForm.TotalBounds | components/InteractiveAvatar.tsx:440 | Non-negative counts give a non-negative total at least each passenger's count |
| AvatarForm.LatchStep | components/InteractiveAvatar.tsx:387-430 | An extraction starts iff QR mode is on, the avatar is quiet and the latch is clear; the latch then holds iff it was set in QR mode or a start happened |
| AvatarForm.AtMostOneExtraction | components/InteractiveAvatar.tsx:387-430 | While QR mode stays on, at most one extraction starts |
| AvatarForm.LeavingRearms | components/InteractiveAvatar.tsx:387-430 | Leaving QR mode clears the latch, so the next quiet QR render starts again |
| AvatarForm.Complete | components/InteractiveAvatar.tsx:405-423 | Success and failure both hide the form and show the QR code; failure shows trip id 0 |
| AvatarForm.CompletionOf | components/InteractiveAvatar.tsx:392-425 | Saved iff extraction and save succeed; nothing changes iff both that chain and the empty save fail |
| ChromaKey.TruncRemSmall | components/FullBodyAvatarVideo.tsx:60 | The truncating `% 6` is the identity on [-1,1] |
| ChromaKey.Sector | components/FullBodyAvatarVideo.tsx:58-62 | The unscaled hue lies in the piece of [-1,5] chosen by the largest channel |
| ChromaKey.Hue | components/FullBodyAvatarVideo.tsx:53-65 | In [0,360); 0 for greys; 60..180 when green dominates; near red when red dominates |
| ChromaKey.Saturation | components/FullBodyAvatarVideo.tsx:67 | In [0,1]; 0 exactly for greys |
| ChromaKey.Brightness | components/FullBodyAvatarVideo.tsx:68 | In [0,1]; 0 exactly for black |
| ChromaKey.GreysNeverKeyed | components/FullBodyAvatarVideo.tsx:70-76 | Black, and with a non-negative saturation floor every grey, is never keyed |
| ChromaKey.IsKeyed | components/FullBodyAvatarVideo.tsx:70-76 | A keyed pixel is brighter than 38.25 in its largest channel and, with a non-negative saturation floor, not grey |
| ChromaKey.KeyedGreenDominant | components/FullBodyAvatarVideo.tsx:70-76 | With a threshold of at least 1, a keyed pixel is strictly greener than red and than blue |
| ChromaKey.KeyedAlpha | components/FullBodyAvatarVideo.tsx:78-82 | The written alpha is 0 or at least 51, and 0 iff the greenness exceeds 0.2 |
| ChromaKey.NoClampNeeded | components/FullBodyAvatarVideo.tsx:70-82 | For a keyed pixel with threshold at least 1, greenness is in (0,1] and the rounded alpha already fits a byte |
| ChromaKey.AvatarOptionsExample | components/FullBodyAvatarVideo.tsx:150-156 | With the avatar's options, pure green gets alpha 0 and white is not keyed |
| ChromaKey.KeyPass | components/FullBodyAvatarVideo.tsx:48-85 | Only alpha bytes of keyed pixels change, and a second pass changes nothing |
| ChromaKey.ApplyChromaKey | components/FullBodyAvatarVideo.tsx:24-85 | Nothing happens without a context or before the video has data; otherwise the canvas takes the video's size and the keyed pixels |
| ChromaKey.LowerBodyPlacement | components/FullBodyAvatarVideo.tsx:37-40 | On a canvas of the video's size the image has its natural size times the zoom, its centre on the vertical midline plus the x offset, its top at half the height plus the y offset |
| ChromaKey.GreenPass | components/video-wrap.tsx:53-73 | The alpha becomes 0 exactly for pixels with g > 90, r < 90 and b < 90; no other byte changes; the pass keeps which pixels are green |
| ChromaKey.GreenEndsKept | components/video-wrap.tsx:53-73 | Clearing alpha bytes leaves every pixel's green test as it was |
| ChromaKey.RenderFrame | components/video-wrap.tsx:33-61 | The loop runs only with background removal, an active stream and both refs; a frame renders iff canvas, video and context exist, sizing the canvas to the video first |
| Layout.ZoomImage | components/FullBodyAvatarVideo.tsx:167-173 | Adds the delta but never goes below 0.05 |
| Layout.Move | components/FullBodyAvatarVideo.tsx:167-169 | Each coordinate moves by exactly its delta |
| Layout.MoveInverse | components/FullBodyAvatarVideo.tsx:167-169 | Moving back by the same deltas returns to the start, and two moves add up |
| Layout.ZoomsKeepFloor | app/videoSimulation/page.tsx:115-123 | Any run of zooms ends at 0.05 or above |
| Layout.LowerBodyRect | app/videoSimulation/page.tsx:97-100 | Natural size times scale, centred horizontally plus the offset, from the canvas middle plus the offset |
| Layout.ResizeCanvas | components/AvatarSession/AvatarVideo.tsx:33-37 | Width is the parent's or 480; height is 1.5 times the width, truncated |
| Layout.Wheel | components/AvatarSession/AvatarVideo.tsx:83-89 | Without Shift nothing changes; with Shift the scale moves by -0.1 for a positive delta and +0.1 otherwise, clamped to [0.5,2] |
| Layout.LegsZoom | components/AvatarSession/AvatarVideo.tsx:322-326 | Zoom in is capped at 3 and zoom out floored at 0.2; a scale inside [0.2,3] stays inside |
| Layout.LegsScaleStaysInRange | components/AvatarSession/AvatarVideo.tsx:322-326 | Any sequence of zoom buttons keeps the scale in [0.2,3] |
| Layout.ArrowMove | components/AvatarSession/AvatarVideo.tsx:304-319 | Each arrow moves exactly one coordinate by 10, up and left decreasing it |
| Layout.LoadConfig | components/AvatarSession/AvatarVideo.tsx:95-111 | A failed fetch changes nothing; otherwise each field is the fetched value or its default when absent or falsy, so a saved scale of 0 loads as 1 |
| Layout.SaveConfig | components/AvatarSession/AvatarVideo.tsx:230-236 | All four fields are posted |
| Layout.SaveLoadRoundTrip | components/AvatarSession/AvatarVideo.tsx:95-236 | Loading what was saved restores it unless a scale was 0, which loads as 1 |
| Layout.VideoRect | components/AvatarSession/AvatarVideo.tsx:158-168 | At the origin, no taller than the canvas, in the video's aspect; full scaled width when that fits, else full canvas height |
| Layout.LegsRect | components/AvatarSession/AvatarVideo.tsx:171-180 | No wider than the canvas, non-negative height, the image's aspect, centred plus offset, directly below the video plus offset |
| Layout.DrawFrame | components/AvatarSession/AvatarVideo.tsx:147-190 | Waits iff the video has no size or the image is not ready; otherwise the video rect, the legs rect zoomed by the legs scale from its top-left corner, and the 20-pixel blend strip ending at the legs' top |
| Layout.ContainFit | app/testBackGroungImage/page.tsx:21-37 | Inside the canvas with one side equal, in the image's aspect, centred with non-negative margins; full width iff the image is wider than the canvas |
| Layout.SimulationCanvas | app/videoSimulation/page.tsx:17-23 | Width is the smaller of 480 and the window minus 32; height is 1.5 times the width, truncated |
| Layout.SimulationFrame | app/videoSimulation/page.tsx:81-100 | The video fills the top half; the lower image starts at the middle plus the offset |
| Recorder.IsSpeaking | components/AutoSTTRecorder.tsx:50 | Speech iff some sample is more than 10 away from 128 |
| Recorder.Detect | components/AutoSTTRecorder.tsx:52-69 | Speech clears the timer and starts an inactive recorder; silence while recording with no timer arms one; otherwise nothing changes |
| Recorder.Fire | components/AutoSTTRecorder.tsx:63-68 | The armed timer stops the recorder and leaves its handle held |
| Recorder.GateInvariant | components/AutoSTTRecorder.tsx:48-69 | From the initial state, an armed timer always means recording and the recorder is never paused |
| Recorder.FiredHandleHarmless | components/AutoSTTRecorder.tsx:52-69 | The held handle of a fired timer blocks nothing: the next speech restarts and clears it |
| Recorder.RemoveAllOnlyDeletes | components/AutoSTTRecorder.tsx:84-86 | Removing a word only deletes letters |
| Recorder.RemoveAll | components/AutoSTTRecorder.tsx:84-86 | Never longer than the input |
| Recorder.RemoveAllShrinks | components/AutoSTTRecorder.tsx:84-86 | Text that holds the word anywhere comes out strictly shorter |
| Recorder.RemoveAllAbsent | components/AutoSTTRecorder.tsx:84-86 | Text without the word is unchanged |
| Recorder.FilterWords | components/AutoSTTRecorder.tsx:80-89 | The result is trimmed and no longer than the input |
| Recorder.CleanTextUnchanged | components/AutoSTTRecorder.tsx:80-89 | Trimmed text with none of the three words passes unchanged |
| Recorder.BannedWordCanRemain | components/AutoSTTRecorder.tsx:80-89 | One pass can leave a banned word: deleting "صدا" from "صدصداا" forms "صدا" again |

## Left out

- The streaming-avatar session, SDK events, every `fetch` (trip save, data extraction, the
  transcription route, the calibration endpoints), WebRTC and the browser speech API. They are
  network or platform I/O, so their outcomes are parameters: `saveId`, `fetched`, `readyState`
  and the like.
- Canvas drawing, `getImageData`, gradients and compositing, `requestAnimationFrame`,
  `ResizeObserver`, timers and their cancellation. Only the numbers they are fed and the bytes
  they return are modelled. The 1500 ms silence timer and the QR hide timer are events, not
  clocks.
- IEEE-754 doubles: 0.1-step drift, `Math.round` on exact halves of negative numbers, and NaN.
  Arithmetic is exact `real`.
- Full Unicode `toLowerCase` and UTF-16 code units. Strings are sequences of characters, and
  case mapping is ASCII.
- `parseInt` and `Number` on digit runs too long for a double. Numbers are unbounded, so
  `Booking.PassengerCountStep` builds exactly as many entries as the digits say, where the
  browser would give up with a `RangeError` for huge counts.
- Date formatting with react-date-object: `TravelEditor.DateChange` takes the formatted text as
  given.
- Message ids and timestamps (`Date.now`) in the message log.
- The recorder's `Paused` state: the gate never pauses, and the invariant shows it is never
  reached.
- lib/types.ts is not part of this model. The passenger and ticket shapes follow
  `types/ticketInfo.ts` and their uses.
- Layout.ContainFit: requires positive canvas and image sizes, because with a zero size the
  source divides by zero and draws nothing visible.
- Layout.VideoRect, Layout.LegsRect: require positive natural sizes, which the frame callback
  guarantees before drawing (`Layout.DrawFrame` waits otherwise).
- MessageLog.Chunk: requires the log invariant (an open sender owns the last message), which
  holds in every state the handlers reach from an empty log.
- Booking.Transition: requires that the current passenger is at most one past the list and that
  the stored count is a digit run, which holds in every state reached from the initial one.
- Normalize.RemoveConsecutiveDuplicates: states only that the result is trimmed. The
  no-repeated-neighbours property is about the surviving pieces (`Normalize.SurvivorsDistinct`),
  not about the joined text, because joining can make different splits read the same.
- Recorder.FilterWords: does not promise that the banned words are gone, because the source
  does not remove them all (`Recorder.BannedWordCanRemain`).
- Transcript.HandleTranscript: states the gate's overall shape. The echo rule, the ticket update
  and the ID check are stated on `Transcript.Respond`, which it calls with the normalized texts.
- Transcript.Respond: always updates the ticket after sending. In
  `components/logic/context.tsx:267-319` the send, the ticket update and the ID check share one
  `try`, so a send that throws skips the update and the check. Throwing sends are not modelled.
- AvatarForm.CompletionOf: the save outcomes are parameters. As written,
  `components/InteractiveAvatar.tsx:14-18` imports `saveTrip`, which `services/api.ts` does not
  export (it exports `askQuestion`, `saveConversation` and `extractPassengerDataWithOpenAI`).
  Both saves would then throw and the completion would always be `NothingSaved`; the model
  keeps the outcome open instead.
- Reservation.UpdateInfo: the source copies the ticket shallowly
  (`components/logic/useReservationState.ts:22`) and then pushes to or edits the shared
  passenger array (lines 37, 39, 43 and 46), so the previous state's list changes too. The
  model returns a new ticket and never changes the old one.
- The exact similarity threshold test (`> 0.6`) appears only inside `Transcript.IsEcho`.
  Similarity is modelled exactly, but no lemma ranks particular sentences against 0.6.
