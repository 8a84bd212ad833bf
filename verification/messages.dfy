/** The conversation log the session keeps: streamed chunks from the user or
    the avatar are glued onto the message being spoken, a change of speaker
    opens a new message, and an end-of-message event closes the current one. */
module MessageLog {
  import opened Common

  datatype Sender = Client | Avatar

  datatype Message = Message(sender: Sender, content: string)

  /** The message list and the sender whose message is still open. */
  datatype Log = Log(messages: seq<Message>, current: Option<Sender>)

  const EmptyLog := Log([], None)

  /** An open message is the last one in the list and belongs to its sender. */
  predicate Inv(log: Log) {
    log.current.Some? ==>
      |log.messages| > 0 && log.messages[|log.messages| - 1].sender == log.current.value
  }

  /** A chunk of speech from `who`: appended to the open message if `who` is
      speaking it, otherwise the start of a new message from `who`. Both the
      user-talking and the avatar-talking handlers are this with a fixed sender. */
  function Chunk(log: Log, who: Sender, text: string): (r: Log)
    requires Inv(log)
    ensures Inv(r) && r.current == Some(who)
    ensures log.current == Some(who) ==>
              && |r.messages| == |log.messages|
              && r.messages[..|log.messages| - 1] == log.messages[..|log.messages| - 1]
              && r.messages[|r.messages| - 1]
                 == Message(who, log.messages[|log.messages| - 1].content + text)
    ensures log.current != Some(who) ==> r.messages == log.messages + [Message(who, text)]
  {
    if log.current == Some(who) then
      var n := |log.messages|;
      var last := log.messages[n - 1];
      Log(log.messages[..n - 1] + [last.(content := last.content + text)], Some(who))
    else
      Log(log.messages + [Message(who, text)], Some(who))
  }

  /** `handleEndMessage`: the next chunk starts a new message. */
  function EndMessage(log: Log): (r: Log)
    ensures Inv(r) && r.current == None && r.messages == log.messages
  {
    log.(current := None)
  }

  /** `clearMessages`. */
  function Clear(log: Log): (r: Log)
    ensures Inv(r) && r == EmptyLog
  {
    EmptyLog
  }

  /** The concatenation of everything `who` said, message by message. */
  function SaidBy(ms: seq<Message>, who: Sender): string {
    if |ms| == 0 then []
    else SaidBy(ms[..|ms| - 1], who) + (if ms[|ms| - 1].sender == who then ms[|ms| - 1].content else [])
  }

  /** No text is lost or reordered: after a chunk, the speaker's text is what
      it was plus the chunk, and the other party's text is unchanged. */
  lemma {:induction false} ChunkKeepsText(log: Log, who: Sender, other: Sender, text: string)
    requires Inv(log) && other != who
    ensures SaidBy(Chunk(log, who, text).messages, who) == SaidBy(log.messages, who) + text
    ensures SaidBy(Chunk(log, who, text).messages, other) == SaidBy(log.messages, other)
  {
    var ms := log.messages;
    var r := Chunk(log, who, text).messages;
    if log.current == Some(who) {
      var n := |ms|;
      assert r[..n - 1] == ms[..n - 1];
      assert SaidBy(r, who) == SaidBy(ms[..n - 1], who) + (ms[n - 1].content + text);
    } else {
      assert r[..|r| - 1] == ms;
    }
  }

  /** Two chunks from the same speaker in a row land in one message. */
  lemma ChunksMerge(log: Log, who: Sender, a: string, b: string)
    requires Inv(log)
    ensures var r := Chunk(Chunk(log, who, a), who, b);
            |r.messages| == |Chunk(log, who, a).messages|
            && r.messages[|r.messages| - 1].content
               == Chunk(log, who, a).messages[|r.messages| - 1].content + b
  {
  }

  /** Position `j` holds the newest avatar message. */
  predicate NewestAvatarAt(ms: seq<Message>, j: int) {
    0 <= j < |ms| && ms[j].sender == Avatar && forall k :: j < k < |ms| ==> ms[k].sender != Avatar
  }

  /** The content of the newest avatar message, or `previous` when the avatar
      has not spoken: the value the session remembers as the avatar's last words. */
  function LastAvatarContent(ms: seq<Message>, previous: string): (r: string)
    ensures (forall i :: 0 <= i < |ms| ==> ms[i].sender != Avatar) ==> r == previous
    ensures forall j :: NewestAvatarAt(ms, j) ==> r == ms[j].content
    decreases |ms|
  {
    if |ms| == 0 then previous
    else if ms[|ms| - 1].sender == Avatar then ms[|ms| - 1].content
    else
      var init := ms[..|ms| - 1];
      assert forall j :: NewestAvatarAt(ms, j) ==> NewestAvatarAt(init, j);
      LastAvatarContent(init, previous)
  }

  /** A client chunk never changes what the avatar last said. */
  lemma ClientChunkKeepsAvatarText(log: Log, text: string, previous: string)
    requires Inv(log)
    ensures LastAvatarContent(Chunk(log, Client, text).messages, previous)
            == LastAvatarContent(log.messages, previous)
  {
    var ms := log.messages;
    var r := Chunk(log, Client, text).messages;
    if log.current == Some(Client) {
      assert r[..|r| - 1] == ms[..|ms| - 1];
    } else {
      assert r[..|r| - 1] == ms;
    }
  }
}
