/**
 * The `/memory` command: the sender's remembered conversation, one numbered
 * line per stored entry in stored order, the number of stored entries out of
 * ten and, when the sender has a game session, its score. The reply is
 * modelled as its parts, not as the formatted text.
 */
module MemoryCommand {
  import opened Wrappers
  import opened Text
  import opened BotState

  /** Characters of an entry shown before it is cut and marked with "...". */
  const PreviewLength := 60
  /** The size of the memory the count line refers to ("n/10"). */
  const Capacity := 10

  /** Who spoke an entry: the person (an entry of type 'user') or the bot (anything else). */
  datatype Speaker = Person | Bot

  datatype MemoryLine = MemoryLine(speaker: Speaker, number: nat, preview: string)

  datatype MemoryReply =
    | FirstExchange                              // nothing remembered for this sender
    | History(lines: seq<MemoryLine>, stored: nat, capacity: nat, score: Option<int>)

  /** The emoji choice: only an entry whose type is exactly 'user' is the person's. */
  function SpeakerOf(entry: MemoryEntry): (s: Speaker)
    ensures s == Person <==> entry.kind == "user"
  {
    if entry.kind == "user" then Person else Bot
  }

  /** The line shown for the entry at 1-based position `number`. */
  function LineFor(number: nat, entry: MemoryEntry): (line: MemoryLine)
    ensures line.number == number && line.speaker == SpeakerOf(entry)
    ensures |entry.content| <= PreviewLength ==> line.preview == entry.content
    ensures |entry.content| > PreviewLength ==>
      line.preview == entry.content[..PreviewLength] + "..."
  {
    var p := Preview(entry.content, PreviewLength);
    assert |entry.content| > PreviewLength ==> p == p[..PreviewLength] + p[PreviewLength..];
    MemoryLine(SpeakerOf(entry), number, p)
  }

  /**
   * `execute(sender_id, args)`: reads the sender's entries and game session
   * from the shared state and changes nothing.
   */
  method Execute(store: Store, sender: UserId) returns (reply: MemoryReply)
    ensures reply == FirstExchange <==> sender !in store.userMemory || store.userMemory[sender] == []
    ensures reply.History? ==>
      var entries := store.userMemory[sender];
      && |reply.lines| == |entries| && reply.stored == |entries| && reply.capacity == Capacity
      && (forall k :: 0 <= k < |entries| ==> reply.lines[k] == LineFor(k + 1, entries[k]))
      && (reply.score.Some? <==> sender in store.gameSessions)
      && (reply.score.Some? ==> reply.score.value == ScoreOf(store.gameSessions[sender]))
  {
    if sender !in store.userMemory || store.userMemory[sender] == [] {
      return FirstExchange;
    }
    var entries := store.userMemory[sender];
    var lines: seq<MemoryLine> := [];
    var i := 0;
    while i < |entries|
      invariant 0 <= i <= |entries|
      invariant |lines| == i
      invariant forall k :: 0 <= k < i ==> lines[k] == LineFor(k + 1, entries[k])
    {
      lines := lines + [LineFor(i + 1, entries[i])];
      i := i + 1;
    }
    var score: Option<int> := None;
    if sender in store.gameSessions {
      score := Some(ScoreOf(store.gameSessions[sender]));
    }
    reply := History(lines, |entries|, Capacity, score);
  }
}
