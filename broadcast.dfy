/**
 * The `/broadcast` command: an administrator's announcement, checked and
 * wrapped, handed once to the broadcast coordinator, whose result is
 * classified into a reply. The coordinator (`broadcast_message`) and the
 * administrator test (`is_admin`) are not part of this model; their answers
 * are inputs.
 */
module BroadcastCommand {
  import opened Wrappers
  import opened Text
  import opened BotState

  const MaxMessageLength := 1800
  const MessagePreviewLength := 50
  const ErrorPreviewLength := 100

  const Header := "📢🎌 ANNONCE OFFICIELLE!\n\n"
  const Footer := "\n\n⚡ Message de l'équipe NakamaBot 💖"

  /** The text handed to the coordinator: the official header, the message, the team signature. */
  function Announcement(message: string): (text: string)
    ensures |text| == |Header| + |message| + |Footer|
    ensures text[..|Header|] == Header && text[|Header| + |message|..] == Footer
    ensures text[|Header|..|Header| + |message|] == message
  {
    Header + message + Footer
  }

  /** Two different messages are never announced with the same text. */
  lemma AnnouncementInjective(a: string, b: string)
    requires Announcement(a) == Announcement(b)
    ensures a == b
  {
    assert |a| == |b|;
    assert a == Announcement(a)[|Header|..|Header| + |a|];
  }

  /**
   * The dictionary the coordinator returns: the flags `blocked` and
   * `already_running` (absent reads as false) and the counters `sent`,
   * `total` and `errors`, each of which may be missing.
   */
  datatype CoordinatorResult = CoordinatorResult(
    blocked: bool, alreadyRunning: bool, sent: Option<int>, total: Option<int>, errors: Option<int>)

  /** The call to the coordinator either returns a result or raises an exception with a message. */
  datatype Outcome = Returned(result: CoordinatorResult) | Raised(message: string)

  /** The advice appended to a report; exactly one applies. */
  datatype Advice = NothingSent | SomeErrors(count: int) | AllSent

  datatype BroadcastReply =
    | Denied(sender: UserId)                     // not an administrator
    | Usage(userCount: nat)                      // blank message: usage and the number of users
    | TooLong(length: nat)                       // the stripped message's length
    | NoRecipients                               // the user list is empty
    | Blocked                                    // the coordinator refused a recent duplicate
    | AlreadyRunning                             // the same broadcast is being sent
    | Report(sent: int, total: int, errors: int, preview: string, advice: Advice)
    | Failed(error: string)                      // the first 100 characters of the exception text

  /** One run of the handler: its reply and the text it handed to the coordinator, if it called it. */
  datatype Run = Run(reply: BroadcastReply, handed: Option<string>)

  /** `s[:n]` */
  function Take(s: string, n: nat): (r: string)
    ensures |r| == (if |s| <= n then |s| else n) && r == s[..|r|]
  {
    if |s| <= n then s else s[..n]
  }

  /** The text of the `KeyError` raised when the key is missing from the result. */
  function MissingKey(key: string): string {
    "'" + key + "'"
  }

  /**
   * The classification of a returned result: `blocked` before
   * `already_running`; then the counters are read, `total` first (the
   * success rate tests it), then `sent` and `errors`; a missing one raises
   * `KeyError`, which the handler catches.
   */
  function Classify(result: CoordinatorResult, message: string): (reply: BroadcastReply)
    ensures reply == Blocked <==> result.blocked
    ensures reply == AlreadyRunning <==> !result.blocked && result.alreadyRunning
    ensures reply.Report? <==>
      !result.blocked && !result.alreadyRunning && result.sent.Some? && result.total.Some? && result.errors.Some?
    ensures reply.Report? ==>
      && reply.sent == result.sent.value && reply.total == result.total.value && reply.errors == result.errors.value
      && reply.preview == Preview(message, MessagePreviewLength)
      && (reply.advice == NothingSent <==> reply.sent == 0)
      && (reply.advice.SomeErrors? <==> reply.sent != 0 && reply.errors > 0)
      && (reply.advice.SomeErrors? ==> reply.advice.count == reply.errors)
      && (reply.advice == AllSent <==> reply.sent != 0 && reply.errors <= 0)
    ensures reply.Failed? ==> reply.error in {MissingKey("total"), MissingKey("sent"), MissingKey("errors")}
    ensures !result.blocked && !result.alreadyRunning ==>
      && (result.total.None? ==> reply == Failed(MissingKey("total")))
      && (result.total.Some? && result.sent.None? ==> reply == Failed(MissingKey("sent")))
      && (result.total.Some? && result.sent.Some? && result.errors.None? ==> reply == Failed(MissingKey("errors")))
    ensures reply != NoRecipients && !reply.Denied? && !reply.Usage? && !reply.TooLong?
  {
    if result.blocked then Blocked
    else if result.alreadyRunning then AlreadyRunning
    else if result.total.None? then Failed(MissingKey("total"))
    else if result.sent.None? then Failed(MissingKey("sent"))
    else if result.errors.None? then Failed(MissingKey("errors"))
    else
      var sent, errors := result.sent.value, result.errors.value;
      var advice := if sent == 0 then NothingSent else if errors > 0 then SomeErrors(errors) else AllSent;
      Report(sent, result.total.value, errors, Preview(message, MessagePreviewLength), advice)
  }

  /**
   * `execute(sender_id, args)`: `isAdmin` is the administrator test's
   * answer, `userCount` the length of `user_list`, and `outcome` what the
   * coordinator does when it is called.
   */
  function Execute(sender: UserId, args: string, isAdmin: bool, userCount: nat, outcome: Outcome): (run: Run)
    ensures run.reply.Denied? <==> !isAdmin
    ensures run.reply.Usage? <==> isAdmin && Strip(args) == []
    ensures run.reply.TooLong? <==> isAdmin && Strip(args) != [] && |Strip(args)| > MaxMessageLength
    ensures run.reply == NoRecipients <==>
      isAdmin && Strip(args) != [] && |Strip(args)| <= MaxMessageLength && userCount == 0
    ensures run.handed.Some? <==>
      isAdmin && Strip(args) != [] && |Strip(args)| <= MaxMessageLength && userCount > 0
    ensures run.handed.Some? ==> run.handed.value == Announcement(Strip(args))
    ensures run.reply.Denied? ==> run.reply.sender == sender
    ensures run.reply.Usage? ==> run.reply.userCount == userCount
    ensures run.reply.TooLong? ==> run.reply.length == |Strip(args)|
  {
    if !isAdmin then Run(Denied(sender), None)
    else if Strip(args) == [] then Run(Usage(userCount), None)
    else
      var message := Strip(args);
      if |message| > MaxMessageLength then Run(TooLong(|message|), None)
      else if userCount == 0 then Run(NoRecipients, None)
      else
        var text := Announcement(message);
        match outcome
        case Raised(e) => Run(Failed(Take(e, ErrorPreviewLength)), Some(text))
        case Returned(result) => Run(Classify(result, message), Some(text))
  }

  /** Whatever the coordinator does, a called coordinator's outcome is turned into a reply: the handler never raises. */
  lemma CoordinatorOutcomeReported(sender: UserId, args: string, userCount: nat, outcome: Outcome)
    requires Strip(args) != [] && |Strip(args)| <= MaxMessageLength && userCount > 0
    ensures var run := Execute(sender, args, true, userCount, outcome);
      match outcome
      case Raised(e) =>
        && run.reply == Failed(Take(e, ErrorPreviewLength))
        && |run.reply.error| == (if |e| <= ErrorPreviewLength then |e| else ErrorPreviewLength)
        && run.reply.error == e[..|run.reply.error|]
      case Returned(result) => run.reply == Classify(result, Strip(args))
  {
  }

  /** A refusal, a blank message, an overlong one or an empty user list never reaches the coordinator. */
  lemma RefusalsNeverSend(sender: UserId, args: string, isAdmin: bool, userCount: nat, outcome: Outcome)
    ensures var run := Execute(sender, args, isAdmin, userCount, outcome);
      run.reply == NoRecipients || run.reply.Denied? || run.reply.Usage? || run.reply.TooLong? <==> run.handed == None
  {
    var run := Execute(sender, args, isAdmin, userCount, outcome);
    if run.handed.Some? {
      match outcome
      case Raised(e) =>
      case Returned(result) =>
    }
  }

  /** A duplicate that the coordinator blocks is reported as blocked, whatever else the result says. */
  lemma BlockedWins(sender: UserId, args: string, userCount: nat, result: CoordinatorResult)
    requires Strip(args) != [] && |Strip(args)| <= MaxMessageLength && userCount > 0 && result.blocked
    ensures Execute(sender, args, true, userCount, Returned(result)).reply == Blocked
  {
  }
}
