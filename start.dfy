/**
 * The `/start` command: a presentation generated by the text generator,
 * with a hint about `/help` appended when the generated text does not
 * mention it, or a fixed presentation when the generator gives nothing.
 * The generator's answer to the request is an input.
 */
module StartCommand {
  import opened Wrappers
  import opened Text
  import opened BotState

  const HelpCommand := "/help"

  const Persona := "Tu es NakamaBot, créé par Durand. Tu es un assistant IA sympathique et utile. Nous sommes en 2025. Présente-toi avec joie en français, mentionne ton créateur Durand si pertinent. Sois chaleureux mais professionnel. INTERDIT: aucune description d'action entre *étoiles*. Parle directement, maximum 300 caractères."

  const Greeting := "Présente-toi!"
  const MaxTokens := 150
  const TemperatureTenths := 9

  /** One run of the handler: its reply and the request it sent to the generator. */
  datatype StartRun = StartRun(reply: string, request: AiRequest)

  /** The hint appended to a generated presentation, around the help command. */
  const HintOpening := "\n\n✨ Tape "
  const HintClosing := " pour découvrir toutes mes fonctionnalités!"
  const HelpHint := HintOpening + HelpCommand + HintClosing

  /** The fixed presentation, around the help command. */
  const PresentationOpening := "🌟 Salut! Je suis NakamaBot, créé par Durand! \n\n🤖 Je suis votre assistant IA personnel, prêt à vous aider avec:\n• 💬 Conversations intelligentes\n• 🎨 Génération d'images\n• 📖 Création d'histoires\n• 🎲 Jeux interactifs\n• 💾 Et bien plus encore!\n\n✨ Tapez "
  const PresentationClosing := " pour découvrir toutes mes commandes!\n🎌 Ravi de faire votre connaissance! 💖"
  const Presentation := PresentationOpening + HelpCommand + PresentationClosing

  /** A text around the help command mentions it, in whatever case the text is read. */
  lemma MentionsHelp(opening: string, closing: string)
    ensures Occurs(HelpCommand, Lower(opening + HelpCommand + closing))
  {
    LowerAppend(opening + HelpCommand, closing);
    LowerAppend(opening, HelpCommand);
    assert Lower(HelpCommand) == HelpCommand;
    OccursInSelf(HelpCommand);
    OccursInMiddle(HelpCommand, Lower(opening), HelpCommand, Lower(closing));
  }

  /**
   * The rule applied to a generated presentation: the hint is appended
   * when the lower-cased text does not contain `/help`.
   */
  function WithHelpHint(response: string): (r: string)
    ensures Occurs(HelpCommand, Lower(r))
    ensures Occurs(HelpCommand, Lower(response)) ==> r == response
    ensures !Occurs(HelpCommand, Lower(response)) ==> r == response + HelpHint
  {
    ContainsIff(Lower(response), HelpCommand);
    if Contains(Lower(response), HelpCommand) then response
    else
      MentionsHelp(response + HintOpening, HintClosing);
      assert response + HelpHint == response + HintOpening + HelpCommand + HintClosing;
      response + HelpHint
  }

  /** Applying the rule to its own result changes nothing: the hint is added at most once. */
  lemma HintAddedOnce(response: string)
    ensures WithHelpHint(WithHelpHint(response)) == WithHelpHint(response)
  {
  }

  /** The test ignores case: a text that mentions the command only in capitals gets no hint. */
  lemma CapitalsCountAsMention()
    ensures WithHelpHint("/HELP") == "/HELP"
  {
    assert Lower("/HELP") == HelpCommand;
    OccursInSelf(HelpCommand);
  }

  /**
   * `execute(sender_id, args)`: `answer` is what the generator returns for
   * the request. The request is the same for every sender and argument; the
   * reply always mentions `/help`, in some case.
   */
  function Execute(answer: Option<string>): (run: StartRun)
    ensures run.request.messages == [Message(System, Persona), Message(User, Greeting)]
    ensures run.request.maxTokens == MaxTokens && run.request.temperatureTenths == TemperatureTenths
    ensures Truthy(answer) ==> run.reply == WithHelpHint(answer.value)
    ensures !Truthy(answer) ==> run.reply == Presentation
    ensures Occurs(HelpCommand, Lower(run.reply))
  {
    var request := AiRequest([Message(System, Persona), Message(User, Greeting)], MaxTokens, TemperatureTenths);
    if Truthy(answer) then StartRun(WithHelpHint(answer.value), request)
    else
      MentionsHelp(PresentationOpening, PresentationClosing);
      StartRun(Presentation, request)
  }

  /** The fixed presentation mentions `/help` as written, not only once lower-cased. */
  lemma PresentationMentionsHelp()
    ensures Occurs(HelpCommand, Presentation)
  {
    OccursInSelf(HelpCommand);
    OccursInMiddle(HelpCommand, PresentationOpening, HelpCommand, PresentationClosing);
  }
}
