/**
 * The `/ai` command: free chat. A blank message gets a conversation topic;
 * a question about the bot's creator gets a fixed answer; anything else is
 * sent to the text generator after the persona and the remembered
 * conversation, and a non-empty answer is remembered and returned. The
 * random topic draw, the remembered context, the generator's answer and the
 * call that remembers the answer are inputs or recorded calls.
 */
module AiCommand {
  import opened Wrappers
  import opened Text
  import opened BotState

  const Topics: seq<string> := [
    "Quel est ton anime préféré? 🎌",
    "Raconte-moi ton personnage d'anime favori! ⭐",
    "Manga ou anime? Et pourquoi? 🤔",
    "Qui est ton créateur au fait? 👨‍💻",
    "Quelle série regardes-tu en ce moment? 📺",
    "Parle-moi de tes hobbies! 🎮"
  ]

  const CreatorKeywords: seq<string> := ["créateur", "createur", "qui t'a", "qui t'a créé", "maker", "developer", "qui t'a fait"]

  const Persona := "Tu es NakamaBot, créé par Durand. Tu es une IA sympathique et utile. Nous sommes en 2025. \n        Réponds en français de manière naturelle et amicale. Si on demande ton créateur, c'est Durand. \n        STRICTEMENT INTERDIT: aucune description d'action entre *étoiles*. \n        Parle directement comme un vrai assistant, maximum 400 caractères. \n        Adapte ton style selon l'utilisateur - reste professionnel mais chaleureux."

  const MaxTokens := 200
  const TemperatureTenths := 8

  datatype AiReply =
    | Topic(topic: string)          // a suggested topic between the thinking emoji and the sparkles
    | Creator                       // the fixed answer naming the creator
    | Answer(response: string)      // the generator's answer after the robot emoji
    | Fallback                      // the apology asking to repeat

  /** One `add_to_memory(user, kind, content)` call. */
  datatype MemoryWrite = MemoryWrite(user: UserId, kind: string, content: string)

  /** One run of the handler: its reply, the request it sent, if any, and the memory write it made, if any. */
  datatype AiRun = AiRun(reply: AiReply, request: Option<AiRequest>, write: Option<MemoryWrite>)

  /** Does the text contain one of the creator keywords from the `k`-th on? */
  predicate MentionsKeywordFrom(text: string, k: nat)
    decreases |CreatorKeywords| - k
  {
    k < |CreatorKeywords| && (Contains(text, CreatorKeywords[k]) || MentionsKeywordFrom(text, k + 1))
  }

  /** `any(word in args.lower() for word in creator_keywords)` */
  predicate AsksForCreator(args: string) {
    MentionsKeywordFrom(Lower(args), 0)
  }

  lemma {:induction false} MentionsKeywordFromIff(text: string, k: nat)
    ensures MentionsKeywordFrom(text, k) <==>
      exists j :: k <= j < |CreatorKeywords| && Occurs(CreatorKeywords[j], text)
    decreases |CreatorKeywords| - k
  {
    if k < |CreatorKeywords| {
      ContainsIff(text, CreatorKeywords[k]);
      MentionsKeywordFromIff(text, k + 1);
    }
  }

  /** The creator question is recognised exactly when some keyword occurs in the lower-cased message. */
  lemma AsksForCreatorIff(args: string)
    ensures AsksForCreator(args) <==>
      exists j :: 0 <= j < |CreatorKeywords| && Occurs(CreatorKeywords[j], Lower(args))
  {
    MentionsKeywordFromIff(Lower(args), 0);
  }

  /** The creator question is recognised whatever the case of the message. */
  lemma CreatorCheckIgnoresCase(args: string)
    ensures AsksForCreator(Lower(args)) == AsksForCreator(args)
  {
    LowerIdempotent(args);
  }

  /** The request's messages, built in place: the persona, then the context, then the user's message as written. */
  method BuildMessages(context: seq<Message>, args: string) returns (messages: seq<Message>)
    ensures |messages| == |context| + 2
    ensures messages[0] == Message(System, Persona)
    ensures messages[1..|context| + 1] == context
    ensures messages[|context| + 1] == Message(User, args)
  {
    messages := [Message(System, Persona)];
    messages := messages + context;
    messages := messages + [Message(User, args)];
  }

  /**
   * `execute(sender_id, args)`: `draw` is the random choice of a topic,
   * `context` what the memory gives for the sender, and `answer` what the
   * generator returns for the request.
   */
  method Execute(sender: UserId, args: string, draw: nat, context: seq<Message>, answer: Option<string>)
    returns (run: AiRun)
    ensures Strip(args) == [] ==> run == AiRun(Topic(Topics[draw % |Topics|]), None, None)
    ensures Strip(args) != [] && AsksForCreator(args) ==> run == AiRun(Creator, None, None)
    ensures run.request.Some? <==> Strip(args) != [] && !AsksForCreator(args)
    ensures run.request.Some? ==>
      var messages := run.request.value.messages;
      && |messages| == |context| + 2
      && messages[0] == Message(System, Persona)
      && messages[1..|context| + 1] == context
      && messages[|context| + 1] == Message(User, args)
      && run.request.value.maxTokens == MaxTokens && run.request.value.temperatureTenths == TemperatureTenths
    ensures run.write.Some? <==> run.request.Some? && Truthy(answer)
    ensures run.write.Some? ==>
      run.write.value == MemoryWrite(sender, "bot", answer.value) && run.reply == Answer(answer.value)
    ensures run.request.Some? && !Truthy(answer) ==> run.reply == Fallback
  {
    if Strip(args) == [] {
      return AiRun(Topic(Topics[draw % |Topics|]), None, None);
    }
    if AsksForCreator(args) {
      return AiRun(Creator, None, None);
    }
    var messages := BuildMessages(context, args);
    var request := AiRequest(messages, MaxTokens, TemperatureTenths);
    if Truthy(answer) {
      run := AiRun(Answer(answer.value), Some(request), Some(MemoryWrite(sender, "bot", answer.value)));
    } else {
      run := AiRun(Fallback, Some(request), None);
    }
  }
}
