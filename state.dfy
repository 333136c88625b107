/**
 * The state every command handler shares (the globals `user_list`,
 * `user_memory` and `game_sessions`) and the shapes of the values that pass
 * between the handlers and the text generator.
 */
module BotState {
  import opened Wrappers

  /** A platform-assigned sender identifier. */
  type UserId = string

  /** One remembered turn: the `type` ('user' or 'bot') and `content` of a stored message. */
  datatype MemoryEntry = MemoryEntry(kind: string, content: string)

  /** A game session; the handlers read only its optional `score`. */
  datatype GameSession = GameSession(score: Option<int>)

  /** `session.get('score', 0)`. */
  function ScoreOf(session: GameSession): (score: int)
    ensures session.score.Some? ==> score == session.score.value
    ensures session.score.None? ==> score == 0
  {
    match session.score
    case Some(v) => v
    case None => 0
  }

  datatype Role = System | User | Assistant

  /** One `{"role": ..., "content": ...}` entry of a generation request. */
  datatype Message = Message(role: Role, content: string)

  /** The arguments of one `call_mistral_api` call; the temperature is in tenths. */
  datatype AiRequest = AiRequest(messages: seq<Message>, maxTokens: nat, temperatureTenths: nat)

  /** A generator answer is used only when it is truthy: present and not empty. */
  predicate Truthy(answer: Option<string>) {
    answer.Some? && answer.value != []
  }

  /** The three shared collections the command handlers read and the admin panel clears. */
  class Store {
    var userList: seq<UserId>
    var userMemory: map<UserId, seq<MemoryEntry>>
    var gameSessions: map<UserId, GameSession>

    constructor (users: seq<UserId>, memory: map<UserId, seq<MemoryEntry>>, games: map<UserId, GameSession>)
      ensures userList == users && userMemory == memory && gameSessions == games
    {
      userList := users;
      userMemory := memory;
      gameSessions := games;
    }
  }
}
