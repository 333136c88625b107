/**
 * The `/admin` panel: an administrator's view of, and reset switches for,
 * the three shared collections. The action keyword is matched after
 * stripping and lower-casing; the reports are built by loops over the
 * collections; the three `clear-*` actions empty one collection each.
 *
 * Python iterates a dictionary in insertion order and a set in an order of
 * its own; here the user list is a sequence in its iteration order and the
 * iteration order of each dictionary is passed in as a sequence of its keys.
 */
module AdminCommand {
  import opened Wrappers
  import opened Text
  import opened Ordering
  import opened BotState

  const ListedUsersCap := 20
  const TopActiveCount := 5

  // ---------------------------------------------------------------------------
  // Actions

  datatype Action =
    | ShowPanel | ShowStats | ListUsers | ListGames | ShowMemory | RunTests
    | WarnClear | ClearMemory | ClearUsers | ClearGames
    | Unknown(name: string)

  /** The keyword that selects a named action. */
  function Keyword(a: Action): string
    requires a != ShowPanel && !a.Unknown?
  {
    match a
    case ShowStats => "stats"
    case ListUsers => "users"
    case ListGames => "games"
    case ShowMemory => "memory"
    case RunTests => "test"
    case WarnClear => "clear"
    case ClearMemory => "clear-memory"
    case ClearUsers => "clear-users"
    case ClearGames => "clear-games"
  }

  /** The action a stripped, lower-cased, non-blank argument selects: a keyword's own action, or none. */
  function ActionFor(word: string): (a: Action)
    ensures a != ShowPanel
    ensures a.Unknown? ==> a.name == word
    ensures !a.Unknown? ==> Keyword(a) == word
  {
    if word == "stats" then ShowStats
    else if word == "users" then ListUsers
    else if word == "games" then ListGames
    else if word == "memory" then ShowMemory
    else if word == "test" then RunTests
    else if word == "clear" then WarnClear
    else if word == "clear-memory" then ClearMemory
    else if word == "clear-users" then ClearUsers
    else if word == "clear-games" then ClearGames
    else Unknown(word)
  }

  /** Each keyword selects its own action. */
  lemma KeywordSelects(a: Action)
    requires a != ShowPanel && !a.Unknown?
    ensures ActionFor(Keyword(a)) == a
  {
  }

  /** A word selects no action exactly when it is none of the keywords. */
  lemma UnknownIffNoKeyword(word: string)
    ensures ActionFor(word).Unknown? <==> forall b: Action :: b != ShowPanel && !b.Unknown? ==> Keyword(b) != word
  {
    if ActionFor(word).Unknown? {
      forall b: Action | b != ShowPanel && !b.Unknown?
        ensures Keyword(b) != word
      {
        KeywordSelects(b);
      }
    }
  }

  /** Blank arguments show the panel; otherwise the stripped, lower-cased argument selects the action. */
  function ParseAction(args: string): (a: Action)
    ensures a == ShowPanel <==> Strip(args) == []
    ensures a.Unknown? ==> a.name == Lower(Strip(args))
    ensures a != ShowPanel && !a.Unknown? ==> Keyword(a) == Lower(Strip(args))
  {
    if Strip(args) == [] then ShowPanel else ActionFor(Lower(Strip(args)))
  }

  /** The action depends on the letters of the argument, not on their case. */
  lemma ParseIgnoresCase(a: string, b: string)
    requires Lower(a) == Lower(b)
    ensures ParseAction(a) == ParseAction(b)
  {
    LowerStrip(a);
    LowerStrip(b);
    assert |Strip(a)| == |Lower(Strip(a))| && |Strip(b)| == |Lower(Strip(b))|;
  }

  // ---------------------------------------------------------------------------
  // Replies

  datatype UserStatus = Playing | Chatting | Idle

  datatype UserLine = UserLine(status: UserStatus, number: nat, user: UserId)

  datatype GameLine = GameLine(user: UserId, score: int)

  datatype TopLine = TopLine(rank: nat, user: UserId, messages: nat)

  datatype Collection = Memory | Users | Games

  datatype AdminReply =
    | Denied(sender: UserId)
    | Panel(users: nat, conversations: nat, games: nat, admin: UserId)
    | Stats(users: nat, active: nat, sessions: nat, messages: nat, games: nat, admin: UserId)
    | StatsUndefined                          // `stats` divides by zero and raises
    | NoUsers
    | UserList(total: nat, lines: seq<UserLine>, more: nat)
    | NoGames
    | GameList(count: nat, entries: seq<GameLine>)
    | NoMemory
    | MemoryReport(sessions: nat, messages: nat, top: seq<TopLine>)
    | Diagnostics(memoryPresent: bool, usersPresent: bool)
    | ClearWarning
    | Cleared(what: Collection, count: nat)
    | UnknownAction(action: string)

  /**
   * `order` lists each key of a dictionary exactly once: its iteration order.
   * (Distinct keys of the dictionary, as many as it has, are all of them.)
   */
  ghost predicate KeyOrder<V>(order: seq<UserId>, dict: map<UserId, V>) {
    && Distinct(order)
    && (forall i :: 0 <= i < |order| ==> order[i] in dict)
    && |order| == |dict|
  }

  // ---------------------------------------------------------------------------
  // stats

  /** `len([uid for uid in user_list if uid in user_memory])` */
  function ActiveCount(users: seq<UserId>, memory: map<UserId, seq<MemoryEntry>>): (n: nat)
    ensures n <= |users|
    ensures n == 0 <==> forall i :: 0 <= i < |users| ==> users[i] !in memory
    ensures n == |users| <==> forall i :: 0 <= i < |users| ==> users[i] in memory
  {
    if users == [] then 0
    else
      var rest := ActiveCount(users[1..], memory);
      assert forall i :: 1 <= i < |users| ==> users[i] == users[1..][i - 1];
      (if users[0] in memory then 1 else 0) + rest
  }

  /** `sum(len(messages) for messages in user_memory.values())`, in the dictionary's iteration order. */
  function TotalMessages(memory: map<UserId, seq<MemoryEntry>>, order: seq<UserId>): (total: nat)
    requires forall i :: 0 <= i < |order| ==> order[i] in memory
    ensures forall i :: 0 <= i < |order| ==> |memory[order[i]]| <= total
    ensures total == 0 <==> forall i :: 0 <= i < |order| ==> memory[order[i]] == []
  {
    if order == [] then 0
    else
      var rest := TotalMessages(memory, order[1..]);
      assert forall i :: 1 <= i < |order| ==> order[i] == order[1..][i - 1];
      |memory[order[0]]| + rest
  }

  /**
   * The `stats` report. Its percentages divide by the number of users and
   * its average by the number of conversations, so with either collection
   * empty the handler raises instead of answering.
   */
  function StatsOf(users: seq<UserId>, memory: map<UserId, seq<MemoryEntry>>, games: map<UserId, GameSession>,
                   memoryOrder: seq<UserId>, admin: UserId): (r: AdminReply)
    requires KeyOrder(memoryOrder, memory)
    ensures r == StatsUndefined <==> |users| == 0 || |memory| == 0
    ensures r.Stats? <==> |users| > 0 && |memory| > 0
    ensures r.Stats? ==>
      && r.users == |users| && r.active == ActiveCount(users, memory) && r.active <= r.users
      && r.sessions == |memory| && r.games == |games| && r.admin == admin
      && r.messages == TotalMessages(memory, memoryOrder)
  {
    if |users| == 0 || |memory| == 0 then StatsUndefined
    else Stats(|users|, ActiveCount(users, memory), |memory|, TotalMessages(memory, memoryOrder), |games|, admin)
  }

  // ---------------------------------------------------------------------------
  // users

  /** A user's marker: in a game first, else holding a conversation, else neither. */
  function StatusOf(user: UserId, memory: map<UserId, seq<MemoryEntry>>, games: map<UserId, GameSession>): (s: UserStatus)
    ensures s == Playing <==> user in games
    ensures s == Chatting <==> user !in games && user in memory
    ensures s == Idle <==> user !in games && user !in memory
  {
    if user in games then Playing else if user in memory then Chatting else Idle
  }

  /**
   * The `users` report: "no users" for an empty list, otherwise the first
   * 20 users, numbered from 1 with their marker, and how many more there are.
   */
  predicate UsersReport(reply: AdminReply, users: seq<UserId>, memory: map<UserId, seq<MemoryEntry>>,
                        games: map<UserId, GameSession>) {
    && (reply == NoUsers <==> |users| == 0)
    && (reply != NoUsers ==> reply.UserList?)
    && (reply.UserList? ==>
      && reply.total == |users|
      && |reply.lines| == (if reply.total > ListedUsersCap then ListedUsersCap else reply.total)
      && (forall k :: 0 <= k < |reply.lines| ==>
            reply.lines[k] == UserLine(StatusOf(users[k], memory, games), k + 1, users[k]))
      && (reply.more > 0 <==> reply.total > ListedUsersCap)
      && (reply.more > 0 ==> reply.more == reply.total - ListedUsersCap))
  }

  method ListUsersOf(store: Store) returns (reply: AdminReply)
    ensures UsersReport(reply, store.userList, store.userMemory, store.gameSessions)
  {
    var users := store.userList;
    if |users| == 0 {
      return NoUsers;
    }
    var shown := if |users| > ListedUsersCap then ListedUsersCap else |users|;
    var lines: seq<UserLine> := [];
    var i := 0;
    while i < shown
      invariant 0 <= i <= shown
      invariant |lines| == i
      invariant forall k :: 0 <= k < i ==>
        lines[k] == UserLine(StatusOf(users[k], store.userMemory, store.gameSessions), k + 1, users[k])
    {
      var status := StatusOf(users[i], store.userMemory, store.gameSessions);
      lines := lines + [UserLine(status, i + 1, users[i])];
      i := i + 1;
    }
    var more := if |users| > ListedUsersCap then |users| - ListedUsersCap else 0;
    reply := UserList(|users|, lines, more);
  }

  // ---------------------------------------------------------------------------
  // games

  /** The `games` report: "no games" when there are none, otherwise every session in iteration order with its score (0 when it has none). */
  predicate GamesReport(reply: AdminReply, games: map<UserId, GameSession>, order: seq<UserId>)
    requires KeyOrder(order, games)
  {
    && (reply == NoGames <==> |games| == 0)
    && (reply != NoGames ==> reply.GameList?)
    && (reply.GameList? ==>
      && reply.count == |games| && |reply.entries| == |order|
      && forall k :: 0 <= k < |order| ==> reply.entries[k] == GameLine(order[k], ScoreOf(games[order[k]])))
  }

  method ListGamesOf(store: Store, order: seq<UserId>) returns (reply: AdminReply)
    requires KeyOrder(order, store.gameSessions)
    ensures GamesReport(reply, store.gameSessions, order)
  {
    var games := store.gameSessions;
    if |games| == 0 {
      return NoGames;
    }
    var lines: seq<GameLine> := [];
    var i := 0;
    while i < |order|
      invariant 0 <= i <= |order|
      invariant |lines| == i
      invariant forall k :: 0 <= k < i ==> lines[k] == GameLine(order[k], ScoreOf(games[order[k]]))
    {
      lines := lines + [GameLine(order[i], ScoreOf(games[order[i]]))];
      i := i + 1;
    }
    reply := GameList(|games|, lines);
  }

  // ---------------------------------------------------------------------------
  // memory

  /** A user and the number of messages remembered for them. */
  datatype Activity = Activity(user: UserId, count: nat)

  /** The activity of each conversation, in the dictionary's iteration order. */
  function Activities(memory: map<UserId, seq<MemoryEntry>>, order: seq<UserId>): (acts: seq<Activity>)
    requires forall i :: 0 <= i < |order| ==> order[i] in memory
    ensures |acts| == |order|
    ensures forall i :: 0 <= i < |order| ==> acts[i] == Activity(order[i], |memory[order[i]]|)
  {
    seq(|order|, i requires 0 <= i < |order| => Activity(order[i], |memory[order[i]]|))
  }

  ghost predicate MostFirst(acts: seq<Activity>) {
    forall i, j :: 0 <= i < j < |acts| ==> acts[i].count >= acts[j].count
  }

  /** Puts `a` before the first activity that is not larger; equal counts keep their original order. */
  function InsertByCount(a: Activity, acts: seq<Activity>): (r: seq<Activity>)
    requires MostFirst(acts)
    ensures MostFirst(r) && multiset(r) == multiset(acts) + multiset{a}
  {
    if acts == [] || acts[0].count <= a.count then [a] + acts
    else
      var rest := InsertByCount(a, acts[1..]);
      assert acts == [acts[0]] + acts[1..];
      BoundedByFirst(a, acts, rest);
      [acts[0]] + rest
  }

  /** After inserting a smaller activity into the tail, nothing in the tail exceeds the head. */
  lemma BoundedByFirst(a: Activity, acts: seq<Activity>, rest: seq<Activity>)
    requires acts != [] && MostFirst(acts) && a.count < acts[0].count
    requires multiset(rest) == multiset(acts[1..]) + multiset{a}
    ensures forall k :: 0 <= k < |rest| ==> rest[k].count <= acts[0].count
  {
    forall k | 0 <= k < |rest| ensures rest[k].count <= acts[0].count {
      assert rest[k] in multiset(rest);
      if rest[k] != a {
        assert rest[k] in multiset(acts[1..]);
        var j :| 0 <= j < |acts[1..]| && acts[1..][j] == rest[k];
        assert acts[j + 1] == rest[k];
      }
    }
  }

  /** `sorted(..., key=lambda x: len(x[1]), reverse=True)`: a stable sort by decreasing count. */
  function SortByCount(acts: seq<Activity>): (r: seq<Activity>)
    ensures MostFirst(r) && multiset(r) == multiset(acts)
  {
    if acts == [] then []
    else
      assert acts == [acts[0]] + acts[1..];
      InsertByCount(acts[0], SortByCount(acts[1..]))
  }

  /** The activities with `count` messages, in their order in `acts`. */
  function WithCount(acts: seq<Activity>, count: nat): seq<Activity> {
    if acts == [] then []
    else (if acts[0].count == count then [acts[0]] else []) + WithCount(acts[1..], count)
  }

  lemma {:induction false} WithCountAppend(s: seq<Activity>, t: seq<Activity>, count: nat)
    ensures WithCount(s + t, count) == WithCount(s, count) + WithCount(t, count)
    decreases |s|
  {
    if s != [] {
      assert (s + t)[0] == s[0] && (s + t)[1..] == s[1..] + t;
      WithCountAppend(s[1..], t, count);
    } else {
      assert s + t == t;
    }
  }

  /** Inserting puts `a` ahead of the activities with the same count and leaves their order alone. */
  lemma {:induction false} InsertKeepsTies(a: Activity, acts: seq<Activity>, count: nat)
    requires MostFirst(acts)
    ensures WithCount(InsertByCount(a, acts), count) ==
      (if a.count == count then [a] else []) + WithCount(acts, count)
    decreases |acts|
  {
    if acts == [] || acts[0].count <= a.count {
      assert ([a] + acts)[1..] == acts;
    } else {
      var rest := InsertByCount(a, acts[1..]);
      assert ([acts[0]] + rest)[1..] == rest;
      InsertKeepsTies(a, acts[1..], count);
    }
  }

  /** The sort is stable: activities with equal counts keep the order they had. */
  lemma {:induction false} SortByCountStable(acts: seq<Activity>, count: nat)
    ensures WithCount(SortByCount(acts), count) == WithCount(acts, count)
    decreases |acts|
  {
    if acts != [] {
      SortByCountStable(acts[1..], count);
      InsertKeepsTies(acts[0], SortByCount(acts[1..]), count);
    }
  }

  /** The five most active conversations, most active first. */
  function TopActive(acts: seq<Activity>): (top: seq<Activity>)
    ensures |top| == (if |acts| < TopActiveCount then |acts| else TopActiveCount)
    ensures MostFirst(top)
    ensures multiset(top) <= multiset(acts)
  {
    var sorted := SortByCount(acts);
    var n := if |acts| < TopActiveCount then |acts| else TopActiveCount;
    assert |sorted| == |acts| by { assert |multiset(sorted)| == |multiset(acts)|; }
    assert sorted == sorted[..n] + sorted[n..];
    assert multiset(sorted) == multiset(sorted[..n]) + multiset(sorted[n..]);
    sorted[..n]
  }

  /** Among conversations with equal counts, the top five keeps the earliest in dictionary order. */
  lemma TopActiveKeepsEarliestTies(acts: seq<Activity>, count: nat)
    ensures var kept := WithCount(TopActive(acts), count);
      |kept| <= |WithCount(acts, count)| && kept == WithCount(acts, count)[..|kept|]
  {
    var sorted := SortByCount(acts);
    var top := TopActive(acts);
    assert |sorted| == |acts| by { assert |multiset(sorted)| == |multiset(acts)|; }
    assert top == sorted[..|top|];
    assert sorted == top + sorted[|top|..];
    WithCountAppend(top, sorted[|top|..], count);
    SortByCountStable(acts, count);
  }

  /** No conversation left out of the top five is more active than the least active one in it. */
  lemma TopActiveAreLargest(acts: seq<Activity>, a: Activity)
    requires a in acts
    ensures a !in TopActive(acts) ==> |TopActive(acts)| == TopActiveCount
    ensures a !in TopActive(acts) ==> forall k :: 0 <= k < TopActiveCount ==> a.count <= TopActive(acts)[k].count
  {
    var sorted := SortByCount(acts);
    assert |sorted| == |acts| by { assert |multiset(sorted)| == |multiset(acts)|; }
    assert a in multiset(sorted);
    var j :| 0 <= j < |sorted| && sorted[j] == a;
    var top := TopActive(acts);
    if j >= |top| {
      forall k | 0 <= k < TopActiveCount ensures a.count <= top[k].count {
        assert top[k] == sorted[k];
      }
    }
  }

  /**
   * The `memory` report: "no conversations" when there are none, otherwise
   * the number of conversations and messages, and the five most active
   * users, ranked from 1.
   */
  predicate MemoryReportFor(reply: AdminReply, memory: map<UserId, seq<MemoryEntry>>, order: seq<UserId>)
    requires KeyOrder(order, memory)
  {
    && (reply == NoMemory <==> |memory| == 0)
    && (reply != NoMemory ==> reply.MemoryReport?)
    && (reply.MemoryReport? ==>
      && reply.sessions == |memory|
      && reply.messages == TotalMessages(memory, order)
      && var top := TopActive(Activities(memory, order));
         |reply.top| == |top|
         && forall k :: 0 <= k < |top| ==> reply.top[k] == TopLine(k + 1, top[k].user, top[k].count))
  }

  method MemoryReportOf(store: Store, order: seq<UserId>) returns (reply: AdminReply)
    requires KeyOrder(order, store.userMemory)
    ensures MemoryReportFor(reply, store.userMemory, order)
  {
    var memory := store.userMemory;
    if |memory| == 0 {
      return NoMemory;
    }
    var top := TopActive(Activities(memory, order));
    var lines := RankLines(top);
    reply := MemoryReport(|memory|, TotalMessages(memory, order), lines);
  }

  /** The ranked lines of the top conversations, numbered from 1. */
  method RankLines(top: seq<Activity>) returns (lines: seq<TopLine>)
    ensures |lines| == |top|
    ensures forall k :: 0 <= k < |top| ==> lines[k] == TopLine(k + 1, top[k].user, top[k].count)
  {
    lines := [];
    var i := 0;
    while i < |top|
      invariant 0 <= i <= |top|
      invariant |lines| == i
      invariant forall k :: 0 <= k < i ==> lines[k] == TopLine(k + 1, top[k].user, top[k].count)
    {
      lines := lines + [TopLine(i + 1, top[i].user, top[i].count)];
      i := i + 1;
    }
  }

  // ---------------------------------------------------------------------------
  // clear-memory, clear-users, clear-games

  method ClearMemoryOf(store: Store) returns (count: nat)
    modifies store
    ensures count == |old(store.userMemory)| && store.userMemory == map[]
    ensures store.userList == old(store.userList) && store.gameSessions == old(store.gameSessions)
  {
    count := |store.userMemory|;
    store.userMemory := map[];
  }

  method ClearUsersOf(store: Store) returns (count: nat)
    modifies store
    ensures count == |old(store.userList)| && store.userList == []
    ensures store.userMemory == old(store.userMemory) && store.gameSessions == old(store.gameSessions)
  {
    count := |store.userList|;
    store.userList := [];
  }

  method ClearGamesOf(store: Store) returns (count: nat)
    modifies store
    ensures count == |old(store.gameSessions)| && store.gameSessions == map[]
    ensures store.userList == old(store.userList) && store.userMemory == old(store.userMemory)
  {
    count := |store.gameSessions|;
    store.gameSessions := map[];
  }

  // ---------------------------------------------------------------------------
  // The handler

  /** The action changes the shared state. */
  predicate Resets(a: Action) {
    a == ClearMemory || a == ClearUsers || a == ClearGames
  }

  /**
   * `execute(sender_id, args)`: `isAdmin` is the administrator test's
   * answer; `memoryOrder` and `gameOrder` are the iteration orders of the
   * conversation and game dictionaries.
   */
  method Execute(store: Store, sender: UserId, args: string, isAdmin: bool,
                 memoryOrder: seq<UserId>, gameOrder: seq<UserId>) returns (reply: AdminReply)
    requires KeyOrder(memoryOrder, store.userMemory) && KeyOrder(gameOrder, store.gameSessions)
    modifies store
    ensures !isAdmin ==> reply == Denied(sender)
    ensures !isAdmin || !Resets(ParseAction(args)) ==>
      && store.userList == old(store.userList) && store.userMemory == old(store.userMemory)
      && store.gameSessions == old(store.gameSessions)
    ensures isAdmin ==> match ParseAction(args)
      case ShowPanel => reply == Panel(|store.userList|, |store.userMemory|, |store.gameSessions|, sender)
      case ShowStats => reply == StatsOf(store.userList, store.userMemory, store.gameSessions, memoryOrder, sender)
      case ListUsers => UsersReport(reply, store.userList, store.userMemory, store.gameSessions)
      case ListGames => GamesReport(reply, store.gameSessions, gameOrder)
      case ShowMemory => MemoryReportFor(reply, store.userMemory, memoryOrder)
      case RunTests => reply == Diagnostics(|store.userMemory| > 0, |store.userList| > 0)
      case WarnClear => reply == ClearWarning
      case ClearMemory =>
        && reply == Cleared(Memory, |old(store.userMemory)|) && store.userMemory == map[]
        && store.userList == old(store.userList) && store.gameSessions == old(store.gameSessions)
      case ClearUsers =>
        && reply == Cleared(Users, |old(store.userList)|) && store.userList == []
        && store.userMemory == old(store.userMemory) && store.gameSessions == old(store.gameSessions)
      case ClearGames =>
        && reply == Cleared(Games, |old(store.gameSessions)|) && store.gameSessions == map[]
        && store.userList == old(store.userList) && store.userMemory == old(store.userMemory)
      case Unknown(name) => reply == UnknownAction(name)
  {
    if !isAdmin {
      return Denied(sender);
    }
    var action := ParseAction(args);
    match action
    case ShowPanel =>
      reply := Panel(|store.userList|, |store.userMemory|, |store.gameSessions|, sender);
    case ShowStats =>
      reply := StatsOf(store.userList, store.userMemory, store.gameSessions, memoryOrder, sender);
    case ListUsers =>
      reply := ListUsersOf(store);
    case ListGames =>
      reply := ListGamesOf(store, gameOrder);
    case ShowMemory =>
      reply := MemoryReportOf(store, memoryOrder);
    case RunTests =>
      reply := Diagnostics(|store.userMemory| > 0, |store.userList| > 0);
    case WarnClear =>
      reply := ClearWarning;
    case ClearMemory =>
      var count := ClearMemoryOf(store);
      reply := Cleared(Memory, count);
    case ClearUsers =>
      var count := ClearUsersOf(store);
      reply := Cleared(Users, count);
    case ClearGames =>
      var count := ClearGamesOf(store);
      reply := Cleared(Games, count);
    case Unknown(name) =>
      reply := UnknownAction(name);
  }
}
