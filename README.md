# NakamaBot command layer in Dafny

NakamaBot is a Messenger chat bot. Each of its commands is an `execute(sender_id, args)`
handler in the `commandes` package. A handler looks at its argument and at three shared
collections: `user_list` (the known users), `user_memory` (each user's remembered
messages) and `game_sessions` (running games). It then chooses a reply or changes that
state. This project models those handlers and proves what they promise.

- **Image** (`ImageCommand`, `ImageThemes`) covers the prompt validator and the `/image` handler.
  - The validator checks the length bounds 3 and 200, then the six forbidden words.
  - The handler answers the keywords `styles` and `random`.
  - It turns an accepted prompt into an image request: the enhanced prompt plus a seed in [100000, 999999].
  - The eight random themes, written as their word lists (which match commandes/image.py:52-59 word for word, compared by reading), are proved to pass the validator.
- **Broadcast** (`BroadcastCommand`) covers the `/broadcast` front end.
  - Its guard order is: administrator, blank message, more than 1800 characters, no users.
  - It wraps the announcement and classifies the broadcast coordinator's result: blocked, already running, a missing counter, or a report with advice.
- **Admin panel** (`AdminCommand`) covers the action keyword and how it is read.
  - It covers the statistics, the user listing capped at 20 and the game listing.
  - It covers the memory report with its five most active conversations.
  - It covers the three resets. Each reset clears exactly one shared collection of the `BotState.Store` object and reports how many entries it removed.
- **Command package** (`Commands`) covers the loop that collects every file except `__init__.py` as a command, `list_commands` and `get_command_info`.
- **Help** (`HelpCommand`) covers the description lookup with its default and the discovered commands sorted by name.
  - It covers the main section in its fixed order, the other section in sorted order, the administration section and the total.
- **Memory, start, AI** (`MemoryCommand`, `StartCommand`, `AiCommand`) cover the smaller handlers.
  - Memory: the numbered memory listing with its 60-character previews.
  - Start: the fixed request it sends, and the rule that always brings `/help` into the start reply.
  - AI: the creator-question short-cut, and the request made of the persona, the context and the user's message.
  - AI: a memory write only after a non-empty answer.

Shared pieces:

- `Text` holds Python's `strip`, `lower` and `in`, plus previews and joining.
- `Ordering` holds Python's string order and `sorted`.
- `BotState` holds the shared state and the message shapes.
- `Wrappers` holds `Option`.

Replies are datatypes that carry the data a reply shows, not the formatted emoji text.

The collaborators that the package injects into each handler are inputs of the model. Their bodies are not part of this model:

- `is_admin` is a boolean.
- `broadcast_message` is its result or the exception it raises.
- `call_mistral_api` is the answer it gives.
- `get_memory_context` is the context it returns.
- `add_to_memory` is recorded as the call the handler makes.
- `random.choice` and `random.randint` are draws, reduced modulo the range.
- The result of `glob` is the list of file names.

Python dictionaries iterate in insertion order. That order of `user_memory` and `game_sessions` is an input sequence listing each key once (`AdminCommand.KeyOrder`).

Where the code differs from a plain reading of the design, the model follows the code:

- `help` lists every `.py` file its glob finds, the package's own `__init__.py` included. `HelpCommand.HelpListsInit` proves that `__init__` then appears among the other commands.
- The start handler tests for `/help` in the lower-cased text. The guarantee is therefore that the lower-cased reply contains `/help`. `StartCommand.CapitalsCountAsMention` shows that an answer `/HELP` is returned as it is.
- `image.py` ends inside its `try` block, once it has built the image URL. The model's reply is the image request: the enhanced prompt and the seed.
- Stats divide by the number of users and by the number of conversations. Both divisions raise when that number is zero. The model reports this as `StatsUndefined`.

## Model

| member | source | states |
|---|---|---|
| ImageCommand.ValidatePrompt | commandes/image.py:3-17 | A missing prompt, or a stripped length below 3, is "too short", and that test comes first. Otherwise more than 200 raw characters is "too long", and exactly 200 is accepted. Otherwise a forbidden word anywhere in the lower-cased prompt is "inappropriate". An accepted prompt is returned stripped, is 3 to 200 characters long and holds no forbidden word. Each error holds exactly when its condition does. |
| ImageCommand.ContainsForbiddenFromIff | commandes/image.py:12-15 | The loop over the forbidden words finds one exactly when some forbidden word occurs in the text. |
| ImageCommand.StrippedStaysClean | commandes/image.py:14-17 | A prompt without forbidden words has none after stripping either. |
| ImageCommand.RandInt | commandes/image.py:76 | The seed drawn lies within the given bounds. |
| ImageCommand.Generate | commandes/image.py:63-77 | A rejected prompt gives the validator's error. An accepted one gives an image request for the enhanced validated prompt, with a seed in [100000, 999999]. |
| ImageCommand.Execute | commandes/image.py:19-77 | A blank argument gives usage. `styles` in any case gives the styles. `random` uses the drawn theme. Anything else goes to validation in its stripped, lower-cased form. |
| ImageCommand.RandomAlwaysImage | commandes/image.py:50-64 | `/image random` always yields an image request for the enhanced theme and is never rejected. |
| ImageCommand.PromptValidated | commandes/image.py:32-70 | Any other argument yields the validator's error, or an image request for the lower-cased, stripped argument. |
| ImageCommand.ExecuteIgnoresCase | commandes/image.py:32 | Two arguments that agree once lower-cased get the same reply. |
| ImageCommand.FinalExcludes | commandes/image.py:12-15 | A word whose character scan ends in an accepting state contains no forbidden word. |
| ImageCommand.GoodWordMeans | commandes/image.py:12-17 | A checked theme word is lower case, has no white space at either end and contains no forbidden word. |
| ImageCommand.JoinedGoodWordsAccepted | commandes/image.py:5-17 | Up to nine checked words joined by spaces, the first of at least 3 letters, are accepted unchanged by the validator. |
| ImageThemes.ThemeGood | commandes/image.py:51-60 | Each of the eight themes is 1 to 9 checked words whose first word has at least 3 letters. |
| ImageCommand.ThemesAreValid | commandes/image.py:51-64 | Every theme passes the validator unchanged. |
| ImageCommand.ChosenThemeValid | commandes/image.py:61-64 | Whatever the draw, the chosen theme passes the validator unchanged. |
| Text.StripIsInfix | commandes/image.py:5 | The stripped string is the infix of the string left after white space is cut off both ends. |
| Text.StripEmptyIff | commandes/ai.py:3 | The blank test `not args.strip()` holds exactly when the argument is all white space. |
| Text.StripIdempotent | commandes/image.py:17 | Stripping twice is stripping once. |
| Text.LowerStrip | commandes/admin.py:26 | Lower-casing and stripping commute. |
| Text.ContainsIff | commandes/image.py:14 | The substring search holds exactly when the word occurs at some position of the text. |
| Text.Preview | commandes/memory.py:18 | A text of at most n characters is kept whole. A longer one becomes its first n characters followed by "...". |
| Ordering.Sort | commandes/__init__.py:69-71 | The result is sorted by Python's string order and is a permutation of the input. |
| Ordering.SortedUnique | commandes/__init__.py:61-71 | Two sorted permutations of the same strings are equal, so any correct sort returns what `sorted()` returns. |
| Ordering.SortDistinct | commandes/help.py:33 | Sorting strings that have no repeats gives a strictly increasing sequence. |
| BroadcastCommand.Announcement | commandes/broadcast.py:34 | The announcement is the official header, then the message, then the team signature, each at its own position. |
| BroadcastCommand.AnnouncementInjective | commandes/broadcast.py:34 | Different messages never give the same announcement. |
| BroadcastCommand.Take | commandes/broadcast.py:79 | `s[:n]` is the prefix of `s` of length min(n, len(s)): all of a short text, and exactly the first n characters of a longer one. |
| BroadcastCommand.Classify | commandes/broadcast.py:44-73 | "Blocked" holds exactly when the result says blocked. "Already running" holds exactly when it says so and is not blocked. Otherwise the counters are read in the order `total`, `sent`, `errors`, and the first missing one ends in that key's error. Otherwise the report carries the three counters and the 50-character preview. Its advice is "nothing sent" iff sent is 0, "some errors" (with their count) iff sent is not 0 and errors are positive, and "all sent" otherwise. |
| BroadcastCommand.Execute | commandes/broadcast.py:1-86 | Each refusal holds exactly when the earlier guards pass and its own fails: not admin, blank message, more than 1800 characters, no users. The coordinator is handed the announcement of the stripped message exactly when all guards pass. |
| BroadcastCommand.CoordinatorOutcomeReported | commandes/broadcast.py:39-86 | A raised exception becomes a failure carrying the first 100 characters of its text, or all of it when shorter. A returned result becomes its classification. |
| BroadcastCommand.RefusalsNeverSend | commandes/broadcast.py:3-31 | The coordinator is not called exactly when the reply is one of the four refusals. |
| BroadcastCommand.BlockedWins | commandes/broadcast.py:44-45 | A blocked result is reported as blocked whatever its other fields say. |
| AdminCommand.ActionFor | commandes/admin.py:28-155 | A known keyword selects its action. Any other word is an unknown action that carries that word. |
| AdminCommand.KeywordSelects | commandes/admin.py:28-152 | Each action's keyword selects that action. |
| AdminCommand.UnknownIffNoKeyword | commandes/admin.py:154-155 | A word is unknown exactly when it is no action's keyword. |
| AdminCommand.ParseAction | commandes/admin.py:6-26 | A blank argument shows the panel. Otherwise the stripped, lower-cased argument selects the action. |
| AdminCommand.ParseIgnoresCase | commandes/admin.py:26 | Arguments that agree once lower-cased select the same action. |
| AdminCommand.ActiveCount | commandes/admin.py:31 | The active count is at most the number of users. It is 0 iff no user has a conversation, and equals the number of users iff all of them have one. |
| AdminCommand.TotalMessages | commandes/admin.py:30 | The total is at least each conversation's length, and is 0 iff every conversation is empty. |
| AdminCommand.StatsOf | commandes/admin.py:28-52 | Stats are undefined iff there are no users or no conversations, because the ratios divide by those counts. Otherwise the reply is always a stats report, and it carries the counts, the active users (at most all of them) and the message total. |
| AdminCommand.StatusOf | commandes/admin.py:60 | A user is playing iff in a game, chatting iff not in a game but remembered, and idle otherwise. |
| AdminCommand.ListUsersOf | commandes/admin.py:54-66 | No users gives the "no users" reply. Otherwise it reports the total and lists the first min(20, n) users in order, numbered from 1, each with its status. The remainder is shown iff there are more than 20 users. |
| AdminCommand.ListGamesOf | commandes/admin.py:68-85 | No games gives the "no games" reply. Otherwise there is one line per session in dictionary order, with the score defaulting to 0. |
| AdminCommand.Activities | commandes/admin.py:101 | Each conversation is paired with its number of messages, in dictionary order. |
| AdminCommand.InsertByCount | commandes/admin.py:101 | Inserting keeps the order most-active-first and adds exactly the inserted item. |
| AdminCommand.SortByCount | commandes/admin.py:101 | The conversations come most active first, as a permutation of the input. |
| AdminCommand.InsertKeepsTies | commandes/admin.py:101 | Inserting puts the new conversation ahead of those with the same count and keeps their order. |
| AdminCommand.SortByCountStable | commandes/admin.py:101 | The sort is stable, like `sorted(..., reverse=True)`: conversations with equal counts keep their dictionary order. |
| AdminCommand.TopActive | commandes/admin.py:101 | There are min(5, n) conversations, most active first, taken from the input. |
| AdminCommand.TopActiveKeepsEarliestTies | commandes/admin.py:101 | Among conversations with equal counts, the top five keeps the earliest in dictionary order. |
| AdminCommand.TopActiveAreLargest | commandes/admin.py:101 | A conversation left out of the top five is no more active than any of the five. |
| AdminCommand.MemoryReportOf | commandes/admin.py:87-106 | No conversations gives the "no memory" reply. Otherwise it gives the session count, the message total and the ranked top five with their counts. |
| AdminCommand.ClearMemoryOf | commandes/admin.py:139-142 | All conversations are removed and their number is returned. Users and games are unchanged. |
| AdminCommand.ClearUsersOf | commandes/admin.py:144-147 | All users are removed and their number is returned. Conversations and games are unchanged. |
| AdminCommand.ClearGamesOf | commandes/admin.py:149-152 | All games are removed and their number is returned. Users and conversations are unchanged. |
| AdminCommand.Execute | commandes/admin.py:1-155 | A non-admin is refused. Nothing changes unless an admin asks for a reset. Each action gives its report, and each reset clears exactly its collection. |
| BotState.ScoreOf | commandes/memory.py:29 | A session's score, or 0 when it has none. |
| Commands.CommandName | commandes/__init__.py:54 | The file name minus its last three characters, which is empty for names shorter than three. |
| Commands.CommandNameOfFile | commandes/__init__.py:54 | The command named `n` comes from the file `n.py`. |
| Commands.Discover | commandes/__init__.py:51-55 | The loop builds exactly the listing-order names of the non-init files. |
| Commands.CommandNamesAre | commandes/__init__.py:51-55 | Every listed file other than `__init__.py` contributes its command name. |
| Commands.CommandNamesFromFiles | commandes/__init__.py:51-55 | Every collected name comes from a listed file other than `__init__.py`. |
| Commands.InitNeverListed | commandes/__init__.py:53 | When every file is a `.py` file, `__init__` is never a command. |
| Commands.ListCommands | commandes/__init__.py:69-71 | The names come back sorted, as a permutation of `__all__`. |
| Commands.GetCommandInfo | commandes/__init__.py:58-67 | The info has version "3.0", total equal to `len(__all__)`, and the names sorted as a permutation. |
| Commands.ListingIsTheSortedCommands | commandes/__init__.py:58-71 | Any sorted permutation of the names is both `list_commands()` and the info's list. |
| HelpCommand.Basename | commandes/help.py:28 | The base name holds no `/`. |
| HelpCommand.BasenameOfPath | commandes/help.py:9-28 | A file in a directory has its own name as base name. |
| HelpCommand.FoundAt | commandes/help.py:27-28 | The i-th listed path gives the i-th found name. |
| HelpCommand.Discovered | commandes/help.py:26-30 | The dictionary's keys are exactly the found names, each recorded once in first-insertion order, each with its custom or default description. |
| HelpCommand.DiscoveredInFirstOrder | commandes/help.py:26-30 | The dictionary's keys come in the order in which the names are first found. |
| HelpCommand.Collect | commandes/help.py:26-30 | The loop builds that dictionary. |
| HelpCommand.Present | commandes/help.py:41-43 | The lines name exactly the listed commands that were found, with their descriptions. |
| HelpCommand.Outside | commandes/help.py:46 | It keeps exactly the names outside the main commands. |
| HelpCommand.MainSection | commandes/help.py:39-43 | The loop builds the main section. |
| HelpCommand.Execute | commandes/help.py:4-66 | The reply is the three sections and the total built from the discovered dictionary. |
| HelpCommand.PresentInOrder | commandes/help.py:41-43 | Lines follow the order of the command list. |
| HelpCommand.OutsideSorted | commandes/help.py:33-50 | Filtering a strictly sorted list keeps it strictly sorted. |
| HelpCommand.DefaultOnlyWithoutCustom | commandes/help.py:12-29 | The default description is shown exactly for commands without a custom one. |
| HelpCommand.MainSectionIsFixedOrder | commandes/help.py:39-43 | The main section lists exactly the found main commands, each once with its description, in the fixed order. |
| HelpCommand.OtherSectionIsSorted | commandes/help.py:33-50 | The other section lists exactly the found commands that are not main, each once with its description, in strictly increasing order. This includes `admin` and `broadcast`, whoever asks. |
| HelpCommand.AdminSectionOnlyForAdmins | commandes/help.py:53-59 | The admin section is empty for non-admins. For an admin it lists the found admin commands. It is non-empty iff the sender is an admin and `admin` or `broadcast` was found. |
| HelpCommand.TotalCountsCommands | commandes/help.py:62 | The total is the number of different command names found. |
| HelpCommand.HelpListsInit | commandes/help.py:9-50 | When the glob finds `__init__.py`, `__init__` is listed among the other commands. |
| MemoryCommand.SpeakerOf | commandes/memory.py:15 | An entry is the person's iff its type is exactly `'user'`. |
| MemoryCommand.LineFor | commandes/memory.py:15-21 | A line carries its number and speaker. It shows the whole content when that is at most 60 characters, and otherwise the first 60 followed by "...". |
| MemoryCommand.Execute | commandes/memory.py:1-46 | A missing or empty memory gives the first-exchange reply. Otherwise there is one line per entry in stored order, numbered from 1, plus the stored count out of 10. A score line appears iff the sender has a game, with the score defaulting to 0. |
| StartCommand.MentionsHelp | commandes/start.py:19-20 | A text around `/help` mentions it, whatever case it is read in. |
| StartCommand.WithHelpHint | commandes/start.py:17-21 | The result always mentions `/help` once lower-cased. A response that already does is unchanged. Otherwise the hint is appended. |
| StartCommand.HintAddedOnce | commandes/start.py:19-21 | Applying the rule twice adds the hint only once. |
| StartCommand.CapitalsCountAsMention | commandes/start.py:19 | `/HELP` counts as a mention, so no hint is added. |
| StartCommand.Execute | commandes/start.py:1-34 | The request is always the persona and the greeting, with 150 tokens at temperature 0.9. A non-empty answer gets the hint rule. An empty or missing answer gives the fixed presentation. The reply always mentions `/help` once lower-cased. |
| StartCommand.PresentationMentionsHelp | commandes/start.py:24-34 | The fixed presentation contains `/help` as written. |
| AiCommand.MentionsKeywordFromIff | commandes/ai.py:15-16 | The keyword loop finds one exactly when some keyword occurs in the text. |
| AiCommand.AsksForCreatorIff | commandes/ai.py:15-16 | A creator question is recognised exactly when a keyword occurs in the lower-cased message. |
| AiCommand.CreatorCheckIgnoresCase | commandes/ai.py:16 | Recognition does not depend on letter case. |
| AiCommand.BuildMessages | commandes/ai.py:23-36 | The request has `len(context) + 2` messages: the persona, then the context unchanged, then the user's message as written. |
| AiCommand.Execute | commandes/ai.py:1-46 | A blank message gives a drawn topic, with no request and no write. A creator question gives the fixed answer, with no request and no write. Otherwise the request is persona + context + message, with 200 tokens at temperature 0.8. Exactly one `('bot', answer)` write and the answer reply happen iff the answer is non-empty. Otherwise the reply is the fallback. |

## Left out

- Floating-point figures are left out: the broadcast success rate, the admin activity and participation ratios, the averages and their `:.1f` formatting. Only the counts they are computed from are modelled.
- `datetime` parsing and formatting are left out: game start times, the memory's last-activity line and the broadcast time. Memory entries carry no timestamp.
- The admin `test` action is only partly modelled. It is kept as the two presence checks on the shared collections. The test call to the text generator, the access-token check through `globals()` and the always-true dictionary type check are left out.
- `urllib.parse.quote` and the image URL are left out. The image request is modelled as the enhanced prompt and the seed.
- The bodies of the injected collaborators are not part of this model. These are `call_mistral_api`, `broadcast_message`, `add_to_memory`, `get_memory_context`, `is_admin`, `send_message` and `send_image_message`. Their answers are inputs, and `add_to_memory` is recorded as a call.
- Filesystem discovery is left out. For the package loader the file listing is an input of base names. For help it is the list of paths the glob returns.
- `package_path` in the package info is left out, because it is a filesystem path.
- Logging, the `print` calls at package load and the exact emoji and French reply texts are left out. Replies are datatypes.
- Python's set and dictionary iteration orders are inputs. The dictionary orders are key sequences checked by `KeyOrder`, and `user_list` is a sequence in its iteration order.
- Malformed stored values are left out. This covers non-integer coordinator counters, memory entries without `type` or `content` and non-string arguments, which in Python raise type or key errors.
- Text.Lower: lower-cases ASCII and Latin-1 capitals only, one character for one character. Python's `str.lower()` follows the full Unicode case mapping, and for input outside Latin-1 it can change the length or give a different letter: `'İ'.lower()` is two characters and `'\u212A'.lower()` (the Kelvin sign) is `k`. The length checks of `ImageCommand.ValidatePrompt` after `/image` (commandes/image.py:32 lower-cases before the checks at lines 5 and 8) and `AiCommand.AsksForCreator` can therefore decide differently from the source on such input: `/image İİ` passes the length check in the source but is too short here, 101 dotted capitals I are too long in the source but accepted here, and `MAKER` written with a Kelvin sign is a creator question in the source but not here.
- HelpCommand.Discovered: it does not state that the dictionary has as many keys as the key order. Only the total's relation to the distinct names found is proved (`TotalCountsCommands`).
