# FunGame: rock-paper-scissors-lizard-Spock, modelled in Dafny

FunGame plays one round of rock-paper-scissors-lizard-Spock across three services:

- the **game service** resolves a pair of choices into `"Tie"`, `"Player wins!"` or `"Computer wins!"` using the fixed `WinsAgainst` table;
- the **score service** keeps an in-memory store of game results and answers with the ten most recent;
- the **player service** validates a play request, picks the computer's choice (from a remote random number in 1..100, or locally when that fails), asks the game service for the result, saves the score on a best-effort basis and answers with a fun fact.

The model has one module per source file:

| module | file | models |
|---|---|---|
| `GameConstants` | `game_constants.dfy` | the `GameChoice` enumeration, `WinsAgainst`, the fun-fact corpora and `GetFunFact` |
| `GameChoiceExtensions` | `game_choice_extensions.dfy` | `GetValidChoices`, `GetValidChoiceNames`, the invalid-choice message |
| `EnumHelper` | `enum_extensions.dfy` | `GetValuesWithout` |
| `GameService` | `game_controller.dfy` | `GameController.Compute` |
| `ScoreService` | `score_controller.dfy` | `ScoreController`: a class whose `gameResults` field is the static store |
| `PlayerService` | `player_controller.dfy` | `PlayerController.Play` and its private steps |

Two supporting modules hold what the C# takes from .NET:
- `Collections` (`collections.dfy`) holds LINQ `Where`/`Select` and `string.Join`;
- `Strings` (`strings.dfy`) holds `string.IsNullOrEmpty` and an ASCII `ToLowerInvariant`.

Modelling choices:

- **Choices on the wire.** Requests carry choices as their underlying integers. `None` is -1 and `Rock`..`Spock` are 0..4, so an integer such as -2 or 7 is an undefined enumeration value. `Enum.GetValues` orders members by the unsigned value of that integer, so `None` comes last.
- **Remote calls are inputs.** `Play` receives each call's outcome as a value: an answer with status and body, a transport error, or a timeout. It returns the list of calls it made, in order, so the contracts can say which calls happen.
- **Random picks are nondeterministic.** `Random.Shared` becomes an arbitrary index (`:|`). The specification of a fun fact is therefore the set of facts the pick can return.
- **The score store is a sequence.** Its order stands for the `ConcurrentBag`'s enumeration order, which is unspecified. Nothing stated about `GetRecent` depends on that order. `GetRecent` is specified by `IsRecentOf`, and `Recent` is proved to meet it.

## Model

| member | source | states |
|---|---|---|
| GameConstants.ChoiceOf | Common/GameConstants.cs:6-13 | casting a defined integer gives the member whose underlying value it is |
| GameConstants.IsDefinedId | PlayerService/Controllers/PlayerController.cs:87 | `Enum.IsDefined`: the integers -1 to 4 |
| GameConstants.DefinedIdsAreIds | PlayerService/Controllers/PlayerController.cs:87 | an integer is defined exactly when some member has it as its underlying value |
| GameConstants.IdRoundTrip | Common/GameConstants.cs:6-13 | every member's underlying value is defined and casts back to the member |
| GameConstants.AllValues | Common/Helpers/EnumExtensions.cs:7 | `Enum.GetValues`: the five real choices in declaration order, then `None` (-1 sorts last as an unsigned value) |
| GameConstants.Ordinal | Common/Helpers/EnumExtensions.cs:7 | each member has one position in `Enum.GetValues` |
| GameConstants.AllValuesInOrdinalOrder | Common/Helpers/EnumExtensions.cs:7 | `Enum.GetValues` lists the members in that position order |
| GameConstants.AllValuesOnce | Common/Helpers/EnumExtensions.cs:7 | `Enum.GetValues` lists every member exactly once |
| GameConstants.WinsAgainstKeys | Common/GameConstants.cs:17-24 | the table has an entry for each of the five real choices and none for `None` |
| GameConstants.BeatsIrreflexive | Common/GameConstants.cs:19-23 | no choice appears in its own list, so none beats itself |
| GameConstants.WinsAgainstTwoEach | Common/GameConstants.cs:19-23 | every list holds exactly two different real choices |
| GameConstants.BeatsExactlyOneDirection | Common/GameConstants.cs:19-23 | of two different real choices, exactly one beats the other |
| GameConstants.BeatsEdgesExplicit | Common/GameConstants.cs:17-24 | the (winner, loser) edges of the table are exactly the ten listed pairs |
| GameConstants.BeatsEdgesCount | Common/GameConstants.cs:17-24 | the table has ten edges, one per unordered pair of real choices |
| GameConstants.FunFactKeysAreBeatsEdges | Common/GameConstants.cs:17-38 | the keys of `FunFacts` are exactly the edges of `WinsAgainst` |
| GameConstants.Corpus | Common/GameConstants.cs:55-56 | a random index into a corpus can select exactly its strings, and a non-empty corpus offers at least one |
| GameConstants.FunFactChoicesAsWritten | Common/GameConstants.cs:52-57 | as written: the facts `GetFunFact` can return, by the `"Tie!"` test, then the (player, computer) key, then the general corpus |
| GameConstants.FunFactsByCaseAsWritten | Common/GameConstants.cs:52-57 | as written: label `"Tie!"` draws from the tie corpus; otherwise a (player, computer) key gives its own fact and anything else a general fact; the fact is always known and non-empty |
| GameConstants.TieRoundMissesTieFactsAsWritten | Common/GameConstants.cs:54 | as written, a tie labelled `"Tie"` by the game service gets a general fact and never a tie fact |
| GameConstants.FunFactChoices | Common/GameConstants.cs:52-57 | corrected: the same lookup with the tie test on the game service's label `"Tie"` |
| GameConstants.FunFactsByCase | Common/GameConstants.cs:52-57 | corrected tie test: a tie draws from the tie corpus; a winning pair gets its own fact; a losing or unknown pair gets a general fact; the fact is always known and non-empty |
| GameConstants.TieRoundGetsTieFact | Common/GameConstants.cs:54-55 | corrected: a tie round's facts are exactly the tie corpus |
| GameConstants.FunFactLookupsAgreeOffTies | Common/GameConstants.cs:54-56 | on any label other than `"Tie"` and `"Tie!"` the as-written and corrected lookups offer the same facts |
| GameConstants.GetFunFact | Common/GameConstants.cs:52-57 | as written: the fact returned is one `FunFactChoicesAsWritten` allows, so `"Tie!"` gives a tie fact, a (player, computer) key its own fact, and anything else a general fact |
| GameConstants.GetFunFactCorrected | Common/GameConstants.cs:52-57 | corrected: the fact returned is one `FunFactChoices` allows, so a `"Tie"` round gets a tie fact |
| Strings.ToLowerInvariant | Common/Helpers/GameChoiceExtensions.cs:17 | same length, each character lower-cased, no upper-case letter left |
| EnumHelper.GetValuesWithout | Common/Helpers/EnumExtensions.cs:5-10 | the excluded member is absent, every other member appears exactly once, there is one fewer than all members, and declaration order is kept |
| GameChoiceExtensions.GetValidChoices | Common/Helpers/GameChoiceExtensions.cs:7-12 | `None` is absent, every real choice is present, and the list is `[Rock, Paper, Scissors, Lizard, Spock]` |
| GameChoiceExtensions.ValuesWithoutNoneAreValidChoices | Common/Helpers/EnumExtensions.cs:5-10 | `None.GetValuesWithout()` equals `GetValidChoices()` |
| GameChoiceExtensions.LowerNamesSpelled | Common/Helpers/GameChoiceExtensions.cs:17 | each real choice's lower-cased name, spelled out |
| GameChoiceExtensions.GetValidChoiceNames | Common/Helpers/GameChoiceExtensions.cs:14-19 | one name per valid choice, in the same order; the i-th is the lower-cased name of the i-th choice; the list is `["rock", "paper", "scissors", "lizard", "spock"]` |
| GameChoiceExtensions.ValidChoiceNamesSpelled | Common/Helpers/GameChoiceExtensions.cs:16-18 | mapping the valid choices to lower-cased names gives the five names spelled out |
| GameChoiceExtensions.ValidChoiceNamesLower | Common/Helpers/GameChoiceExtensions.cs:16-18 | every name is non-empty and has no upper-case letter |
| GameChoiceExtensions.ValidChoiceNamesDistinct | Common/Helpers/GameChoiceExtensions.cs:16-18 | no two names are equal |
| GameChoiceExtensions.ListingMessage | GameService/Controllers/GameController.cs:32 | a prefix, the comma-joined names and a full stop: the message starts with the prefix and contains every name |
| GameChoiceExtensions.InvalidChoiceMessage | GameService/Controllers/GameController.cs:32 | the invalid-choice message starts with `"Invalid choice. Choose "` and contains every valid choice name |
| GameService.IsValidChoiceId | GameService/Controllers/GameController.cs:22-29 | an id the game service accepts: a defined member, and one of `GetValidChoices()`, so not `None` |
| GameService.Compute | GameService/Controllers/GameController.cs:18-55 | `"Invalid game choices."` iff either choice is `None`; otherwise the listing message iff either is not a valid choice; for two valid choices `"Tie"` iff equal, `"Player wins!"` iff the player's choice beats the computer's, `"Computer wins!"` iff the reverse; the 500 answer never happens |
| GameService.ErrorMessagesDiffer | GameService/Controllers/GameController.cs:25-32 | the two 400 messages are different strings |
| GameService.ValidIdsAreRealChoices | GameService/Controllers/GameController.cs:28-29 | a valid id is 0..4 and names a real choice |
| GameService.ComputeSwapsWinner | GameService/Controllers/GameController.cs:35-48 | for different valid choices, the player wins (a, b) iff the computer wins (b, a), and the pair is never a tie |
| GameService.ComputeTotalOnValidChoices | GameService/Controllers/GameController.cs:41-54 | valid choices always get Ok with one of the three labels |
| ScoreService.InsertByTimestamp | ScoreService/Controllers/ScoreController.cs:48 | inserting into a latest-first sequence keeps it latest-first and adds exactly the one entry |
| ScoreService.SortByTimestampDesc | ScoreService/Controllers/ScoreController.cs:48 | `OrderByDescending(Timestamp)`: latest first, a permutation of the store |
| ScoreService.SplitSorted | ScoreService/Controllers/ScoreController.cs:49 | cutting a latest-first sequence leaves nothing later behind the cut |
| ScoreService.MostRecent | ScoreService/Controllers/ScoreController.cs:47-49 | `min(count, size)` stored entries, latest first, a sub-multiset of the store, no entry left out (counting duplicates) later than any entry selected, and the whole store when it fits |
| ScoreService.MostRecentKeepsLater | ScoreService/Controllers/ScoreController.cs:47-49 | a stored entry is selected when the store fits, and whenever it is later than the last entry selected |
| ScoreService.CopiesOfSelected | ScoreService/Controllers/ScoreController.cs:50-57 | the copy of a selected entry is among the copies |
| ScoreService.Recent | ScoreService/Controllers/ScoreController.cs:47-58 | the query over a store: copies of `MostRecent(store, 10)`; its properties are the lemmas below |
| ScoreService.RecentLength | ScoreService/Controllers/ScoreController.cs:47-58 | the query returns `min(10, size)` records |
| ScoreService.RecentOrdered | ScoreService/Controllers/ScoreController.cs:48 | the records are latest first |
| ScoreService.RecentFromStore | ScoreService/Controllers/ScoreController.cs:50-57 | each record copies all five fields of a stored entry |
| ScoreService.CopyCount | ScoreService/Controllers/ScoreController.cs:50-57 | copying keeps counts: a stored entry has as many copies as occurrences, so two identical records give two identical copies |
| ScoreService.OmittedCopyNotLater | ScoreService/Controllers/ScoreController.cs:48-49 | any copy of a stored entry that the answer omits, counting duplicates, is no later than any returned record |
| ScoreService.RecentKeepsLater | ScoreService/Controllers/ScoreController.cs:48-49 | every copy left out, counting duplicates, is no later than every record returned; a store of ten or fewer is returned whole, duplicates included |
| ScoreService.RecentDrawnFromStore | ScoreService/Controllers/ScoreController.cs:47-58 | the copies are a sub-multiset of the copies of the store: no entry is returned more often than it is stored |
| ScoreService.RecentIsRecentOf | ScoreService/Controllers/ScoreController.cs:47-58 | the query meets `IsRecentOf` on every store: length, order, each copy from a stored entry, a sub-multiset of the store's copies, no copy left out (counting duplicates) later than a returned one, the whole store when it has ten or fewer entries |
| ScoreService.ScoreController.constructor | ScoreService/Controllers/ScoreController.cs:15 | the store starts empty |
| ScoreService.ScoreController.Add | ScoreService/Controllers/ScoreController.cs:19-40 | a null or empty result is rejected with `"Invalid game result."` and the store is unchanged; otherwise Ok and exactly that entry is appended, with no other field checked |
| ScoreService.ScoreController.GetRecent | ScoreService/Controllers/ScoreController.cs:43-68 | the result is `IsRecentOf` the store: at most ten copies, latest first, each copying a stored entry, no entry copied more often than it is stored, no copy left out (counting duplicates) later than a returned one, the whole store when it has ten or fewer entries |
| ScoreService.ScoreController.Reset | ScoreService/Controllers/ScoreController.cs:71-84 | the store is empty afterwards |
| ScoreService.ScoreController.ClearGameResultsForTesting | ScoreService/Controllers/ScoreController.cs:87-90 | taking entries out one at a time ends with an empty store |
| PlayerService.OpponentIndex | PlayerService/Controllers/PlayerController.cs:125 | `(n - 1) % count` is an index of the list, and number n <= count picks index n - 1 |
| PlayerService.SelectingBlock | PlayerService/Controllers/PlayerController.cs:124-125 | five consecutive numbers after a multiple of five select each index once |
| PlayerService.SelectingNumbersPerIndex | PlayerService/Controllers/PlayerController.cs:124-125 | with five choices, each index is selected by exactly k of the numbers 1..5k |
| PlayerService.OpponentSelectionIsFair | PlayerService/Controllers/PlayerController.cs:124-125 | each of the five valid choices is selected by exactly 20 of the numbers 1..100 |
| PlayerService.FirstNumberSelectsRock | PlayerService/Controllers/PlayerController.cs:125 | the number 1 selects Rock |
| PlayerService.ThreeSelectsScissors | PlayerService/Controllers/PlayerController.cs:125 | the number 3 selects Scissors |
| PlayerService.IsUsableRandomNumber | PlayerService/Controllers/PlayerController.cs:117-123 | the answer is used only when it arrived with a success status and carries a number from 1 to 100 |
| PlayerService.GetComputerChoice | PlayerService/Controllers/PlayerController.cs:112-134 | the choice is always one of the list; when the answer is a success with a number in 1..100 it is the one that number selects |
| PlayerService.CalculateGameResult | PlayerService/Controllers/PlayerController.cs:136-176 | resolved iff a success answer carries a non-null, non-empty result, which is returned unchanged; 503 "unavailable" iff transport error or unsuccessful status; 503 "timed out" iff timeout; 500 "invalid response" iff a success answer has a null, malformed or empty body |
| PlayerService.EffectiveUserId | PlayerService/Controllers/PlayerController.cs:182 | `"Anonymous"` when the user id is null or empty, otherwise the id unchanged |
| PlayerService.SaveScore | PlayerService/Controllers/PlayerController.cs:178-199 | the posted score carries the effective user id, the raw player choice, the opponent and the result; a failed save is only reported |
| PlayerService.GetGameResult | PlayerService/Controllers/PlayerController.cs:201-212 | the response carries both choices, the result unchanged and a fun fact for them |
| PlayerService.Play | PlayerService/Controllers/PlayerController.cs:79-110 | choice -1 gives `"PlayerChoiceId is required."` and an undefined choice the listing message, both with no remote call; a playable choice plays a round (`RoundPlayed`) |
| PlayerService.RoundPlayed | PlayerService/Controllers/PlayerController.cs:93-104 | what one round produces: the random-number call, then compute with the player's choice and a valid opponent, then either the fault (no save) or the score posted and a response with both choices, the label and a fun fact from the corrected lookup |
| PlayerService.PlayRound | PlayerService/Controllers/PlayerController.cs:93-104 | calls run random number, then compute with a valid opponent (the selected one when the number is usable); a game-service fault aborts after two calls with no save; otherwise the score is posted third and the response carries both choices, the label and an allowed fun fact |
| PlayerService.RealChoiceIdIsValid | GameService/Controllers/GameController.cs:28-29 | a real choice's id passes the game service's validation |
| PlayerService.EngineLabelArrives | PlayerService/Controllers/PlayerController.cs:163-169 | a label from the game service reaches the round unchanged |
| PlayerService.EngineResolvesEveryRound | PlayerService/Controllers/PlayerController.cs:136-176 | against a working game service, valid choices always resolve, and the label names the winner by `WinsAgainst` |
| PlayerService.RockBeatsScissorsFact | Common/GameConstants.cs:28 | Rock beating Scissors gets the Rock-crushes-scissors fact |

## Left out

- HTTP and JSON are not modelled: routing, model binding, serialisation, status-code plumbing and the string form of enumeration values on the wire. Remote calls become `CallOutcome` values.
- `TimeoutAfter` (Common/TaskExtensions.cs) is a race against a timer. Only its effect is modelled, as the `TimedOut` outcome.
- An exception of another kind raised inside `CalculateGameResultAsync`'s first block (for example the HTTP client's own cancellation) escapes unwrapped. The model treats every failure to get an answer as a transport error or a timeout.
- What the error-handling middleware turns a `Faulted` round into is not modelled; it is framework plumbing.
- Logging is left out.
- Thread safety of the `ConcurrentBag` is left out. The store is modelled sequentially, and the bag's enumeration order is unspecified.
- The `catch`/rethrow paths of `Add`, `GetRecent` and `Reset` are left out: appending to the store cannot fail in the model.
- The store keeps every accepted entry, as the code does. A fixed-capacity store that evicts its oldest entry at write time is not modelled.
- The `GetAllChoices` and `GetRandomChoice` endpoints are not modelled. They only wrap `GetValidChoices` and `GetComputerChoice`.
- Service URLs and configuration are left out.
- The `GameResult` defaults (user "Anonymous", timestamp "now") are left out. Records are taken as given.
- `ToLowerInvariant` maps ASCII letters only. That is enough for the choice names.
- The `GameChoice` declared in Common/GameConstants.cs has no `None`. The controllers and helpers use the `FunGame.Common.Constants` variant, which has one; that file is not part of this model. Its values are inferred: `None` = -1 from the `PlayerChoiceId == -1` check, and Rock..Spock = 0..4 from the declaration order and the undefined value -2 used in the tests.
- The player service's tests expect `"PlayerChoice is required."`, but the code answers `"PlayerChoiceId is required."`. The model follows the code.
- The fun fact is keyed by (player, computer), as the code does, not by (winner, loser). A round the computer wins therefore gets a general fact.
- GameConstants.GetFunFact: the pick is any element of the corpus, not a uniformly random one.
- PlayerService.GetComputerChoice: the local fallback is any element of the list, not a uniformly random one.
- PlayerService.Play: uses the corrected fun-fact lookup (see Findings), while the code calls the lookup as written. A tie round gets a tie fact in the model and a general fact in the code.
- PlayerService.PlayRound: `RoundPlayed` takes the fun fact from `FunFactChoices` (corrected), not `FunFactChoicesAsWritten`. The two differ only on the labels `"Tie"` and `"Tie!"` (`FunFactLookupsAgreeOffTies`).
- PlayerService.RoundPlayed: states the fun fact through `FunFactChoices` (corrected), not `FunFactChoicesAsWritten`, so a tie round's fact in the specification is a tie fact where the code gives a general one.
- PlayerService.GetGameResult: calls `GetFunFactCorrected` where the code calls `GetFunFact` as written, with the same difference on tie rounds.
- ASP.NET creates a controller per request, but `GameResults` is static. One `ScoreController` object stands for that process-wide store. Its constructor stands for the static initializer that runs once per process, not for each request.

## Findings

| source | as written | input that shows it | evidently intended | confidence | as-written member | corrected member |
|---|---|---|---|---|---|---|
| Common/GameConstants.cs:54 | `GetFunFact` tests the label `"Tie!"`, but the game service labels a tie `"Tie"` (GameService/Controllers/GameController.cs:38) | any tie, e.g. Rock against Rock with label `"Tie"`: the lookup finds no (Rock, Rock) key and returns a general fact | a tie round gets a tie fact | high, not executed | GameConstants.TieRoundMissesTieFactsAsWritten | GameConstants.TieRoundGetsTieFact |
