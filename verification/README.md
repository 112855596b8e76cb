# Table-tennis ladder bot: store and match lifecycle

A Dafny model of the core of a Telegram bot that keeps a table-tennis rating
ladder. The core is the SQLite store of `src/db.py` and the handlers of
`bot.py` that write to it:

- the `players` table: an AUTOINCREMENT id, a UNIQUE Telegram id, a username,
  and a rating defaulting to 1500;
- the `matches` table: two player ids, two scores, a winner id and a
  `confirmed` flag defaulting to false;
- registration (`register_player`, `/reg`, `update_username`);
- match reporting (`/match @opponent s1:s2`, `record_match`);
- confirmation (`confirm_match` behind the confirm button) and rejection
  (the `DELETE` behind the reject button);
- the read-only queries: player lookups, the leaderboard and the
  games-played count;
- the `confirm:<id>` / `reject:<id>` callback data.

Modules:

- `Wrappers` (`wrappers.dfy`): `Option` and `Result`.
- `Parsing` (`parsing.dfy`): the string handling the handlers rely on.
  - `str.split()` and `str.split(sep)`, each with its partner `" ".join` /
    `sep.join`.
  - `str.lstrip(c)`.
  - `str(n)` and a simplified `int(s)`.
  - Score parsing `map(int, score.split(":"))`.
- `Ladder` (`ladder.dfy`): the two tables of `src/db.py`.
  - `Db` is a snapshot of both tables with their id counters.
  - `Register`, `Record` and `Confirm` are the writes as functions of that
    snapshot. The lookups, `RatingTable` and `GamesPlayed` are the queries.
  - The class `Store` is the database updated in place. Its methods
    `RegisterPlayer`, `RecordMatch` and `ConfirmMatch` are proved to leave
    exactly the snapshot the corresponding function describes.
  - `calculate_elo` is the store's `elo` field, a function supplied when the
    store is created; the model never looks inside it.
- `Bot` (`bot.dfy`): the handlers of `bot.py`.
  - `CmdReg`, `CmdMatch`, `OnConfirmMatch` and `OnRejectMatch` work on a
    `Store`.
  - `Decide` is the `/match` decision: parse the score, look both players
    up, refuse self-play, choose the winner.
  - `Consistent` is the invariant the handlers keep: every stored match
    names two distinct registered players and a winner who is one of them.
    It is what lets a confirmation read the winner's and the loser's rows
    without failing.

What the code does, as opposed to what a reader might expect, is modelled as
written:

- `confirm_match` never consults `confirmed`, so a second confirmation
  applies the rating calculator again (`Ladder.ConfirmTwiceReapplies`).
- Rejection deletes a match whether or not it was confirmed. Rejecting a
  confirmed match therefore leaves its rating changes in place
  (`Bot.RejectAfterConfirmKeepsRatings`).
- Neither button handler checks who pressed it.

There are no team matches in the code.

`Bot.OnConfirmMatch` requires `Bot.Consistent` of the store, because
`confirm_match` fails on a missing winner or loser row. The invariant holds
for the empty tables `Ladder.Empty`, and `Bot.CmdReg`, `Bot.CmdMatch`,
`Bot.OnConfirmMatch` and `Bot.OnRejectMatch` each keep it, so every store the
handlers produce meets it.

## Model

| member | source | states |
|---|---|---|
| Parsing.Words | bot.py:93 | `text.split()` yields only non-empty, whitespace-free tokens, with Python's `isspace` set as the whitespace |
| Parsing.WordsOfUnwords | bot.py:93 | splitting words joined by single spaces (`Unwords`, that is `Join` with a space) gives back exactly those words |
| Parsing.WordsAfterSpace | bot.py:93 | leading whitespace does not change the tokens |
| Parsing.WordsOfSpaced | bot.py:93 | words each followed by a whitespace run, non-empty between words, split back into exactly those words |
| Parsing.WordsOfLayout | bot.py:93 | words separated by any non-empty whitespace runs, with optional leading and trailing whitespace, split back into exactly those words |
| Parsing.LayoutOfWords | bot.py:93 | conversely, every text is leading whitespace followed by its tokens, each followed by whitespace that is non-empty between tokens; with `WordsOfLayout` this pins `Words` down on every text |
| Parsing.Split | bot.py:107 | `s.split(sep)` has one more piece than `s` has separators, and no piece contains the separator |
| Parsing.JoinOfSplit | bot.py:107 | joining the pieces of `s.split(sep)` with `sep` restores `s` |
| Parsing.SplitOfJoin | bot.py:107 | splitting separator-free pieces joined by the separator gives back those pieces |
| Parsing.StripLeading | bot.py:103 | `lstrip("@")` removes a prefix made only of `@` and leaves a tag that is empty or does not start with `@` |
| Parsing.ParseInt | bot.py:107 | a text is accepted iff it is a non-empty run of ASCII digits, optionally after one `+` or `-`; the value is the digits' decimal value, negated after `-`; an accepted text holds no colon |
| Parsing.IntToString | bot.py:25-26 | `str(i)` is non-empty, starts with `-` iff `i` is negative, and is otherwise made of ASCII digits |
| Parsing.NoOccurrences | bot.py:141 | a string without the separator has no occurrence of it, so splitting it gives one piece |
| Parsing.DigitsValueOfNatToString | bot.py:25-26 | the decimal digits written for a natural number read back as that number |
| Parsing.ParseIntOfIntToString | bot.py:141 | `int(str(i)) == i` for every integer, negative ones included |
| Parsing.IntToStringHasNoColon | bot.py:25-26 | the numeral of a match id contains no colon, so it survives `split(":")` whole |
| Parsing.IntToStringIsWord | bot.py:93 | the numeral of a score is a single whitespace-free token |
| Parsing.WordConcat | bot.py:93 | two whitespace-free tokens written together form one token |
| Parsing.ParseScore | bot.py:107 | a score is accepted only with exactly one colon |
| Parsing.SecondPiece | bot.py:141 | with no separator in the first two pieces, the second piece of `a:p…` is exactly `p`, whatever follows from the next separator on |
| Parsing.ParseScoreOfPieces | bot.py:107 | any two colon-free pieces around one colon: the score is accepted exactly when both pieces parse as integers, and is then their two values |
| Parsing.ParseScoreOfScoreText | bot.py:107 | a score written as `"<s1>:<s2>"` parses back to `(s1, s2)` |
| Ladder.Empty | src/db.py:10-36 | the tables `init_db` creates keep the invariants and hold no row |
| Ladder.EmptyQueries | src/db.py:10-36 | on those tables no player is found, nobody has played a game, and the leaderboard is empty |
| Ladder.Loser | src/db.py:86 | the loser is one of the match's players; when the players differ and the winner is one of them, the loser is the other one |
| Ladder.Register | src/db.py:38-45 | registration keeps Telegram ids unique and every id below the AUTOINCREMENT counter |
| Ladder.RegisterIdempotent | src/db.py:38-45 | with the Telegram id already present both tables are unchanged; registering twice equals registering once, whatever the second username |
| Ladder.RegisterNew | src/db.py:14-19 | a new Telegram id adds exactly one player under an unused id, with rating 1500; every other row is unchanged; the Telegram-id lookup then finds that player; the player counter moves past the new id and the match counter stays |
| Ladder.Record | src/db.py:65-73 | recording a match keeps the table invariants |
| Ladder.RecordAddsOne | src/db.py:65-73 | exactly one match is added under an unused id, unconfirmed, with the given players, scores and winner; players, other matches and every games-played count are unchanged; the match counter moves past the new id and the player counter stays |
| Ladder.Confirm | src/db.py:75-99 | confirmation keeps the table invariants |
| Ladder.ConfirmAbsent | src/db.py:78-81 | confirming an absent id changes nothing |
| Ladder.ConfirmApplies | src/db.py:83-99 | the winner's and loser's ratings become the two results of the calculator on their old ratings, and the match becomes confirmed; no other rating, player field or match changes |
| Ladder.ConfirmTwiceReapplies | src/db.py:75-99 | confirming an already confirmed match applies the calculator again to the ratings the first confirmation left, and leaves the match table as it was |
| Ladder.PlayerByTelegramId | src/db.py:53-57 | finds a player iff one has that Telegram id, and then it is the unique one |
| Ladder.PlayerByUsername | src/db.py:47-51 | finds some player with exactly that username, or none when no player has it |
| Ladder.PlayerById | src/db.py:59-63 | finds the row stored under the id, if there is one |
| Ladder.CountedIdsAfterUpdate | src/db.py:116-119 | overwriting one match changes the counted set only at that match's id |
| Ladder.GamesPlayedAfterConfirm | src/db.py:113-120 | confirming a match adds one game to each of its players exactly when it was unconfirmed, and changes nobody else's count |
| Ladder.GamesPlayedAfterDelete | src/db.py:113-120 | deleting a match takes one game from each of its players exactly when it counted, and changes nobody else's count |
| Ladder.GamesPlayed | src/db.py:113-120 | the count of confirmed matches with the player on either side: each match counts at most once, so it never exceeds the number of matches, and it is zero exactly when no confirmed match involves the player |
| Ladder.NoneCounted | src/db.py:117-118 | no match is counted exactly when no confirmed match has the player on either side |
| Ladder.RankedIds | src/db.py:107-111 | the leaderboard order is a permutation of all player ids, by non-increasing rating |
| Ladder.RatingTable | src/db.py:107-111 | the rows are the players' `(username, rating)` rows taken along a permutation of the player ids, so each player appears exactly once; in non-increasing rating order |
| Ladder.Store.constructor | src/db.py:10-36 | a new store holds two empty tables with both counters at 1 |
| Ladder.Store.RegisterPlayer | src/db.py:38-45 | the store afterwards holds exactly `Register` of its old contents |
| Ladder.Store.RecordMatch | src/db.py:65-73 | returns the counter's id, which was unused, and the store afterwards holds exactly `Record` of its old contents |
| Ladder.Store.ConfirmMatch | src/db.py:75-99 | returns true iff the match exists; the three sequential UPDATEs leave exactly `Confirm` of the old contents |
| Ladder.EqualRatingsExample | src/db.py:75-105 | with a calculator giving 1516/1484 for two 1500 ratings, a confirmed 3:1 match leaves 1516 and 1484; a second confirmation returns true and re-applies the calculator |
| Bot.CallbackData | bot.py:25-26 | the data is the action, a colon, then the match id's numeral |
| Bot.CallbackId | bot.py:141 | data with no colon (Python's `IndexError`) gives no id; an id, when found, is the parse of the piece after the first colon |
| Bot.CallbackIdOfText | bot.py:141 | for any colon-free action and piece, and anything after a further colon, the id is the parse of that piece (e.g. `"confirm:5:x"` gives 5) |
| Bot.CallbackIdOfData | bot.py:180 | parsing `split(":")[1]` of `"<action>:<id>"` gives back the id, for any colon-free action |
| Bot.ConfirmKeyboard | bot.py:22-28 | the buttons carry the `confirm:` and `reject:` prefixes their handlers listen for, and both give the match id back |
| Bot.Renamed | bot.py:36 | the UPDATE renames exactly the rows with that Telegram id and keeps every id, Telegram id and rating |
| Bot.UsernameUpdate | bot.py:32-37 | an absent or empty username changes nothing; otherwise only the matching player's username changes, and no rating, player or match |
| Bot.UpdateUsername | bot.py:32-37 | the store afterwards holds exactly `UsernameUpdate` of its old contents |
| Bot.ConsistentConfirmable | src/db.py:83-91 | in a consistent store every match's winner and loser rows exist, so confirmation cannot fail on a missing row |
| Bot.ConsistentAfterPlayerWrites | src/db.py:38-99 | registering, renaming and confirming keep every stored match well formed |
| Bot.CmdReg | bot.py:48-64 | no username: nothing changes; known Telegram id: only the username is refreshed; otherwise the player is registered; consistency is kept |
| Bot.Decide | bot.py:103-123 | refuses a bad score iff it does not parse; refuses an unknown opponent iff the score parses and the `@`-stripped tag names nobody; refuses an unregistered author iff the score parses, the opponent is found and the author is not; refuses self-play iff the score parses and both lookups find the same player; accepts iff every guard passes; an accepted report names the author and the tagged opponent, who are different players, with the parsed scores, and the author wins iff `s1 > s2` |
| Bot.MatchOf | bot.py:124 | the report is stored as `(author, opponent, s1, s2, winner)`, unconfirmed, so `confirm_match` later takes the other player as the loser |
| Bot.DecideAcceptsWrittenScore | bot.py:106-123 | a written score against another registered player is accepted with exactly that score, and a draw goes to the opponent |
| Bot.ScoreTextIsWord | bot.py:93 | a written score is one whitespace-free token |
| Bot.MatchCommandTokens | bot.py:93-96 | `/match @<name> <s1>:<s2>` splits into exactly its three tokens |
| Bot.MatchCommandEffect | bot.py:91-124 | anything but three tokens is refused with no change; otherwise only the author's username is refreshed, a refusal records nothing, and a recording adds exactly one unconfirmed, well-formed match under the fresh id, equal to the accepted report; the player counter never moves and the match counter moves by one exactly on a recording |
| Bot.CmdMatch | bot.py:91-124 | the outcome and the store afterwards are exactly `MatchCommandEffect` of the old contents |
| Bot.OnConfirmMatch | bot.py:139-174 | unparsable data changes nothing; an unknown match is not found and changes nothing; otherwise the match is confirmed whoever pressed and whatever its flag; consistency is kept |
| Bot.Delete | bot.py:196-199 | deleting a match keeps the table invariants |
| Bot.DeleteRemovesOnlyTheMatch | bot.py:196-199 | the delete removes exactly that match, and no player, rating or other match changes |
| Bot.RejectAfterConfirmKeepsRatings | bot.py:178-199 | rejecting a match after it was confirmed removes it and its games-played count but keeps the confirmation's ratings |
| Bot.OnRejectMatch | bot.py:178-202 | unparsable data changes nothing; an unknown match is not found and changes nothing; otherwise the match is deleted whoever pressed and whatever its flag; consistency is kept |
| Bot.SessionRefresh | bot.py:101 | re-sending the username alice already has leaves the tables unchanged |
| Bot.SessionReport | bot.py:103-123 | alice's `@bob 3:1` is accepted as her 3:1 win over bob |
| Bot.SessionRegistration | src/db.py:38-45 | registering two new Telegram ids on empty tables gives players 1 and 2, rated 1500 |
| Bot.SessionMatch | bot.py:91-124 | alice's `/match @bob 3:1` records match 1 as her win |
| Bot.SessionConfirmThenReject | src/db.py:75-99 | confirming match 1 gives 1516/1484 and alice one game; a later reject takes the game away but keeps the ratings |
| Bot.ExampleSession | bot.py:48-202 | on the store: two registrations, a report, the confirm button, then the reject button, with the ratings and game counts above |

## Left out

- `calculate_elo` (src/db.py:101-105): it uses floating point and
  round-half-to-even. It is a function passed to the store, and only the
  equal-ratings case 1500/1500 → 1516/1484 is assumed, in the examples.
- `int()` leniency: Python also accepts surrounding whitespace, underscores
  and non-ASCII digits. `Parsing.ParseInt` accepts only an optional sign
  followed by ASCII digits and refuses everything else.
- Telegram I/O: every message, `edit_text`, `callback.answer` and
  `send_message`, keyboard rendering and polling. This includes choosing whom
  to notify after a confirmation (bot.py:163-171) or a rejection
  (bot.py:204-210).
- `/start`, `/whoami` and `/rating`: `/start` only sends a message.
  `/whoami` is the username refresh plus the lookups and the games-played
  count, all modelled. `/rating`'s text formatting is not modelled.
- Plumbing: `.env` and token loading, connection handling, executing the
  DDL, and the `timestamp` column.
- Foreign keys: SQLite does not enforce the declared foreign keys, and the
  model does not either. `Bot.Consistent` is the property the handlers keep
  instead.
- Ladder.RatingTable: the order among players with equal ratings is not
  fixed by the SQL. The model lists them by id, and the contract promises
  only non-increasing order along some permutation of the players.
- Ladder.PlayerByUsername: usernames are not unique and the SQL has no
  ORDER BY. The model returns the lowest id, but the contract promises only
  some player with that username.
- Bot.Decide: the exception raised for an unregistered author (bot.py:119)
  is the refusal `AuthorNotRegistered`, which records nothing. A username
  refresh already applied stays applied, as the committed UPDATE does.
- Bot.CallbackId: a `ValueError` or `IndexError` while parsing callback data
  is the outcome `BadCallback`, with nothing changed.
- Ladder.Store.ConfirmMatch: the exception `confirm_match` raises when the
  winner's or loser's row is missing is a precondition (`Confirmable`). The
  handlers discharge it through `Bot.Consistent`.
- Ladder.Register: with the Telegram id already present, the model leaves
  `nextPlayerId` where it was. SQLite may still consume an AUTOINCREMENT
  value for the ignored insert (src/db.py:15, src/db.py:42), so later ids
  can be larger than the model's. Only the tables are promised unchanged.
  `/reg` never reaches this case, because it looks the Telegram id up first
  (bot.py:57-63).
- Integer widths: ids, scores and ratings are unbounded integers. SQLite's
  64-bit limit is not modelled.
