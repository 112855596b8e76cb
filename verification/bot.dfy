/**
  The chat handlers of `bot.py` that touch the ladder store: the username
  refresh, `/reg`, `/match`, the confirm/reject buttons and the callback data
  that carries a match id from the buttons back to their handlers.
 */
module Bot {
  import opened Wrappers
  import opened Parsing
  import opened Ladder

  // ---------------------------------------------------------------------------
  // Callback data of the confirmation keyboard
  // ---------------------------------------------------------------------------

  const ConfirmAction: string := "confirm"
  const RejectAction: string := "reject"

  /** `f"{action}:{match_id}"`. */
  function CallbackData(action: string, matchId: int): (d: string)
    ensures |d| > |action| + 1 && d[..|action|] == action && d[|action|] == ':'
    ensures d[|action| + 1..] == IntToString(matchId)
  {
    action + ":" + IntToString(matchId)
  }

  /** `int(callback.data.split(":")[1])`; `None` where Python raises. */
  function CallbackId(data: string): (r: Option<int>)
    ensures ':' !in data ==> r.None?
    ensures r.Some? ==> |Split(data, ':')| >= 2 && ParseInt(Split(data, ':')[1]) == r
  {
    NoOccurrences(data, ':');
    var parts := Split(data, ':');
    if |parts| < 2 then None else ParseInt(parts[1])
  }

  /** Reading the id back out of callback data gives the id that was written in. */
  lemma CallbackIdOfData(action: string, matchId: int)
    requires ':' !in action
    ensures CallbackId(CallbackData(action, matchId)) == Some(matchId)
  {
    var digits := IntToString(matchId);
    IntToStringHasNoColon(matchId);
    assert Join([action, digits], ':') == CallbackData(action, matchId);
    SplitOfJoin([action, digits], ':');
    ParseIntOfIntToString(matchId);
  }

  /**
    Whatever follows the second piece, the id is `int()` of the piece after
    the first colon, as `split(":")[1]` takes it.
   */
  lemma CallbackIdOfText(action: string, p: string, rest: string)
    requires ':' !in action && ':' !in p
    requires rest == [] || rest[0] == ':'
    ensures CallbackId(action + ":" + p + rest) == ParseInt(p)
  {
    SecondPiece(action, p, rest, ':');
  }

  /** The callback data of the two inline buttons. */
  datatype Keyboard = Keyboard(confirmData: string, rejectData: string)

  /**
    `confirm_keyboard`: each button's data starts with the prefix its
    handler is registered for, and both carry the match id back intact.
   */
  function ConfirmKeyboard(matchId: int): (k: Keyboard)
    ensures "confirm:" <= k.confirmData && "reject:" <= k.rejectData
    ensures CallbackId(k.confirmData) == Some(matchId)
    ensures CallbackId(k.rejectData) == Some(matchId)
  {
    CallbackIdOfData(ConfirmAction, matchId);
    CallbackIdOfData(RejectAction, matchId);
    Keyboard(CallbackData(ConfirmAction, matchId), CallbackData(RejectAction, matchId))
  }

  // ---------------------------------------------------------------------------
  // Usernames
  // ---------------------------------------------------------------------------

  /** Python truthiness of `from_user.username`: present and not empty. */
  predicate Present(username: Option<string>) {
    username.Some? && username.value != []
  }

  /** `UPDATE players SET username = ? WHERE telegram_id = ?` on the players table. */
  function Renamed(players: map<int, Player>, telegramId: int, username: string): (r: map<int, Player>)
    ensures r.Keys == players.Keys
    ensures forall id | id in players ::
              && r[id].telegramId == players[id].telegramId
              && r[id].rating == players[id].rating
              && r[id].username == (if players[id].telegramId == telegramId then username else players[id].username)
  {
    map id | id in players ::
      if players[id].telegramId == telegramId then players[id].(username := username) else players[id]
  }

  /**
    `update_username`: with no usable username nothing changes; otherwise the
    player with this Telegram id, if any, takes the username. No rating, no
    other player and no match changes.
   */
  function UsernameUpdate(db: Db, telegramId: int, username: Option<string>): (r: Db)
    requires db.Valid()
    ensures r.Valid()
    ensures r.matches == db.matches && r.players.Keys == db.players.Keys
    ensures r.nextPlayerId == db.nextPlayerId && r.nextMatchId == db.nextMatchId
    ensures !Present(username) ==> r == db
    ensures forall id | id in db.players ::
              && r.players[id].telegramId == db.players[id].telegramId
              && r.players[id].rating == db.players[id].rating
              && (r.players[id].username != db.players[id].username ==>
                    Present(username) && db.players[id].telegramId == telegramId
                    && r.players[id].username == username.value)
    ensures Present(username) ==>
              forall id | id in db.players && db.players[id].telegramId == telegramId ::
                r.players[id].username == username.value
  {
    if Present(username) then db.(players := Renamed(db.players, telegramId, username.value)) else db
  }

  method UpdateUsername(store: Store, telegramId: int, username: Option<string>)
    requires store.Valid()
    modifies store
    ensures store.Valid()
    ensures store.Snapshot() == UsernameUpdate(old(store.Snapshot()), telegramId, username)
  {
    if Present(username) {
      store.players := Renamed(store.players, telegramId, username.value);
    }
  }

  // ---------------------------------------------------------------------------
  // The invariant the handlers keep
  // ---------------------------------------------------------------------------

  /** A match as `/match` creates it: two distinct registered players, the winner one of them. */
  predicate WellFormed(db: Db, m: Match) {
    && m.player1 in db.players && m.player2 in db.players
    && m.player1 != m.player2
    && (m.winner == m.player1 || m.winner == m.player2)
  }

  /** The store invariants plus: every stored match is well formed. */
  ghost predicate Consistent(db: Db) {
    db.Valid() && forall id | id in db.matches :: WellFormed(db, db.matches[id])
  }

  /** In a consistent store every match can be confirmed without a missing row. */
  lemma ConsistentConfirmable(db: Db, matchId: int)
    requires Consistent(db) && matchId in db.matches
    ensures Confirmable(db, matchId)
  {
  }

  /** Registering, renaming and confirming keep every match well formed, since no player row is removed. */
  lemma ConsistentAfterPlayerWrites(db: Db, telegramId: int, username: string, name: Option<string>,
                                    matchId: int, elo: Elo)
    requires Consistent(db)
    ensures Consistent(Register(db, telegramId, username))
    ensures Consistent(UsernameUpdate(db, telegramId, name))
    ensures Consistent(Confirm(db, matchId, elo))
  {
    if matchId in db.matches {
      var r := Confirm(db, matchId, elo);
      assert r.players.Keys == db.players.Keys;
    }
  }

  // ---------------------------------------------------------------------------
  // /reg
  // ---------------------------------------------------------------------------

  datatype RegOutcome = NoUsername | AlreadyRegistered | Registered

  /**
    `/reg`: without a username nothing is registered; a known Telegram id only
    has its username refreshed; otherwise the player is registered.
   */
  method CmdReg(store: Store, telegramId: int, username: Option<string>) returns (outcome: RegOutcome)
    requires store.Valid()
    modifies store
    ensures store.Valid()
    ensures Consistent(old(store.Snapshot())) ==> Consistent(store.Snapshot())
    ensures !Present(username) ==>
              outcome == NoUsername && store.Snapshot() == old(store.Snapshot())
    ensures Present(username) && HasTelegramId(old(store.players), telegramId) ==>
              && outcome == AlreadyRegistered
              && store.Snapshot() == UsernameUpdate(old(store.Snapshot()), telegramId, username)
    ensures Present(username) && !HasTelegramId(old(store.players), telegramId) ==>
              && outcome == Registered
              && store.Snapshot() == Register(old(store.Snapshot()), telegramId, username.value)
  {
    if !Present(username) {
      return NoUsername;
    }
    var existing := PlayerByTelegramId(store.Snapshot(), telegramId);
    if existing.Some? {
      UpdateUsername(store, telegramId, username);
      return AlreadyRegistered;
    }
    store.RegisterPlayer(telegramId, username.value);
    return Registered;
  }

  // ---------------------------------------------------------------------------
  // /match
  // ---------------------------------------------------------------------------

  /** Why `/match` records nothing, one per early return (or, for an unregistered author, the exception). */
  datatype Refusal = BadFormat | BadScore | OpponentNotFound | AuthorNotRegistered | SelfPlay

  /** A result as `/match` reports it: author and opponent player ids, the score, the winner. */
  datatype Report = Report(author: int, opponent: int, score1: int, score2: int, winner: int)

  /**
    The decision `/match` takes once its text has three tokens and the
    author's username is refreshed: parse the score, find the author by
    Telegram id and the opponent by the tag without its leading `@`s, refuse
    an unknown opponent, then an unregistered author (the `None` dereference),
    then self-play; otherwise the author wins iff their score is higher.
   */
  function Decide(db: Db, authorTelegramId: int, opponentToken: string, scoreToken: string)
    : (r: Result<Report, Refusal>)
    requires db.Valid()
    ensures ParseScore(scoreToken).None? <==> r == Failure(BadScore)
    ensures r == Failure(OpponentNotFound) <==>
              ParseScore(scoreToken).Some? && PlayerByUsername(db, StripLeading(opponentToken, '@')).None?
    ensures r.Success? ==>
              var rep := r.value;
              && rep.author in db.players && db.players[rep.author].telegramId == authorTelegramId
              && rep.opponent in db.players
              && db.players[rep.opponent].username == StripLeading(opponentToken, '@')
              && rep.author != rep.opponent
              && ParseScore(scoreToken) == Some((rep.score1, rep.score2))
              && (rep.winner == rep.author <==> rep.score1 > rep.score2)
              && (rep.winner == rep.author || rep.winner == rep.opponent)
    ensures r.Success? <==>
              && ParseScore(scoreToken).Some?
              && PlayerByUsername(db, StripLeading(opponentToken, '@')).Some?
              && PlayerByTelegramId(db, authorTelegramId).Some?
              && PlayerByTelegramId(db, authorTelegramId) != PlayerByUsername(db, StripLeading(opponentToken, '@'))
    ensures r == Failure(AuthorNotRegistered) <==>
              && ParseScore(scoreToken).Some?
              && PlayerByUsername(db, StripLeading(opponentToken, '@')).Some?
              && PlayerByTelegramId(db, authorTelegramId).None?
    ensures r == Failure(SelfPlay) <==>
              && ParseScore(scoreToken).Some?
              && PlayerByTelegramId(db, authorTelegramId).Some?
              && PlayerByTelegramId(db, authorTelegramId) == PlayerByUsername(db, StripLeading(opponentToken, '@'))
  {
    var tag := StripLeading(opponentToken, '@');
    match ParseScore(scoreToken)
    case None => Failure(BadScore)
    case Some((s1, s2)) =>
      var author := PlayerByTelegramId(db, authorTelegramId);
      var opponent := PlayerByUsername(db, tag);
      if opponent.None? then Failure(OpponentNotFound)
      else if author.None? then Failure(AuthorNotRegistered)
      else if author.value == opponent.value then Failure(SelfPlay)
      else Success(Report(author.value, opponent.value, s1, s2,
                          if s1 > s2 then author.value else opponent.value))
  }

  /** The match row a report is stored as: `(author, opponent, s1, s2, winner)`. */
  function MatchOf(rep: Report): (m: Match)
    ensures && m.player1 == rep.author && m.player2 == rep.opponent
            && m.score1 == rep.score1 && m.score2 == rep.score2
            && m.winner == rep.winner && !m.confirmed
    ensures rep.author != rep.opponent && (rep.winner == rep.author || rep.winner == rep.opponent) ==>
              Loser(m) == (if rep.winner == rep.author then rep.opponent else rep.author)
  {
    Match(rep.author, rep.opponent, rep.score1, rep.score2, rep.winner, false)
  }

  /**
    A report with a score written out as `"<s1>:<s2>"` against a registered
    opponent, by a registered author who is someone else, is accepted with
    exactly that score; a draw goes to the opponent.
   */
  lemma DecideAcceptsWrittenScore(db: Db, authorTelegramId: int, opponentToken: string, s1: int, s2: int)
    requires db.Valid()
    requires HasTelegramId(db.players, authorTelegramId)
    requires var opponent := PlayerByUsername(db, StripLeading(opponentToken, '@'));
             opponent.Some? && PlayerByTelegramId(db, authorTelegramId) != opponent
    ensures var r := Decide(db, authorTelegramId, opponentToken, ScoreText(s1, s2));
            && r.Success?
            && r.value.score1 == s1 && r.value.score2 == s2
            && (s1 <= s2 ==> r.value.winner == r.value.opponent)
  {
    ParseScoreOfScoreText(s1, s2);
  }

  /** The text of a `/match` command: `"/match @<name> <s1>:<s2>"`. */
  function MatchCommand(name: string, s1: int, s2: int): string {
    Unwords(["/match", "@" + name, ScoreText(s1, s2)])
  }

  lemma ScoreTextIsWord(s1: int, s2: int)
    ensures IsWord(ScoreText(s1, s2))
  {
    IntToStringIsWord(s1);
    IntToStringIsWord(s2);
    WordConcat(IntToString(s1), ":");
    WordConcat(IntToString(s1) + ":", IntToString(s2));
  }

  /** The command text for a one-word opponent name splits into exactly its three tokens. */
  lemma MatchCommandTokens(name: string, s1: int, s2: int)
    requires IsWord(name)
    ensures Words(MatchCommand(name, s1, s2)) == ["/match", "@" + name, ScoreText(s1, s2)]
  {
    ScoreTextIsWord(s1, s2);
    var tokens := ["/match", "@" + name, ScoreText(s1, s2)];
    WordConcat("@", name);
    WordsOfUnwords(tokens);
  }

  datatype MatchOutcome = Refused(reason: Refusal) | Recorded(matchId: int)

  /**
    What `/match` does to the tables and what it answers: text that is not
    exactly three tokens is refused untouched; otherwise the author's username
    is refreshed, the decision is taken on the refreshed tables, and an
    accepted report is recorded as a new match.
   */
  function MatchCommandEffect(db: Db, authorTelegramId: int, authorUsername: Option<string>, text: string)
    : (r: (MatchOutcome, Db))
    requires db.Valid()
    ensures r.1.Valid()
    ensures Consistent(db) ==> Consistent(r.1)
    ensures |Words(text)| != 3 ==> r == (Refused(BadFormat), db)
    ensures r.1.players == UsernameUpdate(db, authorTelegramId, authorUsername).players
            || r == (Refused(BadFormat), db)
    ensures r.1.nextPlayerId == db.nextPlayerId
    ensures r.0.Refused? ==> r.1.matches == db.matches && r.1.nextMatchId == db.nextMatchId
    ensures r.0.Recorded? ==> r.1.nextMatchId == db.nextMatchId + 1
    ensures r.0.Recorded? ==>
              var id := r.0.matchId;
              && |Words(text)| == 3 && ParseScore(Words(text)[2]).Some?
              && id == db.nextMatchId && id !in db.matches && id in r.1.matches
              && r.1.matches == db.matches[id := r.1.matches[id]]
              && WellFormed(r.1, r.1.matches[id]) && !r.1.matches[id].confirmed
    ensures |Words(text)| == 3 ==>
              var d := Decide(UsernameUpdate(db, authorTelegramId, authorUsername), authorTelegramId,
                              Words(text)[1], Words(text)[2]);
              && (d.Failure? ==> r.0 == Refused(d.error))
              && (d.Success? ==> r.0.Recorded? && r.1.matches[r.0.matchId] == MatchOf(d.value))
  {
    var args := Words(text);
    if |args| != 3 then (Refused(BadFormat), db)
    else
      var refreshed := UsernameUpdate(db, authorTelegramId, authorUsername);
      match Decide(refreshed, authorTelegramId, args[1], args[2])
      case Failure(reason) => (Refused(reason), refreshed)
      case Success(rep) =>
        var recorded := Record(refreshed, rep.author, rep.opponent, rep.score1, rep.score2, rep.winner);
        assert recorded.matches == db.matches[db.nextMatchId := MatchOf(rep)];
        (Recorded(refreshed.nextMatchId), recorded)
  }

  /** `/match`, performed on the store. */
  method CmdMatch(store: Store, authorTelegramId: int, authorUsername: Option<string>, text: string)
    returns (outcome: MatchOutcome)
    requires store.Valid()
    modifies store
    ensures store.Valid()
    ensures (outcome, store.Snapshot())
            == MatchCommandEffect(old(store.Snapshot()), authorTelegramId, authorUsername, text)
  {
    var args := Words(text);
    if |args| != 3 {
      return Refused(BadFormat);
    }
    UpdateUsername(store, authorTelegramId, authorUsername);
    match Decide(store.Snapshot(), authorTelegramId, args[1], args[2])
    case Failure(reason) =>
      outcome := Refused(reason);
    case Success(rep) =>
      var matchId := store.RecordMatch(rep.author, rep.opponent, rep.score1, rep.score2, rep.winner);
      outcome := Recorded(matchId);
  }

  // ---------------------------------------------------------------------------
  // The confirm and reject buttons
  // ---------------------------------------------------------------------------

  /** What a button handler ends in. */
  datatype CallbackOutcome = BadCallback | NotFound | Confirmed | ConfirmFailed | Rejected

  /**
    The confirm button: callback data whose id does not parse changes nothing;
    an unknown match is reported as not found; otherwise the match is
    confirmed, whoever pressed the button and whatever its `confirmed` flag.
   */
  method OnConfirmMatch(store: Store, data: string) returns (outcome: CallbackOutcome)
    requires Consistent(store.Snapshot())
    modifies store
    ensures Consistent(store.Snapshot())
    ensures CallbackId(data).None? ==>
              outcome == BadCallback && store.Snapshot() == old(store.Snapshot())
    ensures CallbackId(data).Some? && CallbackId(data).value !in old(store.matches) ==>
              outcome == NotFound && store.Snapshot() == old(store.Snapshot())
    ensures CallbackId(data).Some? && CallbackId(data).value in old(store.matches) ==>
              && outcome == Confirmed
              && store.Snapshot() == Confirm(old(store.Snapshot()), CallbackId(data).value, store.elo)
  {
    var matchId := CallbackId(data);
    if matchId.None? {
      return BadCallback;
    }
    if matchId.value !in store.matches {
      return NotFound;
    }
    ConsistentAfterPlayerWrites(store.Snapshot(), 0, [], None, matchId.value, store.elo);
    var ok := store.ConfirmMatch(matchId.value);
    outcome := if ok then Confirmed else ConfirmFailed;
  }

  /** `DELETE FROM matches WHERE id = ?`. */
  function Delete(db: Db, matchId: int): (r: Db)
    requires db.Valid()
    ensures r.Valid()
  {
    db.(matches := db.matches - {matchId})
  }

  /**
    Rejection deletes the match whatever its `confirmed` flag, and nothing
    else: no player row, no rating, no other match changes.
   */
  lemma DeleteRemovesOnlyTheMatch(db: Db, matchId: int)
    requires db.Valid() && matchId in db.matches
    ensures var r := Delete(db, matchId);
            && r.matches.Keys == db.matches.Keys - {matchId}
            && |r.matches| == |db.matches| - 1
            && (forall id | id in r.matches :: r.matches[id] == db.matches[id])
            && r.players == db.players
            && r.nextMatchId == db.nextMatchId
  {
    var r := Delete(db, matchId);
    assert db.matches.Keys == r.matches.Keys + {matchId};
  }

  /**
    Rejecting a match after it was confirmed removes it and its games-played
    count but keeps the ratings the confirmation wrote: the ladder then holds
    rating changes for a match that no longer exists.
   */
  lemma RejectAfterConfirmKeepsRatings(db: Db, matchId: int, elo: Elo, playerId: int)
    requires Consistent(db) && matchId in db.matches && !db.matches[matchId].confirmed
    ensures var confirmed := Confirm(db, matchId, elo);
            var rejected := Delete(confirmed, matchId);
            && rejected.players == confirmed.players
            && matchId !in rejected.matches
            && GamesPlayed(rejected, playerId) == GamesPlayed(db, playerId)
  {
    var confirmed := Confirm(db, matchId, elo);
    GamesPlayedAfterConfirm(db, matchId, elo, playerId);
    GamesPlayedAfterDelete(confirmed, matchId, playerId);
  }

  /**
    The reject button: callback data whose id does not parse changes nothing;
    an unknown match is reported as not found; otherwise the match is deleted,
    whoever pressed the button and whatever its `confirmed` flag.
   */
  method OnRejectMatch(store: Store, data: string) returns (outcome: CallbackOutcome)
    requires store.Valid()
    modifies store
    ensures store.Valid()
    ensures Consistent(old(store.Snapshot())) ==> Consistent(store.Snapshot())
    ensures CallbackId(data).None? ==>
              outcome == BadCallback && store.Snapshot() == old(store.Snapshot())
    ensures CallbackId(data).Some? && CallbackId(data).value !in old(store.matches) ==>
              outcome == NotFound && store.Snapshot() == old(store.Snapshot())
    ensures CallbackId(data).Some? && CallbackId(data).value in old(store.matches) ==>
              && outcome == Rejected
              && store.Snapshot() == Delete(old(store.Snapshot()), CallbackId(data).value)
  {
    var matchId := CallbackId(data);
    if matchId.None? {
      return BadCallback;
    }
    if matchId.value !in store.matches {
      return NotFound;
    }
    store.matches := store.matches - {matchId.value};
    return Rejected;
  }

  // ---------------------------------------------------------------------------
  // A session
  // ---------------------------------------------------------------------------

  /** The tables of the session below once alice and bob have registered. */
  ghost predicate SessionTables(db: Db) {
    db == Db(map[1 := Player(101, "alice", 1500), 2 := Player(202, "bob", 1500)], map[], 3, 1)
  }

  lemma SessionRefresh(db: Db)
    requires SessionTables(db)
    ensures UsernameUpdate(db, 101, Some("alice")) == db
  {
    var r := UsernameUpdate(db, 101, Some("alice"));
    assert r.players[1] == db.players[1] && r.players[2] == db.players[2];
    assert r.players == db.players;
  }

  lemma SessionLookups(db: Db)
    requires SessionTables(db)
    ensures db.Valid()
    ensures PlayerByTelegramId(db, 101) == Some(1)
    ensures PlayerByUsername(db, "bob") == Some(2)
  {
  }

  lemma SessionTag()
    ensures StripLeading("@bob", '@') == "bob"
  {
    var tag := "@bob";
    assert tag[0] == '@' && tag[1..] == "bob";
    assert "bob"[0] == 'b';
  }

  /** The `/match @bob 3:1` of the session below is accepted as a 3:1 win of player 1 over player 2. */
  lemma SessionReport(db: Db, tag: string, score: string)
    requires SessionTables(db)
    requires StripLeading(tag, '@') == "bob" && ParseScore(score) == Some((3, 1))
    ensures db.Valid()
    ensures Decide(db, 101, tag, score) == Success(Report(1, 2, 3, 1, 1))
  {
    SessionLookups(db);
  }

  /** Registering alice (Telegram id 101) and then bob (202) on an empty ladder. */
  lemma SessionRegistration()
    ensures SessionTables(Register(Register(Empty(), 101, "alice"), 202, "bob"))
  {
    var one := Register(Empty(), 101, "alice");
    assert one.players == map[1 := Player(101, "alice", 1500)];
    assert !HasTelegramId(one.players, 202);
  }

  /** alice's `/match @bob 3:1` records match 1 as her 3:1 win over bob. */
  lemma SessionMatch(db: Db, text: string)
    requires SessionTables(db)
    requires Words(text) == ["/match", "@bob", ScoreText(3, 1)]
    ensures db.Valid()
    ensures MatchCommandEffect(db, 101, Some("alice"), text) == (Recorded(1), Record(db, 1, 2, 3, 1, 1))
  {
    SessionRefresh(db);
    SessionTag();
    ParseScoreOfScoreText(3, 1);
    SessionReport(db, "@bob", ScoreText(3, 1));
  }

  /**
    bob confirming match 1 moves alice to 1516 and bob to 1484 and gives
    alice one game; rejecting it afterwards takes the game away again but
    leaves the ratings.
   */
  lemma SessionConfirmThenReject(db: Db, elo: Elo)
    requires exists tables | SessionTables(tables) :: db == Record(tables, 1, 2, 3, 1, 1)
    requires elo(1500, 1500) == (1516, 1484)
    ensures Consistent(db) && 1 in db.matches
    ensures var confirmed := Confirm(db, 1, elo);
            && confirmed.players[1].rating == 1516 && confirmed.players[2].rating == 1484
            && GamesPlayed(confirmed, 1) == 1
            && Delete(confirmed, 1).players[1].rating == 1516
            && GamesPlayed(Delete(confirmed, 1), 1) == 0
  {
    var tables :| SessionTables(tables) && db == Record(tables, 1, 2, 3, 1, 1);
    assert WellFormed(db, db.matches[1]);
    assert CountedIds(db.matches, 1) == {};
    ConsistentConfirmable(db, 1);
    GamesPlayedAfterConfirm(db, 1, elo, 1);
    var confirmed := Confirm(db, 1, elo);
    RejectAfterConfirmKeepsRatings(db, 1, elo, 1);
  }

  /**
    Two users register, the first sends `/match @bob 3:1` and the second
    presses the confirm button: with a calculator giving 1516/1484 for two
    ratings of 1500 the ladder ends with alice at 1516 and bob at 1484, and
    alice has one game played. Pressing reject afterwards removes the match
    and the game count but not the new ratings.
   */
  method ExampleSession(elo: Elo)
    returns (confirmed: CallbackOutcome, alice: int, bob: int, aliceGames: nat, rejected: CallbackOutcome, aliceAfterReject: int, gamesAfterReject: nat)
    requires elo(1500, 1500) == (1516, 1484)
    ensures confirmed == Confirmed && alice == 1516 && bob == 1484 && aliceGames == 1
    ensures rejected == Rejected && aliceAfterReject == 1516 && gamesAfterReject == 0
  {
    var store := new Store(elo);
    var registeredAlice := CmdReg(store, 101, Some("alice"));
    var registeredBob := CmdReg(store, 202, Some("bob"));
    SessionRegistration();
    ghost var registered := store.Snapshot();

    var opponent := store.players[2].username;
    var text := MatchCommand(opponent, 3, 1);
    MatchCommandTokens(opponent, 3, 1);
    assert "@" + opponent == "@bob";
    SessionMatch(registered, text);
    var reported := CmdMatch(store, 101, Some("alice"), text);
    assert reported == Recorded(1);
    ghost var recorded := store.Snapshot();
    SessionConfirmThenReject(recorded, elo);

    var keyboard := ConfirmKeyboard(reported.matchId);
    confirmed := OnConfirmMatch(store, keyboard.confirmData);
    alice, bob := store.players[1].rating, store.players[2].rating;
    aliceGames := GamesPlayed(store.Snapshot(), 1);

    rejected := OnRejectMatch(store, keyboard.rejectData);
    aliceAfterReject := store.players[1].rating;
    gamesAfterReject := GamesPlayed(store.Snapshot(), 1);
  }
}
