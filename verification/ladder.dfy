/**
  The ladder store of `src/db.py`: the `players` and `matches` tables, each
  keyed by an auto-increment id, the read-only queries over them, and the
  operations that write them (registration, match recording, confirmation).

  `Db` is a snapshot of both tables with their id counters; the functions
  over `Db` say what each operation does, and `Store` is the mutable database
  whose methods perform the writes step by step.
 */
module Ladder {
  import opened Wrappers

  /** The rating column's default, given to every newly registered player. */
  const DefaultRating: int := 1500

  /** A row of `players`; its id is the key it is stored under. */
  datatype Player = Player(telegramId: int, username: string, rating: int)

  /** A row of `matches`; its id is the key it is stored under. */
  datatype Match = Match(player1: int, player2: int, score1: int, score2: int,
                         winner: int, confirmed: bool)

  /**
    The rating calculator `calculate_elo(r_winner, r_loser)`: the winner's and
    the loser's new ratings. The store calls it and never looks inside.
   */
  type Elo = (int, int) -> (int, int)

  /** The loser as `confirm_match` picks it: player1 when player2 won, otherwise player2. */
  function Loser(m: Match): (l: int)
    ensures l == m.player1 || l == m.player2
    ensures m.player1 != m.player2 && (m.winner == m.player1 || m.winner == m.player2) ==>
              l != m.winner && {l, m.winner} == {m.player1, m.player2}
  {
    if m.player2 == m.winner then m.player1 else m.player2
  }

  /** Every key of `m` is an id handed out by a counter now at `next`. */
  ghost predicate IdsBelow<V>(m: map<int, V>, next: int) {
    forall id | id in m :: 1 <= id < next
  }

  /** `telegram_id INTEGER UNIQUE`. */
  ghost predicate UniqueTelegramIds(players: map<int, Player>) {
    forall i, j | i in players && j in players && players[i].telegramId == players[j].telegramId :: i == j
  }

  /** Both tables and the next id each AUTOINCREMENT counter hands out. */
  datatype Db = Db(players: map<int, Player>, matches: map<int, Match>,
                   nextPlayerId: int, nextMatchId: int)
  {
    ghost predicate Valid() {
      && 1 <= nextPlayerId && 1 <= nextMatchId
      && IdsBelow(players, nextPlayerId)
      && IdsBelow(matches, nextMatchId)
      && UniqueTelegramIds(players)
    }
  }

  /** The tables as `init_db` creates them: no player, no match, both counters at 1. */
  function Empty(): (db: Db)
    ensures db.Valid()
    ensures |db.players| == 0 && |db.matches| == 0
  {
    Db(map[], map[], 1, 1)
  }

  /** On the empty tables nobody is found, nobody has played, and the leaderboard is empty. */
  lemma EmptyQueries()
    ensures forall telegramId :: PlayerByTelegramId(Empty(), telegramId).None?
    ensures forall playerId :: GamesPlayed(Empty(), playerId) == 0
    ensures RatingTable(Empty()) == []
  {
  }

  predicate HasTelegramId(players: map<int, Player>, telegramId: int) {
    exists id | id in players :: players[id].telegramId == telegramId
  }

  // ---------------------------------------------------------------------------
  // Writes
  // ---------------------------------------------------------------------------

  /**
    `register_player`: `INSERT OR IGNORE` of a player with the default rating;
    a `telegram_id` already present leaves both tables unchanged, and the
    model keeps the id counter as it was.
   */
  function Register(db: Db, telegramId: int, username: string): (r: Db)
    requires db.Valid()
    ensures r.Valid()
  {
    if HasTelegramId(db.players, telegramId) then db
    else
      db.(players := db.players[db.nextPlayerId := Player(telegramId, username, DefaultRating)],
          nextPlayerId := db.nextPlayerId + 1)
  }

  /** `record_match`: inserts an unconfirmed match under the next match id. */
  function Record(db: Db, player1: int, player2: int, score1: int, score2: int, winner: int): (r: Db)
    requires db.Valid()
    ensures r.Valid()
  {
    db.(matches := db.matches[db.nextMatchId := Match(player1, player2, score1, score2, winner, false)],
        nextMatchId := db.nextMatchId + 1)
  }

  /**
    What `confirm_match` needs to get through: the rows of the match's winner
    and loser exist (otherwise `winner[3]` or `loser[3]` raises).
   */
  predicate Confirmable(db: Db, matchId: int) {
    matchId in db.matches
    && db.matches[matchId].winner in db.players
    && Loser(db.matches[matchId]) in db.players
  }

  /**
    `confirm_match`: for an existing match, writes the winner's new rating,
    then the loser's, then sets `confirmed`, all from ratings read before any
    write. The `confirmed` flag is not consulted. An absent match changes nothing.
   */
  function Confirm(db: Db, matchId: int, elo: Elo): (r: Db)
    requires db.Valid()
    requires matchId in db.matches ==> Confirmable(db, matchId)
    ensures r.Valid()
  {
    if matchId !in db.matches then db
    else
      var m := db.matches[matchId];
      var w, l := m.winner, Loser(m);
      var updated := elo(db.players[w].rating, db.players[l].rating);
      var afterWinner := db.players[w := db.players[w].(rating := updated.0)];
      var afterLoser := afterWinner[l := afterWinner[l].(rating := updated.1)];
      db.(players := afterLoser, matches := db.matches[matchId := m.(confirmed := true)])
  }

  // ---------------------------------------------------------------------------
  // Queries
  // ---------------------------------------------------------------------------

  /** The lowest id in `1 .. n-1` whose player satisfies `p`, if any. */
  function FirstPlayer(players: map<int, Player>, n: int, p: Player -> bool): (r: Option<int>)
    ensures r.Some? ==> 1 <= r.value < n && r.value in players && p(players[r.value])
    ensures r.Some? ==> forall id | id in players && 1 <= id < r.value :: !p(players[id])
    ensures r.None? ==> forall id | id in players && 1 <= id < n :: !p(players[id])
    decreases n
  {
    if n <= 1 then None
    else
      match FirstPlayer(players, n - 1, p)
      case Some(id) => Some(id)
      case None => if n - 1 in players && p(players[n - 1]) then Some(n - 1) else None
  }

  /** `get_player_by_telegram_id`: the id of the one player with this Telegram id. */
  function PlayerByTelegramId(db: Db, telegramId: int): (r: Option<int>)
    requires db.Valid()
    ensures r.Some? <==> HasTelegramId(db.players, telegramId)
    ensures forall id | id in db.players && db.players[id].telegramId == telegramId :: r == Some(id)
  {
    FirstPlayer(db.players, db.nextPlayerId, (p: Player) => p.telegramId == telegramId)
  }

  /**
    `get_player_by_username`: the id of some player with exactly this username
    (case-sensitive); usernames are not unique, and which one is found is not
    promised.
   */
  function PlayerByUsername(db: Db, username: string): (r: Option<int>)
    requires db.Valid()
    ensures r.Some? ==> r.value in db.players && db.players[r.value].username == username
    ensures r.None? ==> forall id | id in db.players :: db.players[id].username != username
  {
    FirstPlayer(db.players, db.nextPlayerId, (p: Player) => p.username == username)
  }

  /** `get_player_by_id`: the row stored under `id`, if any. */
  function PlayerById(db: Db, id: int): (r: Option<Player>)
    ensures r.Some? <==> id in db.players
    ensures r.Some? ==> r.value == db.players[id]
  {
    if id in db.players then Some(db.players[id]) else None
  }

  /** A match `get_games_played` counts for a player: confirmed, with the player on either side. */
  predicate CountsFor(m: Match, playerId: int) {
    m.confirmed && (m.player1 == playerId || m.player2 == playerId)
  }

  /** The ids of the matches counted for a player. */
  function CountedIds(matches: map<int, Match>, playerId: int): set<int> {
    set id | id in matches && CountsFor(matches[id], playerId)
  }

  /**
    `get_games_played`: `COUNT(*)` over the confirmed matches the player took
    part in. A match counts at most once, so no player has played more games
    than there are matches, and the count is zero exactly when no confirmed
    match involves the player.
   */
  function GamesPlayed(db: Db, playerId: int): (n: nat)
    ensures n <= |db.matches|
    ensures n == 0 <==> forall id | id in db.matches :: !CountsFor(db.matches[id], playerId)
  {
    var counted := CountedIds(db.matches, playerId);
    assert counted <= db.matches.Keys;
    SubsetCardinality(counted, db.matches.Keys);
    NoneCounted(db.matches, playerId);
    |counted|
  }

  lemma NoneCounted(matches: map<int, Match>, playerId: int)
    ensures |CountedIds(matches, playerId)| == 0 <==> forall id | id in matches :: !CountsFor(matches[id], playerId)
  {
    var counted := CountedIds(matches, playerId);
    if forall id | id in matches :: !CountsFor(matches[id], playerId) {
      assert counted == {};
    } else {
      var id :| id in matches && CountsFor(matches[id], playerId);
      assert id in counted;
    }
  }

  /** A line of the leaderboard: `SELECT username, rating`. */
  datatype RatingRow = RatingRow(username: string, rating: int)

  /** Player ids listed by non-increasing rating. */
  ghost predicate Ranked(players: map<int, Player>, ids: seq<int>) {
    && (forall i | 0 <= i < |ids| :: ids[i] in players)
    && (forall i, j | 0 <= i < j < |ids| :: players[ids[i]].rating >= players[ids[j]].rating)
  }

  /** Places `id` into a ranked list after every player rated at least as high. */
  function InsertRanked(players: map<int, Player>, id: int, ids: seq<int>): (r: seq<int>)
    requires id in players && Ranked(players, ids)
    ensures Ranked(players, r)
    ensures multiset(r) == multiset(ids) + multiset{id}
  {
    if ids == [] then [id]
    else if players[ids[0]].rating >= players[id].rating then
      var rest := InsertRanked(players, id, ids[1..]);
      assert ids == [ids[0]] + ids[1..];
      assert multiset(ids) == multiset{ids[0]} + multiset(ids[1..]);
      RankedInsertHead(players, id, ids, rest);
      assert multiset([ids[0]] + rest) == multiset{ids[0]} + multiset(rest);
      [ids[0]] + rest
    else
      RankedCons(players, id, ids);
      [id] + ids
  }

  lemma RankedCons(players: map<int, Player>, x: int, rest: seq<int>)
    requires x in players && Ranked(players, rest)
    requires forall i | 0 <= i < |rest| :: players[x].rating >= players[rest[i]].rating
    ensures Ranked(players, [x] + rest)
  {
    var r := [x] + rest;
    forall i, j | 0 <= i < j < |r| ensures players[r[i]].rating >= players[r[j]].rating {
      if i > 0 {
        assert r[i] == rest[i - 1] && r[j] == rest[j - 1];
      } else {
        assert r[j] == rest[j - 1];
      }
    }
  }

  lemma RankedInsertHead(players: map<int, Player>, id: int, ids: seq<int>, rest: seq<int>)
    requires id in players && Ranked(players, ids) && ids != []
    requires players[ids[0]].rating >= players[id].rating
    requires Ranked(players, rest) && multiset(rest) == multiset(ids[1..]) + multiset{id}
    ensures Ranked(players, [ids[0]] + rest)
  {
    forall i | 0 <= i < |rest| ensures players[ids[0]].rating >= players[rest[i]].rating {
      assert rest[i] in multiset(rest);
      if rest[i] != id {
        assert rest[i] in multiset(ids[1..]);
        var k :| 0 <= k < |ids[1..]| && ids[1..][k] == rest[i];
        assert ids[k + 1] == rest[i];
      }
    }
    RankedCons(players, ids[0], rest);
  }

  function IdsBelowSet(players: map<int, Player>, n: int): set<int> {
    set id | id in players && 1 <= id < n
  }

  /** The players with ids in `1 .. n-1`, ranked; ties keep id order. */
  function RankedBelow(players: map<int, Player>, n: int): (r: seq<int>)
    ensures Ranked(players, r)
    ensures multiset(r) == multiset(IdsBelowSet(players, n))
    decreases n
  {
    if n <= 1 then
      assert IdsBelowSet(players, n) == {};
      []
    else
      var before := RankedBelow(players, n - 1);
      if n - 1 in players then
        assert IdsBelowSet(players, n) == IdsBelowSet(players, n - 1) + {n - 1};
        InsertRanked(players, n - 1, before)
      else
        assert IdsBelowSet(players, n) == IdsBelowSet(players, n - 1);
        before
  }

  /** Every player's id exactly once, ordered by non-increasing rating (`ORDER BY rating DESC`). */
  function RankedIds(db: Db): (r: seq<int>)
    requires db.Valid()
    ensures Ranked(db.players, r)
    ensures multiset(r) == multiset(db.players.Keys)
  {
    assert IdsBelowSet(db.players, db.nextPlayerId) == db.players.Keys;
    RankedBelow(db.players, db.nextPlayerId)
  }

  function RowOf(p: Player): RatingRow {
    RatingRow(p.username, p.rating)
  }

  /**
    `get_rating_table`: one `(username, rating)` row per player, in
    non-increasing order of rating. Each player contributes exactly one row:
    the rows are the players' rows listed along a permutation of their ids.
   */
  function RatingTable(db: Db): (rows: seq<RatingRow>)
    requires db.Valid()
    ensures |rows| == |db.players|
    ensures forall i, j | 0 <= i < j < |rows| :: rows[i].rating >= rows[j].rating
    ensures forall id | id in db.players :: RowOf(db.players[id]) in rows
    ensures exists ids: seq<int> | multiset(ids) == multiset(db.players.Keys) ::
              && |ids| == |rows|
              && forall i | 0 <= i < |rows| :: ids[i] in db.players && rows[i] == RowOf(db.players[ids[i]])
  {
    var ids := RankedIds(db);
    assert |ids| == |multiset(db.players.Keys)| == |db.players.Keys| == |db.players|;
    var rows := seq(|ids|, i requires 0 <= i < |ids| => RowOf(db.players[ids[i]]));
    ProjectionCovers(db.players, ids, rows);
    assert multiset(ids) == multiset(db.players.Keys) && |ids| == |rows|
           && forall i | 0 <= i < |rows| :: ids[i] in db.players && rows[i] == RowOf(db.players[ids[i]]);
    rows
  }

  lemma ProjectionCovers(players: map<int, Player>, ids: seq<int>, rows: seq<RatingRow>)
    requires multiset(ids) == multiset(players.Keys)
    requires |rows| == |ids| && forall i | 0 <= i < |ids| :: ids[i] in players && rows[i] == RowOf(players[ids[i]])
    ensures forall id | id in players :: RowOf(players[id]) in rows
  {
    forall id | id in players ensures RowOf(players[id]) in rows {
      assert id in multiset(ids);
      var i :| 0 <= i < |ids| && ids[i] == id;
      assert rows[i] == RowOf(players[id]);
    }
  }

  // ---------------------------------------------------------------------------
  // Properties of the writes
  // ---------------------------------------------------------------------------

  /**
    Registration is idempotent: with the Telegram id already present both
    tables are unchanged, so a second registration changes nothing whatever
    username it carries.
   */
  lemma RegisterIdempotent(db: Db, telegramId: int, username: string, again: string)
    requires db.Valid()
    ensures HasTelegramId(db.players, telegramId) ==> Register(db, telegramId, username) == db
    ensures Register(Register(db, telegramId, username), telegramId, again)
            == Register(db, telegramId, username)
  {
    var r := Register(db, telegramId, username);
    if !HasTelegramId(db.players, telegramId) {
      assert r.players[db.nextPlayerId].telegramId == telegramId;
    }
  }

  /**
    Registering a new Telegram id adds exactly one player, under an id not in
    use before, with the default rating; every other row is untouched, and the
    Telegram-id lookup now finds the new player.
   */
  lemma RegisterNew(db: Db, telegramId: int, username: string)
    requires db.Valid()
    requires !HasTelegramId(db.players, telegramId)
    ensures var r := Register(db, telegramId, username);
            var id := db.nextPlayerId;
            && id !in db.players
            && r.players.Keys == db.players.Keys + {id}
            && |r.players| == |db.players| + 1
            && r.players[id] == Player(telegramId, username, DefaultRating)
            && (forall k | k in db.players :: r.players[k] == db.players[k])
            && r.matches == db.matches
            && r.nextPlayerId == id + 1 && r.nextMatchId == db.nextMatchId
            && PlayerByTelegramId(r, telegramId) == Some(id)
  {
    var r := Register(db, telegramId, username);
    assert r.players[db.nextPlayerId].telegramId == telegramId;
  }

  /**
    `record_match` adds exactly one match, unconfirmed, with the given players,
    scores and winner, under an id not in use before; players and the other
    matches are unchanged, and so is every games-played count.
   */
  lemma RecordAddsOne(db: Db, player1: int, player2: int, score1: int, score2: int, winner: int, someone: int)
    requires db.Valid()
    ensures var r := Record(db, player1, player2, score1, score2, winner);
            var id := db.nextMatchId;
            && id !in db.matches
            && r.matches.Keys == db.matches.Keys + {id}
            && |r.matches| == |db.matches| + 1
            && r.matches[id] == Match(player1, player2, score1, score2, winner, false)
            && (forall k | k in db.matches :: r.matches[k] == db.matches[k])
            && r.players == db.players
            && r.nextMatchId == id + 1 && r.nextPlayerId == db.nextPlayerId
            && GamesPlayed(r, someone) == GamesPlayed(db, someone)
  {
    var r := Record(db, player1, player2, score1, score2, winner);
    assert CountedIds(r.matches, someone) == CountedIds(db.matches, someone);
  }

  /** Confirming a match id that is not stored returns false and changes nothing. */
  lemma ConfirmAbsent(db: Db, matchId: int, elo: Elo)
    requires db.Valid() && matchId !in db.matches
    ensures Confirm(db, matchId, elo) == db
  {
  }

  /**
    Confirming a stored match whose winner is one of its two distinct players
    sets the winner's and the loser's ratings to the two results of the rating
    calculator, marks the match confirmed, and changes no other rating, no
    username or Telegram id, and no other match.
   */
  lemma ConfirmApplies(db: Db, matchId: int, elo: Elo)
    requires db.Valid() && Confirmable(db, matchId)
    requires var m := db.matches[matchId];
             m.player1 != m.player2 && (m.winner == m.player1 || m.winner == m.player2)
    ensures var m := db.matches[matchId];
            var r := Confirm(db, matchId, elo);
            var w, l := m.winner, Loser(m);
            var updated := elo(db.players[w].rating, db.players[l].rating);
            && w != l
            && r.players.Keys == db.players.Keys
            && r.players[w] == db.players[w].(rating := updated.0)
            && r.players[l] == db.players[l].(rating := updated.1)
            && (forall id | id in db.players && id != w && id != l :: r.players[id] == db.players[id])
            && r.matches.Keys == db.matches.Keys
            && r.matches[matchId] == m.(confirmed := true)
            && (forall id | id in db.matches && id != matchId :: r.matches[id] == db.matches[id])
            && r.nextPlayerId == db.nextPlayerId && r.nextMatchId == db.nextMatchId
  {
  }

  /**
    Confirmation does not look at `confirmed`: confirming an already confirmed
    match applies the calculator again, to the ratings the first confirmation
    left, and leaves the match as it was.
   */
  lemma ConfirmTwiceReapplies(db: Db, matchId: int, elo: Elo)
    requires db.Valid() && Confirmable(db, matchId)
    requires var m := db.matches[matchId];
             m.player1 != m.player2 && (m.winner == m.player1 || m.winner == m.player2)
    ensures var m := db.matches[matchId];
            var once := Confirm(db, matchId, elo);
            var w, l := m.winner, Loser(m);
            && Confirmable(once, matchId)
            && once.matches[matchId].confirmed
            && var twice := Confirm(once, matchId, elo);
               var again := elo(once.players[w].rating, once.players[l].rating);
               && twice.players[w].rating == again.0
               && twice.players[l].rating == again.1
               && twice.matches == once.matches
  {
    ConfirmApplies(db, matchId, elo);
    var once := Confirm(db, matchId, elo);
    var m := db.matches[matchId];
    assert once.matches[matchId] == m.(confirmed := true);
    assert Loser(once.matches[matchId]) == Loser(m);
    ConfirmApplies(once, matchId, elo);
  }

  /**
    The ids counted for a player after the match under `id` is replaced by `m`:
    the old ones without `id`, plus `id` when `m` counts.
   */
  lemma CountedIdsAfterUpdate(matches: map<int, Match>, id: int, m: Match, playerId: int)
    ensures CountedIds(matches[id := m], playerId)
            == (CountedIds(matches, playerId) - {id}) + (if CountsFor(m, playerId) then {id} else {})
  {
  }

  /**
    Confirming a match adds one to the games played of each of its players
    when it was unconfirmed and nothing when it was already confirmed; nobody
    else's count changes.
   */
  lemma GamesPlayedAfterConfirm(db: Db, matchId: int, elo: Elo, playerId: int)
    requires db.Valid() && Confirmable(db, matchId)
    ensures var m := db.matches[matchId];
            GamesPlayed(Confirm(db, matchId, elo), playerId)
            == GamesPlayed(db, playerId)
               + (if !m.confirmed && (m.player1 == playerId || m.player2 == playerId) then 1 else 0)
  {
    var m := db.matches[matchId];
    var before := CountedIds(db.matches, playerId);
    CountedIdsAfterUpdate(db.matches, matchId, m.(confirmed := true), playerId);
    if CountsFor(m, playerId) {
      assert matchId in before;
      assert before - {matchId} + {matchId} == before;
    } else if m.player1 == playerId || m.player2 == playerId {
      assert matchId !in before;
      assert |before + {matchId}| == |before| + 1;
    } else {
      assert before - {matchId} == before;
    }
  }

  /**
    Deleting a match takes one off the games played of each of its players
    when it was confirmed; nobody else's count changes.
   */
  lemma GamesPlayedAfterDelete(db: Db, matchId: int, playerId: int)
    requires matchId in db.matches
    ensures var m := db.matches[matchId];
            GamesPlayed(db.(matches := db.matches - {matchId}), playerId)
            == GamesPlayed(db, playerId) - (if CountsFor(m, playerId) then 1 else 0)
  {
    var before := CountedIds(db.matches, playerId);
    assert CountedIds(db.matches - {matchId}, playerId) == before - {matchId};
  }

  lemma SubsetCardinality(a: set<int>, b: set<int>)
    requires a <= b
    ensures |a| <= |b|
  {
    assert b == a + (b - a);
    assert a * (b - a) == {};
  }

  // ---------------------------------------------------------------------------
  // The store
  // ---------------------------------------------------------------------------

  /** The SQLite database file: both tables, updated in place. */
  class Store {
    const elo: Elo
    var players: map<int, Player>
    var matches: map<int, Match>
    var nextPlayerId: int
    var nextMatchId: int

    function Snapshot(): Db
      reads this
    {
      Db(players, matches, nextPlayerId, nextMatchId)
    }

    ghost predicate Valid()
      reads this
    {
      Snapshot().Valid()
    }

    /** `init_db`: both tables empty. */
    constructor (elo: Elo)
      ensures Valid() && Snapshot() == Empty() && this.elo == elo
    {
      this.elo := elo;
      players, matches := map[], map[];
      nextPlayerId, nextMatchId := 1, 1;
    }

    /** `register_player`. */
    method RegisterPlayer(telegramId: int, username: string)
      requires Valid()
      modifies this
      ensures Valid()
      ensures Snapshot() == Register(old(Snapshot()), telegramId, username)
    {
      if !HasTelegramId(players, telegramId) {
        players := players[nextPlayerId := Player(telegramId, username, DefaultRating)];
        nextPlayerId := nextPlayerId + 1;
      }
    }

    /** `record_match`: returns the new match's id (`lastrowid`). */
    method RecordMatch(player1: int, player2: int, score1: int, score2: int, winner: int)
      returns (matchId: int)
      requires Valid()
      modifies this
      ensures Valid()
      ensures matchId == old(nextMatchId) && matchId !in old(matches)
      ensures Snapshot() == Record(old(Snapshot()), player1, player2, score1, score2, winner)
    {
      matchId := nextMatchId;
      matches := matches[matchId := Match(player1, player2, score1, score2, winner, false)];
      nextMatchId := nextMatchId + 1;
    }

    /**
      `confirm_match`: false for an absent match; otherwise the two rating
      UPDATEs and the flag UPDATE, then true.
     */
    method ConfirmMatch(matchId: int) returns (ok: bool)
      requires Valid()
      requires matchId in matches ==> Confirmable(Snapshot(), matchId)
      modifies this
      ensures Valid()
      ensures ok <==> matchId in old(matches)
      ensures Snapshot() == Confirm(old(Snapshot()), matchId, elo)
    {
      if matchId !in matches {
        return false;
      }
      var m := matches[matchId];
      var winnerId, loserId := m.winner, Loser(m);
      var updated := elo(players[winnerId].rating, players[loserId].rating);
      players := players[winnerId := players[winnerId].(rating := updated.0)];
      players := players[loserId := players[loserId].(rating := updated.1)];
      matches := matches[matchId := m.(confirmed := true)];
      return true;
    }
  }

  /**
    Two players rated 1500, one match reported and confirmed: with a rating
    calculator that gives 1516/1484 for equal ratings of 1500 the players end
    at 1516 and 1484; a second confirmation of the same match returns true
    again and applies the calculator once more.
   */
  method EqualRatingsExample(elo: Elo) returns (winner: int, loser: int, reconfirmed: bool, winnerAfter: int)
    requires elo(1500, 1500) == (1516, 1484)
    ensures winner == 1516 && loser == 1484
    ensures reconfirmed && winnerAfter == elo(1516, 1484).0
  {
    var store := new Store(elo);
    store.RegisterPlayer(101, "alice");
    store.RegisterPlayer(202, "bob");
    assert store.players == map[1 := Player(101, "alice", 1500), 2 := Player(202, "bob", 1500)];
    var id := store.RecordMatch(1, 2, 3, 1, 1);
    var ok := store.ConfirmMatch(id);
    winner, loser := store.players[1].rating, store.players[2].rating;
    reconfirmed := store.ConfirmMatch(id);
    winnerAfter := store.players[1].rating;
  }
}
