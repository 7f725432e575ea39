/**
 The game queries: the active games of one user, and the sweep for games
 that have waited twelve hours or more for a move.

 Times are whole microseconds on one clock; the current time is a
 parameter. The elapsed time is normalised as Python's `timedelta` does:
 any number of days, then seconds in [0, 86400), then microseconds in
 [0, 1000000).
 */
module Queries {
  import opened Wrappers
  import opened Games
  import opened Seqs

  const MICROS_PER_SECOND := 1000000
  const SECONDS_PER_DAY := 86400
  const SECONDS_PER_HOUR := 3600
  const DORMANT_HOURS := 12

  /** A user in either player slot, compared by datastore key. */
  predicate Plays(g: GameState, user: User) {
    (g.player1.Some? && g.player1.value.key == user.key)
    || (g.player2.Some? && g.player2.value.key == user.key)
  }

  /** The games that are neither over nor cancelled and that `user` plays in. */
  function UserGames(games: seq<GameState>, user: User): (r: seq<GameState>)
    ensures forall g :: g in r <==> g in games && IsActive(g) && Plays(g, user)
    ensures forall g :: multiset(r)[g] == if IsActive(g) && Plays(g, user) then multiset(games)[g] else 0
  {
    Filter(games, (g: GameState) => IsActive(g) && Plays(g, user))
  }

  /**
   `get_user_games`: looks the user up by name and returns that user's
   active games; `None` is the "A User with that name does not exist!" error.
   */
  function UserGamesNamed(users: seq<User>, games: seq<GameState>, name: string): (r: Option<seq<GameState>>)
    ensures r.None? <==> forall u :: u in users ==> u.name != name
    ensures r.Some? ==> exists i :: IsFirstNamed(users, i, name) && r.value == UserGames(games, users[i])
  {
    match FindUser(users, name)
    case None => None
    case Some(u) => Some(UserGames(games, u))
  }

  /** The query `game_over == False and cancelled == False`. */
  function ActiveGames(games: seq<GameState>): (r: seq<GameState>)
    ensures forall g :: g in r <==> g in games && IsActive(g)
    ensures forall g :: multiset(r)[g] == if IsActive(g) then multiset(games)[g] else 0
  {
    Filter(games, IsActive)
  }

  /** A `timedelta`: days, seconds and microseconds. */
  datatype TimeDelta = TimeDelta(days: int, seconds: int, microseconds: int)

  /** `now - since` as a normalised `timedelta`. */
  function Elapsed(now: int, since: int): (d: TimeDelta)
    ensures 0 <= d.seconds < SECONDS_PER_DAY
    ensures 0 <= d.microseconds < MICROS_PER_SECOND
    ensures (d.days * SECONDS_PER_DAY + d.seconds) * MICROS_PER_SECOND + d.microseconds == now - since
  {
    var micros := now - since;
    var wholeSeconds := micros / MICROS_PER_SECOND;
    TimeDelta(wholeSeconds / SECONDS_PER_DAY, wholeSeconds % SECONDS_PER_DAY, micros % MICROS_PER_SECOND)
  }

  /**
   The first half of `divmod(days * 86400 + seconds, 3600)`. Python's
   `divmod` floors, and so does Dafny's `/` by a positive divisor; the
   result is the number of whole hours elapsed, rounded down, also when
   `since` lies after `now`.
   */
  function IdleHours(now: int, since: int): (h: int)
    ensures h * SECONDS_PER_HOUR * MICROS_PER_SECOND <= now - since < (h + 1) * SECONDS_PER_HOUR * MICROS_PER_SECOND
  {
    var d := Elapsed(now, since);
    var w := d.days * SECONDS_PER_DAY + d.seconds;
    var h := w / SECONDS_PER_HOUR;
    assert h * SECONDS_PER_HOUR <= w < (h + 1) * SECONDS_PER_HOUR;
    assert now - since == w * MICROS_PER_SECOND + d.microseconds;
    h
  }

  predicate IsDormant(now: int, g: GameState) {
    IdleHours(now, g.lastMove) >= DORMANT_HOURS
  }

  /** Twelve whole hours is the same as 43200 seconds, microseconds ignored or not. */
  lemma DormantThreshold(now: int, since: int)
    ensures IdleHours(now, since) >= DORMANT_HOURS <==> now - since >= 43200 * MICROS_PER_SECOND
  {
  }

  /** The filter applied by the sweep, at the time `now`. */
  function DormantAt(now: int): GameState -> bool {
    g => IsDormant(now, g)
  }

  /**
   `_get_dormant_games`: the active games, in query order, whose last move
   lies twelve hours or more before `now`.
   */
  method DormantGames(games: seq<GameState>, now: int) returns (dormant: seq<GameState>)
    ensures dormant == Filter(ActiveGames(games), DormantAt(now))
    ensures forall g :: g in dormant <==> g in games && IsActive(g) && now - g.lastMove >= 43200 * MICROS_PER_SECOND
  {
    var active := ActiveGames(games);
    dormant := [];
    var i := 0;
    while i < |active|
      invariant 0 <= i <= |active|
      invariant dormant == Filter(active[..i], DormantAt(now))
    {
      FilterStep(active, i, DormantAt(now));
      if IdleHours(now, active[i].lastMove) >= DORMANT_HOURS {
        dormant := dormant + [active[i]];
      }
      i := i + 1;
    }
    assert active[..i] == active;
    DormantMembers(games, now);
  }

  /** The games the sweep keeps are the active games idle for at least 43200 seconds. */
  lemma DormantMembers(games: seq<GameState>, now: int)
    ensures forall g :: g in Filter(ActiveGames(games), DormantAt(now)) <==> g in games && IsActive(g) && now - g.lastMove >= 43200 * MICROS_PER_SECOND
  {
  }
}
