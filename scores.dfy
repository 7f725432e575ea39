/**
 Score records of finished games and the three score queries: the scores
 of one user, the high-score list and the ranking of users.
 */
module Scores {
  import opened Wrappers
  import opened Games
  import opened Seqs

  /**
   The score kept for a finished game: its winner and the winner's surviving
   ships. The winner is a key property that may be empty, as a player slot
   is; an empty winner stands for the computer.
   */
  datatype Score = Score(winner: Player, shipsRemaining: int)

  /** The score was won by a user called `name`. */
  predicate WonBy(s: Score, name: string) {
    s.winner.Some? && s.winner.value.name == name
  }

  /** Some score has no user behind its winner, so `score.winner.get()` fails on it. */
  ghost predicate HasComputerWin(scores: seq<Score>) {
    exists i :: 0 <= i < |scores| && scores[i].winner.None?
  }

  /** One row of the ranking: a user name and the sum of that user's scores. */
  datatype Rank = Rank(user: string, score: int)

  function RankUser(r: Rank): string { r.user }

  function RankScore(r: Rank): int { r.score }

  /** The order `order(-Score.ships_remaining)`: ascending in this key is descending in ships. */
  function HighScoreKey(s: Score): int { -s.shipsRemaining }

  /** The sum of `shipsRemaining` over the scores won by a user called `name`. */
  function Total(scores: seq<Score>, name: string): int {
    if scores == [] then 0
    else
      var last := scores[|scores| - 1];
      Total(scores[..|scores| - 1], name) + (if WonBy(last, name) then last.shipsRemaining else 0)
  }

  /** The names of all users who won a score. */
  ghost function WinnerNames(scores: seq<Score>): set<string> {
    set i | 0 <= i < |scores| && scores[i].winner.Some? :: scores[i].winner.value.name
  }

  /** The query `Score.winner == user.key`: an empty winner matches no user. */
  predicate WonByKey(user: User, s: Score) {
    s.winner.Some? && s.winner.value.key == user.key
  }

  /** The scores whose winner is `user`, in query order. */
  function UserScores(scores: seq<Score>, user: User): (r: seq<Score>)
    ensures forall s :: s in r <==> s in scores && WonByKey(user, s)
    ensures forall s :: multiset(r)[s] == if WonByKey(user, s) then multiset(scores)[s] else 0
  {
    Filter(scores, (s: Score) => WonByKey(user, s))
  }

  /**
   `get_user_scores`: looks the user up by name and returns that user's
   scores; `None` is the "A User with that name does not exist!" error.
   */
  function UserScoresNamed(users: seq<User>, scores: seq<Score>, name: string): (r: Option<seq<Score>>)
    ensures r.None? <==> forall u :: u in users ==> u.name != name
    ensures r.Some? ==> exists i :: IsFirstNamed(users, i, name) && r.value == UserScores(scores, users[i])
  {
    match FindUser(users, name)
    case None => None
    case Some(u) => Some(UserScores(scores, u))
  }

  /**
   `get_high_scores`: the scores ordered by `shipsRemaining`, highest first,
   cut to the first `n`.
   */
  function HighScores(scores: seq<Score>, n: nat): (r: seq<Score>)
    ensures |r| == if n < |scores| then n else |scores|
    ensures forall i, j :: 0 <= i < j < |r| ==> r[i].shipsRemaining >= r[j].shipsRemaining
    ensures multiset(r) <= multiset(scores)
    ensures forall x, y :: x in multiset(scores) - multiset(r) && y in r ==> y.shipsRemaining >= x.shipsRemaining
  {
    var ordered := SortBy(scores, HighScoreKey);
    var k := if n < |scores| then n else |scores|;
    PrefixHoldsLeast(ordered, HighScoreKey, k);
    var r := ordered[..k];
    assert multiset(scores) == multiset(ordered);
    forall x, y | x in multiset(scores) - multiset(r) && y in r ensures y.shipsRemaining >= x.shipsRemaining {
      assert HighScoreKey(y) <= HighScoreKey(x);
    }
    forall i, j | 0 <= i < j < |r| ensures r[i].shipsRemaining >= r[j].shipsRemaining {
      assert HighScoreKey(ordered[i]) <= HighScoreKey(ordered[j]);
    }
    r
  }

  lemma TotalStep(scores: seq<Score>, i: nat, name: string)
    requires i < |scores|
    ensures Total(scores[..i + 1], name)
         == Total(scores[..i], name) + (if WonBy(scores[i], name) then scores[i].shipsRemaining else 0)
  {
    assert scores[..i + 1][..i] == scores[..i];
  }

  /** A name that won nothing has a total of zero. */
  lemma {:induction false} TotalOfNonWinner(scores: seq<Score>, name: string)
    requires name !in WinnerNames(scores)
    ensures Total(scores, name) == 0
  {
    if scores != [] {
      var init := scores[..|scores| - 1];
      assert WinnerNames(init) <= WinnerNames(scores) by {
        forall i | 0 <= i < |init| && init[i].winner.Some? ensures init[i].winner.value.name in WinnerNames(scores) {
          assert init[i] == scores[i];
        }
      }
      var last := scores[|scores| - 1];
      assert last.winner.Some? ==> last.winner.value.name in WinnerNames(scores);
      TotalOfNonWinner(init, name);
    }
  }

  /** The items of a dictionary, in an order the dictionary does not specify. */
  method Items(m: map<string, int>) returns (items: seq<Rank>)
    ensures DistinctBy(items, RankUser)
    ensures forall i :: 0 <= i < |items| ==> items[i].user in m && items[i].score == m[items[i].user]
    ensures forall name :: name in m ==> exists i :: 0 <= i < |items| && items[i].user == name
  {
    items := [];
    var rest := m.Keys;
    while rest != {}
      invariant rest <= m.Keys
      invariant DistinctBy(items, RankUser)
      invariant forall i :: 0 <= i < |items| ==> items[i].user in m.Keys - rest && items[i].score == m[items[i].user]
      invariant forall name :: name in m.Keys - rest ==> exists i :: 0 <= i < |items| && items[i].user == name
      decreases rest
    {
      var name :| name in rest;
      var before, restBefore := items, rest;
      items := items + [Rank(name, m[name])];
      rest := rest - {name};
      forall other | other in m.Keys - rest ensures exists i :: 0 <= i < |items| && items[i].user == other {
        if other == name {
          assert items[|items| - 1].user == other;
        } else {
          assert other in m.Keys - restBefore;
          var i :| 0 <= i < |before| && before[i].user == other;
          assert items[i] == before[i];
        }
      }
    }
    assert m.Keys - rest == m.Keys;
  }

  /** Reverses `a` in place, as `list.reverse()` does. */
  method ReverseInPlace(a: array<Rank>)
    modifies a
    ensures forall k :: 0 <= k < a.Length ==> a[k] == old(a[..])[a.Length - 1 - k]
  {
    var lo, hi := 0, a.Length - 1;
    while lo < hi
      invariant 0 <= lo <= a.Length && hi == a.Length - 1 - lo
      invariant forall k :: 0 <= k < lo ==> a[k] == old(a[a.Length - 1 - k]) && a[a.Length - 1 - k] == old(a[k])
      invariant forall k :: lo <= k <= hi ==> a[k] == old(a[k])
    {
      a[lo], a[hi] := a[hi], a[lo];
      lo, hi := lo + 1, hi - 1;
    }
  }

  /**
   The dictionary `scores_grouped_by_user`: each winner name with its total.
   `None` is the failure of `score.winner.get()` on a score without a user.
   */
  method GroupByWinner(scores: seq<Score>) returns (grouped: Option<map<string, int>>)
    ensures grouped.None? <==> HasComputerWin(scores)
    ensures grouped.Some? ==> grouped.value.Keys == WinnerNames(scores)
    ensures grouped.Some? ==> forall name :: name in grouped.value ==> grouped.value[name] == Total(scores, name)
  {
    var totals := map[];
    var n := 0;
    while n < |scores|
      invariant 0 <= n <= |scores|
      invariant forall i :: 0 <= i < n ==> scores[i].winner.Some?
      invariant totals.Keys == WinnerNames(scores[..n])
      invariant forall name :: name in totals ==> totals[name] == Total(scores[..n], name)
    {
      if scores[n].winner.None? {
        return None;
      }
      var name := scores[n].winner.value.name;
      var before := totals;
      if name !in totals {
        TotalOfNonWinner(scores[..n], name);
      }
      if name in totals {
        totals := totals[name := totals[name] + scores[n].shipsRemaining];
      } else {
        totals := totals[name := scores[n].shipsRemaining];
      }
      forall other | other in totals ensures totals[other] == Total(scores[..n + 1], other) {
        TotalStep(scores, n, other);
        if other != name {
          assert totals[other] == before[other];
        }
      }
      assert WinnerNames(scores[..n + 1]) == WinnerNames(scores[..n]) + {name} by {
        assert scores[..n + 1][n] == scores[n];
        forall i | 0 <= i < n ensures scores[..n + 1][i] == scores[..n][i] { }
      }
      n := n + 1;
    }
    assert scores[..n] == scores;
    grouped := Some(totals);
  }

  /** The list `rankings` after `rankings.reverse()`. */
  method Reversed(s: seq<Rank>) returns (r: seq<Rank>)
    ensures |r| == |s|
    ensures forall k :: 0 <= k < |r| ==> r[k] == s[|s| - 1 - k]
  {
    var a := new Rank[|s|](k requires 0 <= k < |s| => s[k]);
    assert a[..] == s;
    ReverseInPlace(a);
    r := a[..];
  }

  /** Sorting the items by score keeps them the items of `grouped`. */
  lemma SortedItems(items: seq<Rank>, grouped: map<string, int>)
    requires DistinctBy(items, RankUser)
    requires forall i :: 0 <= i < |items| ==> items[i].user in grouped && items[i].score == grouped[items[i].user]
    requires forall name :: name in grouped ==> exists i :: 0 <= i < |items| && items[i].user == name
    ensures var sorted := SortBy(items, RankScore);
      && DistinctBy(sorted, RankUser)
      && (forall r :: r in sorted ==> r.user in grouped && r.score == grouped[r.user])
      && (forall name :: name in grouped ==> exists i :: 0 <= i < |sorted| && sorted[i].user == name)
  {
    var sorted := SortBy(items, RankScore);
    SortKeepsDistinct(items, RankScore, RankUser);
    forall r | r in sorted ensures r.user in grouped && r.score == grouped[r.user] {
      assert r in multiset(items);
    }
    forall name | name in grouped ensures exists i :: 0 <= i < |sorted| && sorted[i].user == name {
      var i :| 0 <= i < |items| && items[i].user == name;
      assert items[i] in multiset(sorted);
      var j :| 0 <= j < |sorted| && sorted[j] == items[i];
    }
  }

  /**
   Reading an ascending, duplicate-free list of the grouped totals
   backwards lists every winner once, with its total, highest first.
   */
  lemma ReversedRanking(scores: seq<Score>, grouped: map<string, int>, sorted: seq<Rank>, rankings: seq<Rank>)
    requires grouped.Keys == WinnerNames(scores)
    requires forall name :: name in grouped ==> grouped[name] == Total(scores, name)
    requires |rankings| == |sorted|
    requires forall k :: 0 <= k < |rankings| ==> rankings[k] == sorted[|sorted| - 1 - k]
    requires Ascending(sorted, RankScore) && DistinctBy(sorted, RankUser)
    requires forall r :: r in sorted ==> r.user in grouped && r.score == grouped[r.user]
    requires forall name :: name in grouped ==> exists i :: 0 <= i < |sorted| && sorted[i].user == name
    ensures forall name :: name in WinnerNames(scores) <==> exists i :: 0 <= i < |rankings| && rankings[i].user == name
    ensures forall i, j :: 0 <= i < j < |rankings| ==> rankings[i].user != rankings[j].user
    ensures forall i :: 0 <= i < |rankings| ==> rankings[i].score == Total(scores, rankings[i].user)
    ensures forall i, j :: 0 <= i < j < |rankings| ==> rankings[i].score >= rankings[j].score
  {
    var last := |sorted| - 1;
    forall name | name in grouped ensures exists i :: 0 <= i < |rankings| && rankings[i].user == name {
      var i :| 0 <= i < |sorted| && sorted[i].user == name;
      assert rankings[last - i] == sorted[i];
    }
    forall i | 0 <= i < |rankings| ensures rankings[i].user in grouped && rankings[i].score == Total(scores, rankings[i].user) {
      assert sorted[last - i] in sorted;
    }
    forall i, j | 0 <= i < j < |rankings| ensures rankings[i].user != rankings[j].user {
      assert RankUser(sorted[last - j]) != RankUser(sorted[last - i]);
    }
    forall i, j | 0 <= i < j < |rankings| ensures rankings[i].score >= rankings[j].score {
      assert RankScore(sorted[last - j]) <= RankScore(sorted[last - i]);
    }
  }

  /**
   `get_user_rankings`: groups the scores by winner name, sums their
   `shipsRemaining`, and lists the users by that sum, highest first.
   `None` is the failure on a score that has no user as its winner.
   */
  method UserRankings(scores: seq<Score>) returns (rankings: Option<seq<Rank>>)
    ensures rankings.None? <==> HasComputerWin(scores)
    ensures rankings.Some? ==> forall name :: name in WinnerNames(scores) <==> exists i :: 0 <= i < |rankings.value| && rankings.value[i].user == name
    ensures rankings.Some? ==> forall i, j :: 0 <= i < j < |rankings.value| ==> rankings.value[i].user != rankings.value[j].user
    ensures rankings.Some? ==> forall i :: 0 <= i < |rankings.value| ==> rankings.value[i].score == Total(scores, rankings.value[i].user)
    ensures rankings.Some? ==> forall i, j :: 0 <= i < j < |rankings.value| ==> rankings.value[i].score >= rankings.value[j].score
  {
    var grouped := GroupByWinner(scores);
    if grouped.None? {
      return None;
    }
    var items := Items(grouped.value);
    var sorted := SortBy(items, RankScore);
    SortedItems(items, grouped.value);

    var reversed := Reversed(sorted);
    ReversedRanking(scores, grouped.value, sorted, reversed);
    rankings := Some(reversed);
  }
}
