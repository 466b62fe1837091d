/** Players and the score update `addPoints` hands to `setPlayers`. */
module Players {
  import opened Badges

  /** A player's record in the `players` object; the player's name is its key there. */
  datatype Player = Player(score: int, avatar: string, badges: seq<int>)

  /** A player as the game keeps one: a non-negative score and exactly the badges that score reached. */
  ghost predicate WellFormed(p: Player) {
    p.score >= 0 && p.badges == EarnedBadges(p.score)
  }

  ghost predicate AllWellFormed(players: map<string, Player>) {
    forall k :: k in players ==> WellFormed(players[k])
  }

  /**
   * The `players` update of `addPoints(name, points, …)`: nothing when `points` is not positive;
   * otherwise only `name` changes, gaining `points` and the milestones its new score reaches.
   */
  function Credit(players: map<string, Player>, name: string, points: int): (r: map<string, Player>)
    requires points > 0 ==> name in players
    ensures points <= 0 ==> r == players
    ensures r.Keys == players.Keys
    ensures forall k :: k in players && k != name ==> r[k] == players[k]
    ensures points > 0 ==>
              && r[name].score == players[name].score + points
              && r[name].avatar == players[name].avatar
              && players[name].badges <= r[name].badges
              && (forall m :: m in Milestones && m <= r[name].score ==> m in r[name].badges)
              && (forall b :: b in r[name].badges ==> b in players[name].badges || (b in Milestones && b <= r[name].score))
              && (NoDuplicates(players[name].badges) ==> NoDuplicates(r[name].badges))
    ensures forall k :: k in players ==> r[k].score >= players[k].score
    ensures AllWellFormed(players) ==> AllWellFormed(r)
  {
    if points > 0 then
      var p := players[name];
      var score := p.score + points;
      BadgesAfterProperties(p.badges, score);
      BadgesAfterEarned(p.score, score);
      players[name := Player(score, p.avatar, BadgesAfter(p.badges, score))]
    else
      players
  }
}
