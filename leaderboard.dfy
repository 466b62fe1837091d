/** The leaderboard projection and the winners of the "Reveal Answers" handler. */
module Leaderboard {
  import opened Players

  /** One `[name, player]` pair of `Object.entries(players)`. */
  type Entry = (string, Player)

  /** `es` lists every player of `players` exactly once, each with its record. */
  ghost predicate Lists(es: seq<Entry>, players: map<string, Player>) {
    && (forall i :: 0 <= i < |es| ==> es[i].0 in players && players[es[i].0] == es[i].1)
    && (forall i, j :: 0 <= i < j < |es| ==> es[i].0 != es[j].0)
    && (forall k :: k in players ==> exists i :: 0 <= i < |es| && es[i].0 == k)
  }

  ghost predicate NonIncreasing(es: seq<Entry>) {
    forall i, j :: 0 <= i < j < |es| ==> es[i].1.score >= es[j].1.score
  }

  /** The entries whose score is `score`, in their order. */
  function WithScore(es: seq<Entry>, score: int): seq<Entry> {
    if es == [] then []
    else (if es[0].1.score == score then [es[0]] else []) + WithScore(es[1..], score)
  }

  /** Puts `e` in front of the first entry that does not score more than it. */
  function Insert(e: Entry, sorted: seq<Entry>): seq<Entry> {
    if sorted == [] || e.1.score >= sorted[0].1.score then [e] + sorted
    else [sorted[0]] + Insert(e, sorted[1..])
  }

  /** `sort((a, b) => b[1].score - a[1].score)`: a stable sort by descending score. */
  function SortByScore(es: seq<Entry>): seq<Entry> {
    if es == [] then [] else Insert(es[0], SortByScore(es[1..]))
  }

  lemma {:induction false} InsertPermutes(e: Entry, sorted: seq<Entry>)
    ensures multiset(Insert(e, sorted)) == multiset(sorted) + multiset{e}
  {
    if !(sorted == [] || e.1.score >= sorted[0].1.score) {
      InsertPermutes(e, sorted[1..]);
      assert sorted == [sorted[0]] + sorted[1..];
    }
  }

  lemma {:induction false} InsertBounded(e: Entry, sorted: seq<Entry>, bound: int)
    requires e.1.score <= bound
    requires forall i :: 0 <= i < |sorted| ==> sorted[i].1.score <= bound
    ensures forall i :: 0 <= i < |Insert(e, sorted)| ==> Insert(e, sorted)[i].1.score <= bound
  {
    if !(sorted == [] || e.1.score >= sorted[0].1.score) {
      InsertBounded(e, sorted[1..], bound);
    }
  }

  lemma {:induction false} InsertOrdered(e: Entry, sorted: seq<Entry>)
    requires NonIncreasing(sorted)
    ensures NonIncreasing(Insert(e, sorted))
  {
    if sorted == [] || e.1.score >= sorted[0].1.score {
      assert NonIncreasing([e] + sorted);
    } else {
      var head, rest := sorted[0], sorted[1..];
      InsertOrdered(e, rest);
      InsertBounded(e, rest, head.1.score);
      var r := Insert(e, rest);
      var x := [head] + r;
      forall i, j | 0 <= i < j < |x| ensures x[i].1.score >= x[j].1.score {
        assert x[j] == r[j - 1];
        if i > 0 {
          assert x[i] == r[i - 1];
        }
      }
    }
  }

  lemma {:induction false} InsertStable(e: Entry, sorted: seq<Entry>, score: int)
    ensures WithScore(Insert(e, sorted), score) == (if e.1.score == score then [e] else []) + WithScore(sorted, score)
  {
    var mine: seq<Entry> := if e.1.score == score then [e] else [];
    if sorted == [] || e.1.score >= sorted[0].1.score {
      assert ([e] + sorted)[1..] == sorted;
    } else {
      var head, rest := sorted[0], sorted[1..];
      var theirs: seq<Entry> := if head.1.score == score then [head] else [];
      InsertStable(e, rest, score);
      var x := [head] + Insert(e, rest);
      assert x[1..] == Insert(e, rest);
      calc {
        WithScore(x, score);
        theirs + WithScore(Insert(e, rest), score);
        theirs + (mine + WithScore(rest, score));
        { assert mine == [] || theirs == []; }
        mine + (theirs + WithScore(rest, score));
        mine + WithScore(sorted, score);
      }
    }
  }

  /** The leaderboard holds the same entries as `Object.entries(players)`. */
  lemma {:induction false} SortByScorePermutes(es: seq<Entry>)
    ensures multiset(SortByScore(es)) == multiset(es)
  {
    if es != [] {
      SortByScorePermutes(es[1..]);
      InsertPermutes(es[0], SortByScore(es[1..]));
      assert es == [es[0]] + es[1..];
    }
  }

  /** The leaderboard shows higher scores first. */
  lemma {:induction false} SortByScoreOrdered(es: seq<Entry>)
    ensures NonIncreasing(SortByScore(es))
  {
    if es != [] {
      SortByScoreOrdered(es[1..]);
      InsertOrdered(es[0], SortByScore(es[1..]));
    }
  }

  /** Players with equal scores keep their relative order. */
  lemma {:induction false} SortByScoreStable(es: seq<Entry>, score: int)
    ensures WithScore(SortByScore(es), score) == WithScore(es, score)
  {
    if es != [] {
      SortByScoreStable(es[1..], score);
      InsertStable(es[0], SortByScore(es[1..]), score);
    }
  }

  lemma {:induction false} CountAtMostOne(es: seq<Entry>, x: Entry)
    requires forall i, j :: 0 <= i < j < |es| ==> es[i].0 != es[j].0
    ensures multiset(es)[x] <= 1
  {
    if es != [] {
      CountAtMostOne(es[1..], x);
      assert es == [es[0]] + es[1..];
      if es[0] == x {
        assert x !in es[1..] by {
          forall j | 0 <= j < |es[1..]| ensures es[1..][j] != x {
            assert es[1..][j] == es[j + 1];
          }
        }
      }
    }
  }

  lemma CountAtLeastTwo(s: seq<Entry>, i: int, j: int)
    requires 0 <= i < j < |s| && s[i] == s[j]
    ensures multiset(s)[s[i]] >= 2
  {
    assert s == s[..j] + [s[j]] + s[j + 1..];
    assert s[i] in s[..j];
  }

  /** Reordering a listing of the players is still a listing of them. */
  lemma ListsPermutation(es: seq<Entry>, rs: seq<Entry>, players: map<string, Player>)
    requires Lists(es, players) && multiset(rs) == multiset(es)
    ensures Lists(rs, players)
  {
    forall i | 0 <= i < |rs| ensures rs[i].0 in players && players[rs[i].0] == rs[i].1 {
      assert rs[i] in multiset(es);
    }
    forall i, j | 0 <= i < j < |rs| ensures rs[i].0 != rs[j].0 {
      if rs[i].0 == rs[j].0 {
        assert rs[i] in multiset(es);
        assert rs[j] in multiset(es);
        assert rs[i] == rs[j];
        CountAtLeastTwo(rs, i, j);
        CountAtMostOne(es, rs[i]);
      }
    }
    forall k | k in players ensures exists i :: 0 <= i < |rs| && rs[i].0 == k {
      var i :| 0 <= i < |es| && es[i].0 == k;
      assert es[i] in multiset(rs);
    }
  }

  /** `Math.max(...scores, 100)`: the ceiling of the progress bars, at least 100 and at least every score. */
  function MaxScore(es: seq<Entry>): (m: int)
    ensures m >= 100
    ensures forall i :: 0 <= i < |es| ==> es[i].1.score <= m
    ensures m == 100 || exists i :: 0 <= i < |es| && es[i].1.score == m
  {
    if es == [] then 100
    else
      var rest := MaxScore(es[1..]);
      assert forall i :: 1 <= i < |es| ==> es[i] == es[1..][i - 1];
      if es[0].1.score > rest then es[0].1.score else rest
  }

  /** `Math.max(...entries.map(([_, p]) => p.score))` on at least one entry. */
  function TopScore(es: seq<Entry>): (m: int)
    requires es != []
    ensures forall i :: 0 <= i < |es| ==> es[i].1.score <= m
    ensures exists i :: 0 <= i < |es| && es[i].1.score == m
  {
    if |es| == 1 then es[0].1.score
    else
      var rest := TopScore(es[1..]);
      assert forall i :: 1 <= i < |es| ==> es[i] == es[1..][i - 1];
      if es[0].1.score > rest then es[0].1.score else rest
  }

  /** `entries.filter(([_, p]) => p.score === score).map(([name]) => name)`. */
  function NamesWithScore(es: seq<Entry>, score: int): (names: seq<string>)
    ensures forall n :: n in names <==> exists i :: 0 <= i < |es| && es[i].0 == n && es[i].1.score == score
  {
    if es == [] then []
    else
      assert forall i :: 1 <= i < |es| ==> es[i] == es[1..][i - 1];
      (if es[0].1.score == score then [es[0].0] else []) + NamesWithScore(es[1..], score)
  }

  /** The winners: every player tied at the top score; with no players the maximum is -Infinity and nobody wins. */
  function Winners(es: seq<Entry>): seq<string> {
    if es == [] then [] else NamesWithScore(es, TopScore(es))
  }

  /** `name` belongs to a player no other player outscores. */
  ghost predicate IsTop(es: seq<Entry>, name: string) {
    exists i :: 0 <= i < |es| && es[i].0 == name && forall j :: 0 <= j < |es| ==> es[j].1.score <= es[i].1.score
  }

  /** The winners are exactly the players tied at the maximum; there is one whenever there is a player. */
  lemma WinnersAreTop(es: seq<Entry>)
    ensures forall n :: n in Winners(es) <==> IsTop(es, n)
    ensures Winners(es) == [] <==> es == []
  {
    if es != [] {
      var top := TopScore(es);
      var i :| 0 <= i < |es| && es[i].1.score == top;
      assert es[i].0 in Winners(es);
    }
  }

  /** Given players X and Y with 10 points and Z with 5, both X and Y win. */
  lemma TieGivesSeveralWinners()
    ensures var es := [("X", Player(10, "", [])), ("Y", Player(10, "", [])), ("Z", Player(5, "", []))];
            Winners(es) == ["X", "Y"]
  {
    var es := [("X", Player(10, "", [])), ("Y", Player(10, "", [])), ("Z", Player(5, "", []))];
    assert es[1..][1..] == [es[2]];
    assert TopScore(es) == 10;
  }
}
