/** Badge milestones and the badge update done when a player's score goes up. */
module Badges {

  /** `badgeMilestones`: the scores at which a badge is earned, in increasing order. */
  const Milestones: seq<int> := [50, 100, 150]

  ghost predicate NoDuplicates(s: seq<int>) {
    forall i, j :: 0 <= i < j < |s| ==> s[i] != s[j]
  }

  /** The milestones of `ms`, in their order, that `score` reaches and `held` does not contain. */
  function Unearned(ms: seq<int>, held: seq<int>, score: int): seq<int>
    decreases |ms|
  {
    if ms == [] then []
    else
      var n := |ms| - 1;
      Unearned(ms[..n], held, score) + (if score >= ms[n] && ms[n] !in held then [ms[n]] else [])
  }

  /** The badge list after an award: the old list with the newly reached milestones pushed at its end. */
  function BadgesAfter(held: seq<int>, score: int): seq<int> {
    held + Unearned(Milestones, held, score)
  }

  /** The badges of a player who has reached `score` through awards, starting from none. */
  function EarnedBadges(score: int): seq<int> {
    Unearned(Milestones, [], score)
  }

  lemma {:induction false} UnearnedMembers(ms: seq<int>, held: seq<int>, score: int)
    ensures forall x :: x in Unearned(ms, held, score) <==> x in ms && score >= x && x !in held
  {
    if ms != [] {
      var n := |ms| - 1;
      UnearnedMembers(ms[..n], held, score);
      assert ms == ms[..n] + [ms[n]];
    }
  }

  lemma {:induction false} UnearnedNoDuplicates(ms: seq<int>, held: seq<int>, score: int)
    requires NoDuplicates(ms)
    ensures NoDuplicates(Unearned(ms, held, score))
  {
    if ms != [] {
      var n := |ms| - 1;
      UnearnedNoDuplicates(ms[..n], held, score);
      UnearnedMembers(ms[..n], held, score);
    }
  }

  /**
   * An award keeps every badge already held, in front; adds every milestone the new score
   * reaches; adds nothing but milestones; and adds no duplicate.
   */
  lemma BadgesAfterProperties(held: seq<int>, score: int)
    ensures held <= BadgesAfter(held, score)
    ensures forall m :: m in Milestones && m <= score ==> m in BadgesAfter(held, score)
    ensures forall b :: b in BadgesAfter(held, score) ==> b in held || (b in Milestones && b <= score)
    ensures NoDuplicates(held) ==> NoDuplicates(BadgesAfter(held, score))
  {
    UnearnedMembers(Milestones, held, score);
    UnearnedNoDuplicates(Milestones, held, score);
    var added := Unearned(Milestones, held, score);
    if NoDuplicates(held) {
      forall i, j | 0 <= i < j < |held + added| ensures (held + added)[i] != (held + added)[j] {
        if j >= |held| && i < |held| {
          assert (held + added)[j] == added[j - |held|];
          assert (held + added)[i] in held;
        }
      }
    }
  }

  /** `Unearned` over the three milestones, written out. */
  lemma UnearnedMilestones(held: seq<int>, score: int)
    ensures Unearned(Milestones, held, score) ==
      (if score >= 50 && 50 !in held then [50] else [])
      + (if score >= 100 && 100 !in held then [100] else [])
      + (if score >= 150 && 150 !in held then [150] else [])
  {
    assert Milestones[..2] == [50, 100];
    assert [50, 100][..1] == [50];
    assert [50][..0] == [];
    assert Unearned([50], held, score) == (if score >= 50 && 50 !in held then [50] else []);
    assert Unearned([50, 100], held, score) == Unearned([50], held, score) + (if score >= 100 && 100 !in held then [100] else []);
  }

  /** In closed form: the milestones up to `score`, smallest first. */
  lemma EarnedBadgesValue(score: int)
    ensures EarnedBadges(score) ==
      if score >= 150 then [50, 100, 150] else if score >= 100 then [50, 100] else if score >= 50 then [50] else []
  {
    UnearnedMilestones([], score);
  }

  /**
   * Starting from exactly the badges an old score earned, an award to a higher score leaves
   * exactly the badges the new score earned.
   */
  lemma BadgesAfterEarned(oldScore: int, newScore: int)
    requires oldScore <= newScore
    ensures BadgesAfter(EarnedBadges(oldScore), newScore) == EarnedBadges(newScore)
  {
    EarnedBadgesValue(oldScore);
    EarnedBadgesValue(newScore);
    UnearnedMilestones(EarnedBadges(oldScore), newScore);
  }

  /** The `badgeMilestones.forEach` loop of `addPoints`, pushing each reached milestone not yet held. */
  method MergeBadges(held: seq<int>, score: int) returns (badges: seq<int>)
    ensures badges == BadgesAfter(held, score)
  {
    badges := held;
    var i := 0;
    while i < |Milestones|
      invariant 0 <= i <= |Milestones|
      invariant badges == held + Unearned(Milestones[..i], held, score)
    {
      var milestone := Milestones[i];
      UnearnedMembers(Milestones[..i], held, score);
      assert milestone !in Milestones[..i];
      if score >= milestone && milestone !in badges {
        badges := badges + [milestone];
      }
      assert Milestones[..i + 1][..i] == Milestones[..i];
      i := i + 1;
    }
    assert Milestones[..|Milestones|] == Milestones;
  }
}
