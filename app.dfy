/**
 * The state of the `App` component and the event handlers that change it: onboarding, risk
 * detection (its effect on the state only), scoring a selection, and revealing the winners.
 */
module App {
  import opened Wrappers
  import opened Text
  import opened Badges
  import opened Players
  import opened Scoring
  import opened Onboarding
  import opened Leaderboard

  /** One line of the events log; `time` is the locale time string, kept uninterpreted. */
  datatype LogEntry = LogEntry(player: string, points: int, reason: string, selection: string, severity: string, time: string)

  /** What the detection request came back with, as far as the state depends on it. */
  datatype Reply =
    | Unreachable               // `fetch` or `response.json()` threw
    | NoArray                   // no message content, or no bracketed array in it
    | Unparsable                // the bracketed text is not JSON
    | Parsed(risks: seq<Risk>)  // the parsed array

  const MissingKeyError: string := "Please enter your OpenAI API key."
  const MissingDocumentError: string := "Please upload or paste a document first."
  const ParseError: string := "Could not parse AI response. Try again or with a smaller document."
  const NoRisksError: string := "No risks detected or could not parse AI response."
  const ContactError: string := "Error contacting OpenAI API. Check your key and try again."

  /** A click on a player's scoring button: refused for an empty selection, or scored. */
  datatype ClickOutcome = EmptySelection | Scored(outcome: Outcome)

  class Game {
    var onboarding: bool
    var players: map<string, Player>
    var log: seq<LogEntry>
    var risks: seq<Risk>
    var aiError: string
    var showRisks: bool
    var winner: Option<seq<string>>

    /** Every player has a non-negative score and exactly the badges that score reached. */
    ghost predicate Valid()
      reads this
    {
      AllWellFormed(players)
    }

    /** The initial state: the onboarding form is shown and nothing has happened yet. */
    constructor ()
      ensures Valid()
      ensures onboarding && players == map[] && log == [] && risks == []
      ensures aiError == "" && !showRisks && winner == None
    {
      onboarding := true;
      players := map[];
      log := [];
      risks := [];
      aiError := "";
      showRisks := false;
      winner := None;
    }

    /**
     * `handleOnboardingSubmit`: either the new players replace the old and the game starts, or
     * the alert text comes back and nothing changes.
     */
    method SubmitOnboarding(inputs: seq<PlayerInput>) returns (alert: Option<string>)
      modifies this`players, this`onboarding
      ensures Onboard(inputs).Success? ==> alert == None && players == Onboard(inputs).value && !onboarding
      ensures Onboard(inputs).Failure? ==>
                alert == Some(Message(Onboard(inputs).error)) && players == old(players) && onboarding == old(onboarding)
      ensures old(Valid()) ==> Valid()
    {
      var r := Onboard(inputs);
      match r
      case Success(m) =>
        OnboardPlayers(inputs);
        players := m;
        onboarding := false;
        alert := None;
      case Failure(e) =>
        alert := Some(Message(e));
    }

    /**
     * `addPoints`: a positive award raises only `player`'s score and pushes the badges it now
     * reaches; every call appends exactly one log entry.
     */
    method AddPoints(player: string, points: int, reason: string, selection: string, severity: string, time: string)
      requires points > 0 ==> player in players
      modifies this`players, this`log
      ensures players == Credit(old(players), player, points)
      ensures log == old(log) + [LogEntry(player, points, reason, selection, severity, time)]
      ensures old(Valid()) ==> Valid()
    {
      if points > 0 {
        var prev := players[player];
        var newScore := prev.score + points;
        var newBadges := MergeBadges(prev.badges, newScore);
        players := players[player := Player(newScore, prev.avatar, newBadges)];
      }
      log := log + [LogEntry(player, points, reason, selection, severity, time)];
    }

    /**
     * `handleSelectionClick` for the player whose button was clicked, given the raw text of the
     * browser selection and the current time: an empty trimmed selection changes nothing;
     * otherwise the selection is judged against the loaded risks and exactly one log entry is added.
     * Each scoring button belongs to one player, so `player` is always a key of `players`.
     */
    method SelectionClick(player: string, rawSelection: string, time: string) returns (result: ClickOutcome)
      requires player in players
      modifies this`players, this`log
      ensures Trim(rawSelection) == [] ==> result == EmptySelection && players == old(players) && log == old(log)
      ensures Trim(rawSelection) != [] ==>
                var v := Judge(risks, Trim(rawSelection));
                && result == Scored(v.outcome)
                && log == old(log) + [LogEntry(player, v.points, v.reason, Trim(rawSelection), v.severity, time)]
                && players == Credit(old(players), player, v.points)
      ensures old(Valid()) ==> Valid()
    {
      var selection := Trim(rawSelection);
      if selection == [] {
        return EmptySelection;
      }
      var points := 0;
      var reason := "";
      var severity := "";
      if |risks| > 0 {
        var m := FindMatch(risks, selection);
        if m.Some? {
          var r := risks[m.value];
          severity := SeverityText(r);
          points := SeverityPoints(severity);
          reason := CorrectReason(r, severity);
          result := Scored(Matched(m.value));
        } else {
          reason := NoMatchReason;
          result := Scored(NoMatch);
        }
      } else {
        reason := NotDetectedReason;
        result := Scored(NotDetected);
      }
      AddPoints(player, points, reason, selection, severity, time);
    }

    /**
     * The effect of `handleDetectRisks` on the state: a missing key or document only sets the
     * error; otherwise the risk list is cleared and replaced by whatever was parsed.
     */
    method DetectRisks(apiKey: string, docText: string, reply: Reply)
      modifies this`risks, this`aiError
      ensures apiKey == [] ==> risks == old(risks) && aiError == MissingKeyError
      ensures apiKey != [] && docText == [] ==> risks == old(risks) && aiError == MissingDocumentError
      ensures apiKey != [] && docText != [] ==>
                && risks == (if reply.Parsed? then reply.risks else [])
                && aiError == (if reply.Unreachable? then ContactError else if risks == [] then NoRisksError else "")
      ensures Valid() == old(Valid())
    {
      if apiKey == [] {
        aiError := MissingKeyError;
        return;
      }
      if docText == [] {
        aiError := MissingDocumentError;
        return;
      }
      aiError := "";
      risks := [];
      if reply.Unreachable? {
        aiError := ContactError;
      } else {
        var found: seq<Risk> := [];
        if reply.Unparsable? {
          aiError := ParseError;
        } else if reply.Parsed? {
          found := reply.risks;
        }
        risks := found;
        if |found| == 0 {
          aiError := NoRisksError;
        }
      }
    }

    /** `Object.entries(players)`, in an order the model leaves open. */
    method Entries() returns (es: seq<Entry>)
      ensures Lists(es, players)
    {
      es := [];
      var rest := players.Keys;
      while rest != {}
        invariant rest <= players.Keys
        invariant forall i :: 0 <= i < |es| ==> es[i].0 in players && es[i].0 !in rest && players[es[i].0] == es[i].1
        invariant forall i, j :: 0 <= i < j < |es| ==> es[i].0 != es[j].0
        invariant forall k :: k in players && k !in rest ==> exists i :: 0 <= i < |es| && es[i].0 == k
        decreases rest
      {
        var name :| name in rest;
        ghost var before := es;
        es := es + [(name, players[name])];
        assert forall i :: 0 <= i < |before| ==> es[i] == before[i];
        assert es[|before|].0 == name;
        rest := rest - {name};
      }
    }

    /**
     * `sortedPlayers` and `maxScore`: every player once, highest score first, and a ceiling of at
     * least 100 that no score exceeds and that is 100 or some player's score.
     */
    method Leaders() returns (sortedPlayers: seq<Entry>, maxScore: int)
      ensures Lists(sortedPlayers, players) && NonIncreasing(sortedPlayers)
      ensures maxScore >= 100 && forall k :: k in players ==> players[k].score <= maxScore
      ensures maxScore == 100 || exists k :: k in players && players[k].score == maxScore
    {
      var es := Entries();
      sortedPlayers := SortByScore(es);
      SortByScorePermutes(es);
      SortByScoreOrdered(es);
      ListsPermutation(es, sortedPlayers, players);
      maxScore := MaxScore(es);
      forall k | k in players ensures players[k].score <= maxScore {
        var i :| 0 <= i < |es| && es[i].0 == k;
      }
    }

    /**
     * The "Reveal Answers" handler: the risks are shown and, when there is a player, the winners
     * are exactly the players no one outscores.
     */
    method RevealAnswers()
      modifies this`showRisks, this`winner
      ensures showRisks
      ensures players == map[] ==> winner == old(winner)
      ensures players != map[] ==>
                && winner.Some?
                && forall n :: n in winner.value <==> n in players && forall k :: k in players ==> players[k].score <= players[n].score
      ensures Valid() == old(Valid())
    {
      showRisks := true;
      var es := Entries();
      var winners := Winners(es);
      WinnersAreTop(es);
      if |winners| > 0 {
        winner := Some(winners);
      }
      if players != map[] {
        var k0 :| k0 in players;
        var i0 :| 0 <= i0 < |es| && es[i0].0 == k0;
        forall n ensures n in winners <==> n in players && forall k :: k in players ==> players[k].score <= players[n].score {
          if n in winners {
            var i :| 0 <= i < |es| && es[i].0 == n && forall j :: 0 <= j < |es| ==> es[j].1.score <= es[i].1.score;
            forall k | k in players ensures players[k].score <= players[n].score {
              var j :| 0 <= j < |es| && es[j].0 == k;
            }
          }
          if n in players && forall k :: k in players ==> players[k].score <= players[n].score {
            var i :| 0 <= i < |es| && es[i].0 == n;
            assert IsTop(es, n);
          }
        }
      }
    }
  }
}
