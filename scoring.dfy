/**
 * Matching a player's text selection against the risks the detection service returned,
 * and turning the matched risk's severity into points.
 */
module Scoring {
  import opened Wrappers
  import opened Text

  /**
   * One risky clause of the contract. `kind` is the clause type (a Dafny keyword forbids the
   * name `type`). A `text` the service left out is the empty string, which the matcher treats
   * the same way; a `severity` it left out is `None`.
   */
  datatype Risk = Risk(kind: string, text: string, explanation: string, severity: Option<string>)

  /** `match.severity || ""`. */
  function SeverityText(r: Risk): string {
    r.severity.GetOr("")
  }

  /** A risk competes for the selection when its text contains the selection or lies inside it. */
  predicate IsCandidate(r: Risk, selection: string) {
    r.text != [] && selection != [] && (Includes(r.text, selection) || Includes(selection, r.text))
  }

  /**
   * Risk `i` is a candidate of maximal text length and no earlier candidate is as long. Lengths
   * are JavaScript's `.length`, in UTF-16 code units.
   */
  ghost predicate IsFirstLongest(risks: seq<Risk>, selection: string, i: int) {
    && 0 <= i < |risks|
    && IsCandidate(risks[i], selection)
    && (forall j :: 0 <= j < |risks| && IsCandidate(risks[j], selection) ==> Utf16Length(risks[j].text) <= Utf16Length(risks[i].text))
    && (forall j :: 0 <= j < i && IsCandidate(risks[j], selection) ==> Utf16Length(risks[j].text) < Utf16Length(risks[i].text))
  }

  /**
   * The match left after scanning `risks` in order: a later candidate replaces the current one
   * only when its text is strictly longer.
   */
  function BestMatch(risks: seq<Risk>, selection: string): (m: Option<nat>)
    ensures m.Some? ==> m.value < |risks|
    decreases |risks|
  {
    if risks == [] then None
    else
      var n := |risks| - 1;
      var best := BestMatch(risks[..n], selection);
      var maxLen := if best.Some? then Utf16Length(risks[best.value].text) else 0;
      if IsCandidate(risks[n], selection) && Utf16Length(risks[n].text) > maxLen then Some(n) else best
  }

  /** There is no match exactly when no risk is a candidate; a match is the first longest candidate. */
  lemma {:induction false} BestMatchIsFirstLongest(risks: seq<Risk>, selection: string)
    ensures BestMatch(risks, selection).None? <==> forall j :: 0 <= j < |risks| ==> !IsCandidate(risks[j], selection)
    ensures BestMatch(risks, selection).Some? ==> IsFirstLongest(risks, selection, BestMatch(risks, selection).value)
  {
    if risks != [] {
      var n := |risks| - 1;
      var pre := risks[..n];
      BestMatchIsFirstLongest(pre, selection);
      assert forall j :: 0 <= j < n ==> pre[j] == risks[j];
    }
  }

  /** The two properties of `IsFirstLongest` leave room for one index only. */
  lemma FirstLongestUnique(risks: seq<Risk>, selection: string, i: int, j: int)
    requires IsFirstLongest(risks, selection, i) && IsFirstLongest(risks, selection, j)
    ensures i == j
  {
  }

  /** `BestMatch` is the one first longest candidate, and nothing else. */
  lemma BestMatchIff(risks: seq<Risk>, selection: string, i: int)
    ensures BestMatch(risks, selection) == Some(i) <==> IsFirstLongest(risks, selection, i)
  {
    BestMatchIsFirstLongest(risks, selection);
    if IsFirstLongest(risks, selection, i) {
      FirstLongestUnique(risks, selection, i, BestMatch(risks, selection).value);
    }
  }

  /** The `forEach` scan of `handleSelectionClick` that keeps the longest candidate in `match`. */
  method FindMatch(risks: seq<Risk>, selection: string) returns (m: Option<nat>)
    ensures m == BestMatch(risks, selection)
    ensures m.None? <==> forall j :: 0 <= j < |risks| ==> !IsCandidate(risks[j], selection)
    ensures m.Some? ==> IsFirstLongest(risks, selection, m.value)
  {
    m := None;
    var maxLen := 0;
    var i := 0;
    while i < |risks|
      invariant 0 <= i <= |risks|
      invariant m == BestMatch(risks[..i], selection)
      invariant maxLen == if m.Some? then Utf16Length(risks[m.value].text) else 0
    {
      var risk := risks[i];
      if risk.text != [] && selection != [] && (Includes(risk.text, selection) || Includes(selection, risk.text)) {
        if Utf16Length(risk.text) > maxLen {
          m := Some(i);
          maxLen := Utf16Length(risk.text);
        }
      }
      assert risks[..i + 1][..i] == risks[..i];
      i := i + 1;
    }
    assert risks[..|risks|] == risks;
    BestMatchIsFirstLongest(risks, selection);
  }

  /** Points for a severity, compared case-insensitively: High 10, Medium 5, Low 2, anything else 0. */
  function SeverityPoints(severity: string): (points: int)
    ensures points == 10 <==> SameLetters(severity, "high")
    ensures points == 5 <==> SameLetters(severity, "medium")
    ensures points == 2 <==> SameLetters(severity, "low")
    ensures points == 0 <==> !SameLetters(severity, "high") && !SameLetters(severity, "medium") && !SameLetters(severity, "low")
  {
    var level := ToLower(severity);
    ToLowerEqualsIff(severity, "high");
    ToLowerEqualsIff(severity, "medium");
    ToLowerEqualsIff(severity, "low");
    if level == "high" then 10 else if level == "medium" then 5 else if level == "low" then 2 else 0
  }

  /** Any mix of case scores the same; a missing or unknown severity scores nothing. */
  lemma SeverityExamples()
    ensures SeverityPoints("High") == 10 && SeverityPoints("HIGH") == 10
    ensures SeverityPoints("Medium") == 5 && SeverityPoints("low") == 2
    ensures SeverityPoints("") == 0 && SeverityPoints("Critical") == 0
  {
    assert SameLetters("High", "high") && SameLetters("HIGH", "high");
    assert SameLetters("Medium", "medium") && SameLetters("low", "low");
    assert !SameLetters("Critical", "high") && !SameLetters("Critical", "medium") && !SameLetters("Critical", "low");
  }

  /** What one scoring attempt on a non-empty selection came to. */
  datatype Outcome = NotDetected | NoMatch | Matched(index: nat)

  /** The outcome with the points, reason and severity passed on to the log. */
  datatype Verdict = Verdict(outcome: Outcome, points: int, reason: string, severity: string)

  const NotDetectedReason: string := "Please run 'Detect Risks with AI' first."
  const NoMatchReason: string := "No risk detected for this selection."

  function CorrectReason(r: Risk, severity: string): string {
    "Correct! " + r.kind + " (" + severity + ")"
  }

  /**
   * The scoring rule of `handleSelectionClick` for a trimmed selection: no risks loaded yet, no
   * candidate, or the first longest candidate, whose severity decides the points.
   */
  function Judge(risks: seq<Risk>, selection: string): (v: Verdict)
    ensures v.outcome == NotDetected <==> risks == []
    ensures v.outcome == NoMatch <==> risks != [] && forall j :: 0 <= j < |risks| ==> !IsCandidate(risks[j], selection)
    ensures v.outcome.Matched? ==>
              && IsFirstLongest(risks, selection, v.outcome.index)
              && v.severity == SeverityText(risks[v.outcome.index])
              && v.points == SeverityPoints(v.severity)
              && v.reason == CorrectReason(risks[v.outcome.index], v.severity)
    ensures !v.outcome.Matched? ==> v.points == 0 && v.severity == ""
    ensures v.outcome == NotDetected ==> v.reason == NotDetectedReason
    ensures v.outcome == NoMatch ==> v.reason == NoMatchReason
    ensures v.points in {0, 2, 5, 10}
  {
    BestMatchIsFirstLongest(risks, selection);
    if risks == [] then Verdict(NotDetected, 0, NotDetectedReason, "")
    else
      match BestMatch(risks, selection)
      case None => Verdict(NoMatch, 0, NoMatchReason, "")
      case Some(i) =>
        var severity := SeverityText(risks[i]);
        Verdict(Matched(i), SeverityPoints(severity), CorrectReason(risks[i], severity), severity)
  }

  /**
   * Selecting a risk's own text always matches some risk, one whose text is at least as long. It
   * matches that very risk when every other candidate is shorter; the condition cannot be
   * dropped: see `ExactTextCanScoreAnotherRisk`.
   */
  lemma ExactTextScores(risks: seq<Risk>, i: int)
    requires 0 <= i < |risks| && risks[i].text != []
    ensures var v := Judge(risks, risks[i].text);
            && v.outcome.Matched?
            && Utf16Length(risks[i].text) <= Utf16Length(risks[v.outcome.index].text)
    ensures (forall j :: 0 <= j < |risks| && j != i && IsCandidate(risks[j], risks[i].text) ==>
               Utf16Length(risks[j].text) < Utf16Length(risks[i].text)) ==>
            && Judge(risks, risks[i].text).outcome == Matched(i)
            && Judge(risks, risks[i].text).points == SeverityPoints(SeverityText(risks[i]))
  {
    var sel := risks[i].text;
    assert sel <= sel;
    assert IsCandidate(risks[i], sel);
    BestMatchIsFirstLongest(risks, sel);
    if forall j :: 0 <= j < |risks| && j != i && IsCandidate(risks[j], sel) ==> Utf16Length(risks[j].text) < Utf16Length(sel) {
      BestMatchIff(risks, sel, i);
    }
  }

  /** A longer risk that contains the selected text wins over the risk whose text was selected. */
  lemma ExactTextCanScoreAnotherRisk()
    ensures var risks := [Risk("Payment", "pay", "", Some("High")), Risk("Fees", "pay fees", "", Some("Low"))];
            Judge(risks, "pay").outcome == Matched(1) && Judge(risks, "pay").points == 2
  {
    var risks := [Risk("Payment", "pay", "", Some("High")), Risk("Fees", "pay fees", "", Some("Low"))];
    assert "pay" <= "pay" && "pay" <= "pay fees";
    var short, long := Utf16Length("pay"), Utf16Length("pay fees");
    assert short == 3 && long == 8;
    assert risks[0].text == "pay" && risks[1].text == "pay fees";
    assert IsFirstLongest(risks, "pay", 1) by {
      forall j | 0 <= j < |risks| ensures Utf16Length(risks[j].text) <= long {
        assert j == 0 || j == 1;
      }
    }
    BestMatchIff(risks, "pay", 1);
    assert SeverityText(risks[1]) == "Low";
    assert SeverityPoints("Low") == 2 by {
      assert SameLetters("Low", "low");
    }
  }

  /** Given risks with texts "A" and "ABC", the selection "AB" resolves to "ABC". */
  lemma LongestOverlapWins()
    ensures var risks := [Risk("T", "A", "", None), Risk("T", "ABC", "", None)];
            Judge(risks, "AB").outcome == Matched(1)
  {
    var risks := [Risk("T", "A", "", None), Risk("T", "ABC", "", None)];
    assert "A" <= "AB" && "AB" <= "ABC";
    var short, long := Utf16Length("A"), Utf16Length("ABC");
    assert short == 1 && long == 3;
    assert risks[0].text == "A" && risks[1].text == "ABC";
    assert IsFirstLongest(risks, "AB", 1) by {
      forall j | 0 <= j < |risks| ensures Utf16Length(risks[j].text) <= long {
        assert j == 0 || j == 1;
      }
    }
    BestMatchIff(risks, "AB", 1);
  }

  /**
   * A character outside the Basic Multilingual Plane counts twice: "a\U{1F600}" is as long as
   * "abc", so the earlier risk keeps the match for the selection "a".
   */
  lemma AstralCharacterCountsTwice()
    ensures var risks := [Risk("P", "a\U{1F600}", "", Some("High")), Risk("F", "abc", "", Some("Low"))];
            Judge(risks, "a").outcome == Matched(0) && Judge(risks, "a").points == 10
  {
    var risks := [Risk("P", "a\U{1F600}", "", Some("High")), Risk("F", "abc", "", Some("Low"))];
    assert "a" <= "a\U{1F600}" && "a" <= "abc";
    var astral, ascii := Utf16Length("a\U{1F600}"), Utf16Length("abc");
    assert astral == 3 && ascii == 3;
    assert risks[0].text == "a\U{1F600}" && risks[1].text == "abc";
    assert IsFirstLongest(risks, "a", 0) by {
      forall j | 0 <= j < |risks| ensures Utf16Length(risks[j].text) <= astral {
        assert j == 0 || j == 1;
      }
    }
    BestMatchIff(risks, "a", 0);
    assert SeverityText(risks[0]) == "High";
    assert SeverityPoints("High") == 10 by {
      assert SameLetters("High", "high");
    }
  }
}
