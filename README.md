# ContractRiskBot game logic in Dafny

ContractRiskBot is a single-page contract-review game. A language-model service lists the
risky clauses of an uploaded contract, each with a type, its exact text, an explanation and a
severity. Up to three players then highlight text in the contract and press their button. A
selection that overlaps a listed risk earns points by that risk's severity, scores cross badge
milestones, every attempt goes into an events log, and the leaderboard shows the players by
score until the answers are revealed and the winners are named.

This project models the game state and scoring rules of `App.jsx` and proves their properties:

- `Text`: the JavaScript `trim`, `includes`, `toLowerCase` and `.length` that the rules use.
  `.length` counts UTF-16 code units, two for each character outside the Basic Multilingual Plane.
- `Scoring`: the risk record and the match scan of the selection handler. A risk is a candidate
  when its text contains the selection or lies inside it. The match is the first candidate of
  greatest text `.length`. Its severity, compared without regard to case, gives 10, 5, 2 or 0 points.
- `Badges`: the milestones 50, 100 and 150 and the badge loop of `addPoints`.
- `Players`: the player record and the `players` update of `addPoints`.
- `Onboarding`: the validation of the setup form that builds the players, including the one
  name, `__proto__`, that a plain JavaScript object does not store as a key.
- `Leaderboard`: the stable descending sort, the progress-bar ceiling and the winners.
- `App`: the component state as a class `Game`. It has one method per event handler:
  onboarding, detection (its effect on the state), scoring a selection, listing the leaderboard
  and revealing the answers.

Inputs from outside the model are parameters: the browser selection as raw text, the clock
as an uninterpreted time string, and the detection reply as a `Reply` value.

## Model

| member | source | states |
|---|---|---|
| `Text.Trim` | App.jsx:146-147 | `s.trim()`; its meaning is stated by `Text.TrimSpec`, `Text.TrimEmptyIff` and `Text.TrimIdempotent` |
| `Text.TrimStartSpec` | App.jsx:147 | trimming the start keeps the suffix that begins at the first non-space; all it drops is white space |
| `Text.TrimEndSpec` | App.jsx:147 | trimming the end keeps the prefix that ends at the last non-space; all it drops is white space |
| `Text.TrimSpec` | App.jsx:147 | `trim` gives the slice between a leading and a trailing run of white space, and neither end of the result is white space |
| `Text.TrimEmptyIff` | App.jsx:147-148 | a selection trims to the empty string exactly when it is all white space |
| `Text.TrimIdempotent` | App.jsx:196-204 | trimming a trimmed name changes nothing |
| `Text.Includes` | App.jsx:157 | `s.includes(sub)`; its meaning is stated by `Text.IncludesIff` |
| `Text.IncludesIff` | App.jsx:157 | `s.includes(sub)` holds exactly when `sub` starts at some position of `s` |
| `Text.ToLower` | App.jsx:166-168 | lower-casing keeps the length and lowers each ASCII letter in its place |
| `Text.ToLowerEqualsIff` | App.jsx:166-168 | `s.toLowerCase() === word` holds exactly when `s` spells `word` in any mix of case |
| `Text.Utf16Length` | App.jsx:158-160 | `s.length`, one unit per character of the Basic Multilingual Plane and two per character outside it; its meaning is stated by `Text.Utf16LengthBounds` and `Text.Utf16LengthConcat` |
| `Text.Utf16LengthBounds` | App.jsx:158-160 | `.length` lies between the number of characters and twice that, and equals the number of characters exactly when no character lies outside the Basic Multilingual Plane |
| `Text.Utf16LengthConcat` | App.jsx:158-160 | `.length` of a concatenation is the sum of the lengths |
| `Scoring.SeverityText` | App.jsx:165 | the matched risk's severity, or the empty text when it has none, which `Scoring.SeverityPoints` scores 0 |
| `Scoring.IsCandidate` | App.jsx:157 | the filter of the scan: both texts non-empty and one includes the other; `Text.IncludesIff` gives `includes` its meaning |
| `Scoring.BestMatch` | App.jsx:154-163 | the kept match is an index into the risk list; which index it is, is stated by `Scoring.BestMatchIsFirstLongest` |
| `Scoring.BestMatchIsFirstLongest` | App.jsx:152-163 | no match exactly when no risk is a candidate; a match is a candidate of greatest `.length` in UTF-16 code units with no earlier candidate as long |
| `Scoring.FirstLongestUnique` | App.jsx:158-161 | because the length test is strict, only one index is the first longest candidate |
| `Scoring.BestMatchIff` | App.jsx:152-163 | the scan's result is `Some(i)` exactly when risk `i` is the first candidate of greatest UTF-16 `.length` |
| `Scoring.FindMatch` | App.jsx:154-163 | the `forEach` loop with `match` and `maxLen` returns the first longest candidate, or none when there is no candidate |
| `Scoring.SeverityPoints` | App.jsx:165-168 | a case-insensitive "high" gives 10, "medium" 5 and "low" 2; any other text gives 0 |
| `Scoring.SeverityExamples` | App.jsx:165-168 | "High" and "HIGH" give 10, "Medium" 5, "low" 2, a missing or unknown severity 0 |
| `Scoring.CorrectReason` | App.jsx:169 | the reason `Correct! <type> (<severity>)`, used by `Scoring.Judge` for a match |
| `Scoring.Judge` | App.jsx:149-177 | with no risks loaded, "not detected" and 0 points; with no candidate, "no match" and 0 points; otherwise the first longest candidate, its severity, its points and a "Correct!" reason |
| `Scoring.ExactTextScores` | App.jsx:156-169 | selecting a risk's own non-empty text always matches a risk whose text is at least as long, and matches that very risk, with its points, when every other candidate is shorter |
| `Scoring.ExactTextCanScoreAnotherRisk` | App.jsx:156-169 | selecting "pay" scores the longer Low risk "pay fees" (2 points) before the High risk "pay" |
| `Scoring.LongestOverlapWins` | App.jsx:156-163 | with risk texts "A" and "ABC", the selection "AB" matches "ABC" |
| `Scoring.AstralCharacterCountsTwice` | App.jsx:156-169 | "a" followed by an emoji is as long as "abc", so for the selection "a" the earlier High risk keeps the match and gives 10 points |
| `Badges.UnearnedMembers` | App.jsx:97-101 | a milestone is pushed exactly when the score reaches it and it is not held yet |
| `Badges.UnearnedNoDuplicates` | App.jsx:97-101 | the pushed milestones contain no duplicate |
| `Badges.BadgesAfter` | App.jsx:96-101 | the badges after an award: the old ones, then each milestone reached and not held; its meaning is stated by `Badges.BadgesAfterProperties` |
| `Badges.BadgesAfterProperties` | App.jsx:96-101 | an award keeps the old badges in front, holds every milestone up to the new score, adds nothing but milestones, and adds no duplicate |
| `Badges.UnearnedMilestones` | App.jsx:12 | the three milestones 50, 100 and 150 each in turn, written out |
| `Badges.EarnedBadgesValue` | App.jsx:12 | the badges a score has reached are the milestones up to it, smallest first |
| `Badges.BadgesAfterEarned` | App.jsx:95-101 | starting from the badges of the old score, an award to a higher score leaves exactly the badges of the new score |
| `Badges.MergeBadges` | App.jsx:96-101 | the badge loop computes the old badges followed by the newly reached milestones not held yet |
| `Players.Credit` | App.jsx:93-106 | with no positive points the players are unchanged; otherwise only the named player gains the points and keeps its avatar and old badges, no other player changes, and the badge invariant is kept |
| `Onboarding.Message` | App.jsx:191-199 | the alert text of each refusal, returned by `App.Game.SubmitOnboarding` |
| `Onboarding.NonBlank` | App.jsx:190 | the kept rows are exactly those whose trimmed name is non-empty |
| `Onboarding.Roster` | App.jsx:190 | `.slice(0, 3)` of the non-blank rows: a prefix of them, all of them when there are at most three, otherwise the first three |
| `Onboarding.Names` | App.jsx:196 | one trimmed name per kept row |
| `Onboarding.HasDuplicates` | App.jsx:197 | `new Set(names).size !== names.length`; `Onboarding.DistinctSetSize` proves it holds exactly when two names are equal |
| `Onboarding.DistinctSetSize` | App.jsx:197 | the set of names has as many elements as the list exactly when the names are pairwise distinct |
| `Onboarding.DistinctNamesIff` | App.jsx:196-197 | the mapped names are distinct exactly when the rows' trimmed names are |
| `Onboarding.Avatars` | App.jsx:204 | the avatar of each kept row, in form order |
| `Onboarding.BuildPlayers` | App.jsx:202-205 | the `forEach` that fills `newPlayers`; its keys, size and values are stated by the three lemmas below |
| `Onboarding.BuildPlayersKeys` | App.jsx:202-205 | the new players are keyed by exactly the trimmed names other than `__proto__` |
| `Onboarding.BuildPlayersValues` | App.jsx:202-205 | with distinct names, each row not named `__proto__` gives a player with score 0, no badges and its chosen avatar |
| `Onboarding.BuildPlayersSize` | App.jsx:202-205 | with distinct names there is one player per row, one fewer when a row is named `__proto__` |
| `Onboarding.BuildPlayersWellFormed` | App.jsx:204 | every new player has a non-negative score and exactly the badges of that score |
| `Onboarding.RosterNamesTrimmed` | App.jsx:190-196 | every kept name is non-empty and already trimmed |
| `Onboarding.Onboard` | App.jsx:187-205 | the submit handler without its effects: refused for no players, refused for duplicates, or the new players; its meaning is stated by `Onboarding.OnboardSucceedsIff` and `Onboarding.OnboardPlayers` |
| `Onboarding.RosterEmptyIff` | App.jsx:190-191 | no player remains exactly when every name is blank |
| `Onboarding.OnboardSucceedsIff` | App.jsx:190-200 | refused for no players exactly when every name is blank; accepted exactly when some name is non-blank and the kept names are distinct |
| `Onboarding.OnboardPlayers` | App.jsx:190-206 | an accepted form keeps one to three rows and gives one player per kept row not named `__proto__`, keyed by its trimmed non-empty name, with score 0, no badges and its avatar |
| `Onboarding.ProtoOnlyFormHasNoPlayers` | App.jsx:190-206 | a form whose only name is `__proto__` is accepted and starts a game with no players |
| `Leaderboard.SortByScore` | App.jsx:183 | `.sort((a, b) => b[1].score - a[1].score)`; its meaning is stated by `Leaderboard.SortByScorePermutes`, `Leaderboard.SortByScoreOrdered` and `Leaderboard.SortByScoreStable` |
| `Leaderboard.InsertPermutes` | App.jsx:183 | inserting an entry adds exactly that entry |
| `Leaderboard.InsertOrdered` | App.jsx:183 | inserting into a descending list keeps it descending |
| `Leaderboard.InsertStable` | App.jsx:183 | the inserted entry goes before the entries with its score |
| `Leaderboard.SortByScorePermutes` | App.jsx:183 | the sorted leaderboard is a permutation of the entries |
| `Leaderboard.SortByScoreOrdered` | App.jsx:183 | the leaderboard is in non-increasing score order |
| `Leaderboard.SortByScoreStable` | App.jsx:183 | entries with equal scores keep their relative order |
| `Leaderboard.ListsPermutation` | App.jsx:183 | a permutation of a listing of the players is again a listing of each player exactly once |
| `Leaderboard.MaxScore` | App.jsx:184 | the ceiling is at least 100 and every score, and it is 100 or some score |
| `Leaderboard.TopScore` | App.jsx:309 | the maximum of at least one score is one of the scores and bounds them all |
| `Leaderboard.NamesWithScore` | App.jsx:310-312 | the names kept by the filter are exactly those of entries with the given score |
| `Leaderboard.Winners` | App.jsx:308-312 | the names of the entries with the top score; its meaning is stated by `Leaderboard.WinnersAreTop` |
| `Leaderboard.WinnersAreTop` | App.jsx:308-312 | the winners are exactly the players nobody outscores; with no players there is no winner, otherwise at least one |
| `Leaderboard.TieGivesSeveralWinners` | App.jsx:308-312 | with X and Y at 10 and Z at 5, the winners are X and Y |
| `App.Game.Valid` | App.jsx:92-106 | the game invariant: every player has a non-negative score and exactly the badges that score has reached |
| `App.Game.constructor` | App.jsx:17-32 | the game starts in onboarding with no players, no log entries, no risks and no winner |
| `App.Game.SubmitOnboarding` | App.jsx:187-208 | an accepted form replaces the players and ends onboarding; a refused one returns the alert text and changes nothing |
| `App.Game.AddPoints` | App.jsx:92-119 | the players change exactly as `Credit` says, and exactly one entry with the given player, points, reason, selection, severity and time is appended |
| `App.Game.SelectionClick` | App.jsx:146-180 | an empty trimmed selection changes nothing; otherwise the verdict on the trimmed selection is credited to the player and exactly one entry is logged |
| `App.Game.DetectRisks` | App.jsx:36-87 | a missing key or document only sets its message; otherwise the risks become the parsed list, or empty on any failure, with the matching message |
| `App.Game.Entries` | App.jsx:183 | every player is listed exactly once, with its record |
| `App.Game.Leaders` | App.jsx:183-184 | every player appears once, highest score first, and the ceiling is at least 100, bounds every score and is 100 or some score |
| `App.Game.RevealAnswers` | App.jsx:305-321 | the risks are shown; with players, the winners are exactly the players nobody outscores; without players the winner is left as it was |

Every method of `App.Game` that changes state also keeps `Valid`: every player has a
non-negative score and exactly the badges that score has reached.

## Behaviour of the code worth knowing

- Detection clears the risk list before it sends the request (App.jsx:47). So a failed or
  unparsable reply leaves the game with no risks, not with the previous ones. `DetectRisks`
  states this.
- A parse failure sets one message (App.jsx:78), and the same run then replaces it with "No
  risks detected or could not parse AI response." (App.jsx:82), so the first message is never
  visible. `DetectRisks` keeps only the final message.
- Selecting a risk's exact text does not always score that risk. A longer risk that contains
  the selection wins the match (`ExactTextCanScoreAnotherRisk`).
- Any non-empty piece of a risk's text, down to a single letter, is a candidate and scores.
- A matched risk with an unknown severity gives 0 points but a "Correct!" reason.
- When all players have the same score, for example 0, every player is a winner.
- Text lengths are JavaScript's `.length`, so an emoji or another character outside the Basic
  Multilingual Plane counts twice when the longest candidate is chosen
  (`AstralCharacterCountsTwice`).
- A player named `__proto__` passes both checks of the form but never becomes a key of the
  players object, so it gets no button, no leaderboard row and cannot win. A form with only that
  name starts a game with no players (`ProtoOnlyFormHasNoPlayers`).

## Left out

- `handleDetectRisks` (App.jsx:36-87): the prompt, the HTTPS request, the regular expression
  and `JSON.parse` are network I/O and library calls. The model only takes their outcome as a
  `Reply`. It assumes the parsed array holds risk records with string fields.
- The in-flight flag `aiLoading` and the disabled button (App.jsx:28, 46, 86, 271) are
  asynchronous UI concurrency.
- `window.getSelection()` and `removeAllRanges()` are browser calls. The selection is a string
  parameter. The `alert` calls are returned as `ClickOutcome` or `OnboardError` values.
- `new Date().toLocaleTimeString()` reads a clock and formats by locale. It is the `time`
  parameter.
- `handleFileUpload` and `handlePaste` (App.jsx:128-143) are FileReader I/O and text binding.
  The document text is a parameter of `DetectRisks`. The document name is not modelled.
- The form rows' state and their `onChange` bindings (App.jsx:18-22, 224-237) are not
  modelled: the submitted rows are the parameter of `SubmitOnboarding`. The 16-character
  `maxLength` of the name field lives in the HTML input, so `Onboard` accepts names of any length.
- Presentation is not modelled: the log scrolling (App.jsx:121-125), confetti,
  framer-motion animation, the bar widths `score/maxScore` as a floating-point percentage, the
  list of revealed risks, and all JSX. Avatar.jsx and main.jsx only render, so they are not part
  of this model.
- `Text.Utf16Length`: a Dafny string holds Unicode scalar values, so a JavaScript string with
  an unpaired surrogate, which counts one unit, has no counterpart in the model.
- `Text.ToLower` lowers ASCII letters only. Full Unicode lower-casing gives "high", "medium" or
  "low" from exactly the same strings, so the points do not change.
- `App.Game.Entries`: the engine lists integer-like keys first, in numeric order, and then the
  other keys in insertion order. The model leaves the order open. Stability is therefore
  proved only for `SortByScore` on a given listing (`SortByScoreStable`).
- Scores are unbounded integers. The source's floating-point numbers are exact for the small
  integer sums the game produces.
- A risk's `type` is named `kind`, because `type` is a Dafny keyword. A missing `text` is the
  empty string, which is also falsy in JavaScript. A missing `type` becomes the text
  "undefined" in the reason in JavaScript; the model has no such case.
