/** Validation of the onboarding form, which builds the initial `players` object. */
module Onboarding {
  import opened Wrappers
  import opened Text
  import opened Badges
  import opened Players

  /** One row of the form: the typed name and the chosen avatar. */
  datatype PlayerInput = PlayerInput(name: string, avatar: string)

  /** The two reasons a submission is refused, each shown to the user as an alert. */
  datatype OnboardError = NoPlayers | DuplicateNames

  function Message(e: OnboardError): string {
    match e
    case NoPlayers => "Please enter at least one player name."
    case DuplicateNames => "Player names must be unique."
  }

  /** `filter(p => p.name.trim() !== "")`: the rows with a non-blank name, in form order. */
  function NonBlank(inputs: seq<PlayerInput>): (r: seq<PlayerInput>)
    ensures |r| <= |inputs|
    ensures forall p :: p in r <==> p in inputs && Trim(p.name) != []
  {
    if inputs == [] then []
    else (if Trim(inputs[0].name) != [] then [inputs[0]] else []) + NonBlank(inputs[1..])
  }

  /** `.slice(0, 3)` of the non-blank rows: the rows that become players. */
  function Roster(inputs: seq<PlayerInput>): (r: seq<PlayerInput>)
    ensures |r| <= 3 && r <= NonBlank(inputs)
    ensures |r| == 3 || r == NonBlank(inputs)
  {
    var f := NonBlank(inputs);
    if |f| <= 3 then f else f[..3]
  }

  /** `filtered.map(p => p.name.trim())`. */
  function Names(roster: seq<PlayerInput>): (names: seq<string>)
    ensures |names| == |roster|
  {
    seq(|roster|, i requires 0 <= i < |roster| => Trim(roster[i].name))
  }

  /** `new Set(names).size !== names.length`. */
  predicate HasDuplicates(names: seq<string>) {
    |set n | n in names| != |names|
  }

  ghost predicate PairwiseDistinct(names: seq<string>) {
    forall i, j :: 0 <= i < j < |names| ==> names[i] != names[j]
  }

  lemma {:induction false} DistinctSetSize(names: seq<string>)
    ensures |set n | n in names| <= |names|
    ensures |set n | n in names| == |names| <==> PairwiseDistinct(names)
  {
    if names != [] {
      var rest := names[1..];
      DistinctSetSize(rest);
      assert names == [names[0]] + rest;
      assert (set n | n in names) == {names[0]} + (set n | n in rest);
      if names[0] in rest {
        assert (set n | n in names) == (set n | n in rest);
        var j :| 0 <= j < |rest| && rest[j] == names[0];
        assert names[0] == names[j + 1];
      } else {
        if PairwiseDistinct(rest) {
          forall i, j | 0 <= i < j < |names| ensures names[i] != names[j] {
            if i > 0 {
              assert names[i] == rest[i - 1] && names[j] == rest[j - 1];
            } else {
              assert names[j] == rest[j - 1];
            }
          }
        } else {
          var i, j :| 0 <= i < j < |rest| && rest[i] == rest[j];
          assert names[i + 1] == names[j + 1];
        }
      }
    }
  }

  /** No two rows of `roster` have the same trimmed name. */
  ghost predicate DistinctNames(roster: seq<PlayerInput>) {
    forall i, j :: 0 <= i < j < |roster| ==> Trim(roster[i].name) != Trim(roster[j].name)
  }

  lemma DistinctNamesIff(roster: seq<PlayerInput>)
    ensures PairwiseDistinct(Names(roster)) <==> DistinctNames(roster)
  {
    var names := Names(roster);
    assert forall i :: 0 <= i < |roster| ==> names[i] == Trim(roster[i].name);
  }

  /**
   * The one key a plain object literal does not store as its own property: assigning to
   * `obj["__proto__"]` sets the object's prototype instead, so `Object.keys` and `Object.entries`
   * never list it.
   */
  const ProtoKey: string := "__proto__"

  /** The chosen avatar of each kept row, in form order. */
  function Avatars(roster: seq<PlayerInput>): (avatars: seq<string>)
    ensures |avatars| == |roster| && forall i :: 0 <= i < |roster| ==> avatars[i] == roster[i].avatar
  {
    seq(|roster|, i requires 0 <= i < |roster| => roster[i].avatar)
  }

  /**
   * The `forEach` that fills `newPlayers`: the row with trimmed name `names[i]` and avatar
   * `avatars[i]` becomes a player with score 0 and no badges; a row named `ProtoKey` adds no key.
   */
  function BuildPlayers(names: seq<string>, avatars: seq<string>): map<string, Player>
    requires |names| == |avatars|
  {
    if names == [] then map[]
    else
      var n := |names| - 1;
      var rest := BuildPlayers(names[..n], avatars[..n]);
      if names[n] == ProtoKey then rest else rest[names[n] := Player(0, avatars[n], [])]
  }

  /** The keys are exactly the names other than `ProtoKey`. */
  lemma {:induction false} BuildPlayersKeys(names: seq<string>, avatars: seq<string>)
    requires |names| == |avatars|
    ensures forall k :: k in BuildPlayers(names, avatars) <==> k != ProtoKey && k in names
  {
    if names != [] {
      var n := |names| - 1;
      BuildPlayersKeys(names[..n], avatars[..n]);
      assert names == names[..n] + [names[n]];
    }
  }

  /** With distinct names, each row not named `ProtoKey` gives a player with score 0, no badges and its avatar. */
  lemma {:induction false} BuildPlayersValues(names: seq<string>, avatars: seq<string>)
    requires |names| == |avatars| && PairwiseDistinct(names)
    ensures forall i :: 0 <= i < |names| && names[i] != ProtoKey ==>
              names[i] in BuildPlayers(names, avatars) && BuildPlayers(names, avatars)[names[i]] == Player(0, avatars[i], [])
  {
    BuildPlayersKeys(names, avatars);
    if names != [] {
      var n := |names| - 1;
      var pre, preAvatars := names[..n], avatars[..n];
      assert PairwiseDistinct(pre) by {
        forall i, j | 0 <= i < j < |pre| ensures pre[i] != pre[j] {
          assert pre[i] == names[i] && pre[j] == names[j];
        }
      }
      BuildPlayersValues(pre, preAvatars);
      forall i | 0 <= i < |names| && names[i] != ProtoKey
        ensures names[i] in BuildPlayers(names, avatars) && BuildPlayers(names, avatars)[names[i]] == Player(0, avatars[i], [])
      {
        if i < n {
          assert pre[i] == names[i] && preAvatars[i] == avatars[i];
        }
      }
    }
  }

  /** With distinct names, every row adds one player, except a row named `ProtoKey`. */
  lemma BuildPlayersSize(names: seq<string>, avatars: seq<string>)
    requires |names| == |avatars| && PairwiseDistinct(names)
    ensures |BuildPlayers(names, avatars)| == |names| - (if ProtoKey in names then 1 else 0)
  {
    var m := BuildPlayers(names, avatars);
    var all := set n | n in names;
    BuildPlayersKeys(names, avatars);
    DistinctSetSize(names);
    assert m.Keys == all - {ProtoKey};
    if ProtoKey in names {
      assert all == (all - {ProtoKey}) + {ProtoKey};
    }
  }

  /**
   * `handleOnboardingSubmit` without its effects: the new `players` object, or the alert that
   * refuses the submission.
   */
  function Onboard(inputs: seq<PlayerInput>): (r: Result<map<string, Player>, OnboardError>)
  {
    var roster := Roster(inputs);
    if roster == [] then Failure(NoPlayers)
    else if HasDuplicates(Names(roster)) then Failure(DuplicateNames)
    else Success(BuildPlayers(Names(roster), Avatars(roster)))
  }

  /** Only a form whose every name is blank is refused for having no players. */
  lemma RosterEmptyIff(inputs: seq<PlayerInput>)
    ensures Roster(inputs) == [] <==> forall i :: 0 <= i < |inputs| ==> AllSpace(inputs[i].name)
  {
    if Roster(inputs) == [] {
      forall i | 0 <= i < |inputs| ensures AllSpace(inputs[i].name) {
        assert inputs[i] !in NonBlank(inputs);
        TrimEmptyIff(inputs[i].name);
      }
    } else {
      var p := Roster(inputs)[0];
      assert p in NonBlank(inputs);
      var i :| 0 <= i < |inputs| && inputs[i] == p;
      TrimEmptyIff(p.name);
    }
  }

  /**
   * A submission succeeds exactly when some name is non-blank and the kept (at most three)
   * trimmed names are pairwise distinct.
   */
  lemma OnboardSucceedsIff(inputs: seq<PlayerInput>)
    ensures Onboard(inputs) == Failure(NoPlayers) <==> forall i :: 0 <= i < |inputs| ==> AllSpace(inputs[i].name)
    ensures Onboard(inputs).Success? <==> Roster(inputs) != [] && DistinctNames(Roster(inputs))
  {
    RosterEmptyIff(inputs);
    DistinctSetSize(Names(Roster(inputs)));
    DistinctNamesIff(Roster(inputs));
  }

  /** Every kept name is non-empty and already trimmed. */
  lemma RosterNamesTrimmed(inputs: seq<PlayerInput>)
    ensures forall k :: k in Names(Roster(inputs)) ==> k != [] && Trim(k) == k
  {
    var roster := Roster(inputs);
    forall k | k in Names(roster) ensures k != [] && Trim(k) == k {
      var i :| 0 <= i < |roster| && Names(roster)[i] == k;
      assert roster[i] in NonBlank(inputs);
      TrimIdempotent(roster[i].name);
    }
  }

  /** Every new player has score 0 and no badges, which are the badges of score 0. */
  lemma {:induction false} BuildPlayersWellFormed(names: seq<string>, avatars: seq<string>)
    requires |names| == |avatars|
    ensures AllWellFormed(BuildPlayers(names, avatars))
  {
    if names != [] {
      var n := |names| - 1;
      BuildPlayersWellFormed(names[..n], avatars[..n]);
      EarnedBadgesValue(0);
    }
  }

  /**
   * An accepted submission yields one player per kept row whose trimmed name is not `ProtoKey`,
   * keyed by that non-empty name, with score 0, no badges and its chosen avatar: at most three
   * players, and one fewer than the kept rows when a row is named `ProtoKey`.
   */
  lemma OnboardPlayers(inputs: seq<PlayerInput>)
    requires Onboard(inputs).Success?
    ensures var m, roster := Onboard(inputs).value, Roster(inputs);
            var names := Names(roster);
            && 1 <= |roster| <= 3
            && |m| == |roster| - (if ProtoKey in names then 1 else 0)
            && (forall k :: k in m <==> k != ProtoKey && k in names)
            && (forall i :: 0 <= i < |roster| && names[i] != ProtoKey ==> names[i] in m && m[names[i]] == Player(0, roster[i].avatar, []))
            && (forall k :: k in m ==> k != [] && Trim(k) == k)
            && AllWellFormed(m)
  {
    var roster := Roster(inputs);
    var names, avatars := Names(roster), Avatars(roster);
    var m := BuildPlayers(names, avatars);
    OnboardSucceedsIff(inputs);
    DistinctSetSize(names);
    BuildPlayersKeys(names, avatars);
    BuildPlayersValues(names, avatars);
    BuildPlayersSize(names, avatars);
    RosterNamesTrimmed(inputs);
    BuildPlayersWellFormed(names, avatars);
  }

  /** A form whose only name is `ProtoKey` is accepted and starts a game with no players. */
  lemma ProtoOnlyFormHasNoPlayers()
    ensures Onboard([PlayerInput(ProtoKey, "a")]) == Success(map[])
  {
    var inputs := [PlayerInput(ProtoKey, "a")];
    assert TrimStart(ProtoKey) == ProtoKey;
    assert TrimEnd(ProtoKey) == ProtoKey;
    assert NonBlank(inputs) == inputs;
    assert Roster(inputs) == inputs;
    assert Names(inputs) == [ProtoKey];
    assert (set n | n in Names(inputs)) == {ProtoKey};
    assert !HasDuplicates(Names(inputs));
    assert Avatars(inputs) == ["a"];
    assert BuildPlayers([ProtoKey], ["a"]) == map[];
  }
}
