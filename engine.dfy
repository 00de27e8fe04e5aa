/** The tracker's state, which Program keeps in two static fields: the goal
    list and the player. Its operations are the ones the menu dispatches to:
    create a goal, record an event against the n-th goal, save, load. The
    console reads that feed them are parameters here. */
module Engine {
  import opened Text
  import opened Goals
  import opened Players
  import opened Codec

  /** The values of a list of goal objects, in list order. */
  function Values(gs: seq<Goal>): seq<GoalData>
    reads gs
  {
    seq(|gs|, i reads gs requires 0 <= i < |gs| => gs[i].Value())
  }

  /** No goal object appears twice in the list. */
  predicate Distinct(gs: seq<Goal>) {
    forall i, j :: 0 <= i < j < |gs| ==> gs[i] != gs[j]
  }

  /** An int read from the console, or a fallback when it does not parse. */
  function ParseOr(s: string, fallback: int): int {
    match ParseInt(s)
    case Some(v) => v
    case None => fallback
  }

  /** The goal CreateGoal builds from the answers to its prompts: type "1",
      "2" or "3" (trimmed), points 0, target 1 and bonus 0 when they do not
      parse, and no progress yet; any other type builds nothing. */
  function NewGoal(choice: string, name: string, description: string,
                   pointsText: string, targetText: string, bonusText: string): (g: Option<GoalData>)
    ensures g.Some? <==> Trim(choice, IsWhiteSpace) in ["1", "2", "3"]
    ensures g.Some? ==> (g.value.name == name && g.value.description == description
                         && g.value.points == ParseOr(pointsText, 0) && Count(g.value.progress) == 0)
    ensures g.Some? ==> (var kind := Trim(choice, IsWhiteSpace);
                         g.value.progress == (if kind == "1" then Simple(false)
                                              else if kind == "2" then Eternal(0)
                                              else Checklist(0, ParseOr(targetText, 1), ParseOr(bonusText, 0))))
  {
    var kind := Trim(choice, IsWhiteSpace);
    var points := ParseOr(pointsText, 0);
    if kind == "1" then Some(GoalData(name, description, points, Simple(false)))
    else if kind == "2" then Some(GoalData(name, description, points, Eternal(0)))
    else if kind == "3" then
      Some(GoalData(name, description, points, Checklist(0, ParseOr(targetText, 1), ParseOr(bonusText, 0))))
    else None
  }

  /** Every goal the prompts can build survives a save and a load, unless
      its name or description holds the delimiter: its numbers come from
      int.TryParse or the fallbacks, so they are all within int's range. */
  lemma CreatedGoalReloads(choice: string, name: string, description: string,
                           pointsText: string, targetText: string, bonusText: string)
    requires NoDelimiter(name) && NoDelimiter(description)
    ensures var g := NewGoal(choice, name, description, pointsText, targetText, bonusText);
            g.Some? ==> DecodeLine(Serialize(g.value)) == AddGoal(g.value)
  {
    var g := NewGoal(choice, name, description, pointsText, targetText, bonusText);
    if g.Some? {
      assert Storable(g.value);
      DecodeSerialize(g.value);
    }
  }

  /** `new SimpleGoal(...)`, `new EternalGoal(...)` or `new ChecklistGoal(...)`
      for a goal value. */
  method Construct(g: GoalData) returns (goal: Goal)
    ensures fresh(goal) && goal.Value() == g
  {
    var p := g.progress;
    if p.Simple? {
      goal := new Goal.SimpleGoal(g.name, g.description, g.points, p.completed);
    } else if p.Eternal? {
      goal := new Goal.EternalGoal(g.name, g.description, g.points, p.timesRecorded);
    } else {
      goal := new Goal.ChecklistGoal(g.name, g.description, g.points, p.target, p.bonus, p.timesCompleted);
    }
  }

  /** The result of the record-event menu entry. */
  datatype Outcome = Invalid | Cancelled | Recorded(index: int, earned: int)

  /** The player a Player line of score s rebuilds: a new Player given
      AddPoints(s). */
  ghost predicate LoadedPlayer(p: Player, s: int)
    reads p
  {
    p.Valid() && p.score == s && p.level == Max(1, LevelFor(s)) && p.badges == EarnedLabels(s)
    && p.notices == (if s == 0 then [] else LevelNotices(1, s) + ScanBadges({}, s, Thresholds).notices)
  }

  /** The Player line of LoadGoals: a new Player given AddPoints(score). */
  method RestorePlayer(score: int) returns (p: Player)
    ensures fresh(p) && LoadedPlayer(p, score)
  {
    p := new Player();
    p.AddPoints(score);
    if score == 0 {
      NoBadgeBelowFirstThreshold(0);
    }
  }

  class Tracker {
    var goals: seq<Goal>
    var player: Player

    ghost predicate Valid()
      reads this, player, goals
    {
      player.Valid() && Distinct(goals)
    }

    /** The empty list and a new player. */
    constructor ()
      ensures Valid() && goals == [] && fresh(player)
      ensures player.score == 0 && player.level == 1 && player.badges == {} && player.notices == []
    {
      goals := [];
      player := new Player();
    }

    /** CreateGoal: appends the goal built from the prompts' answers, or
        nothing for an unknown type. Existing goals and the player are left
        alone. */
    method CreateGoal(choice: string, name: string, description: string,
                      pointsText: string, targetText: string, bonusText: string) returns (created: bool)
      requires Valid()
      modifies this
      ensures Valid() && player == old(player)
      ensures created == NewGoal(choice, name, description, pointsText, targetText, bonusText).Some?
      ensures !created ==> goals == old(goals)
      ensures created ==> |goals| == |old(goals)| + 1 && goals[..|old(goals)|] == old(goals)
                          && fresh(goals[|old(goals)|])
                          && goals[|old(goals)|].Value()
                             == NewGoal(choice, name, description, pointsText, targetText, bonusText).value
    {
      var g := NewGoal(choice, name, description, pointsText, targetText, bonusText);
      if g.None? {
        return false;
      }
      var goal := Construct(g.value);
      goals := goals + [goal];
      created := true;
      assert goals[..|old(goals)|] == old(goals);
    }

    /** RecordEvent of the menu: a selection that does not parse or lies
        outside 0..|goals| is rejected, 0 cancels, and n records one event
        against the n-th goal. Only that goal changes, and its points go to
        the player only when positive, so the score never goes down. */
    method RecordEvent(selection: string) returns (outcome: Outcome)
      requires Valid()
      modifies goals, player
      ensures Valid()
      ensures outcome == Invalid <==>
                (ParseInt(selection).None? || ParseInt(selection).value < 0 || ParseInt(selection).value > |goals|)
      ensures outcome == Cancelled <==> ParseInt(selection) == Some(0)
      ensures outcome.Recorded? ==> ParseInt(selection) == Some(outcome.index) && 1 <= outcome.index <= |goals|
      ensures outcome.Recorded? ==>
                (var g := goals[outcome.index - 1];
                 var step := Record(old(g.progress), g.points);
                 g.progress == step.next && outcome.earned == step.earned)
      ensures forall j :: 0 <= j < |goals| && !(outcome.Recorded? && j == outcome.index - 1) ==>
                goals[j].progress == old(goals[j].progress)
      ensures outcome.Recorded? && outcome.earned > 0 ==>
                player.score == old(player.score) + outcome.earned
                && player.level == Max(old(player.level), LevelFor(player.score))
                && player.badges == old(player.badges) + EarnedLabels(player.score)
                && player.notices == old(player.notices) + LevelNotices(old(player.level), player.score)
                                     + ScanBadges(old(player.badges), player.score, Thresholds).notices
      ensures !(outcome.Recorded? && outcome.earned > 0) ==> unchanged(player)
      ensures player.score >= old(player.score) && player.level >= old(player.level)
      ensures old(player.badges) <= player.badges
    {
      var idx := ParseInt(selection);
      if idx.None? || idx.value < 0 || idx.value > |goals| {
        return Invalid;
      }
      if idx.value == 0 {
        return Cancelled;
      }
      var goal := goals[idx.value - 1];
      var earned := goal.RecordEvent();
      if earned > 0 {
        player.AddPoints(earned);
      }
      outcome := Recorded(idx.value, earned);
    }

    /** SaveGoals without the file: the player line, then each goal's line. */
    method Save() returns (lines: seq<string>)
      requires Valid()
      ensures lines == Encode(player.score, Values(goals))
    {
      lines := [PlayerLine(player.score)];
      for i := 0 to |goals|
        invariant lines == Encode(player.score, Values(goals)[..i])
      {
        assert Values(goals)[..i + 1][..i] == Values(goals)[..i];
        lines := lines + [Serialize(goals[i].Value())];
      }
      assert Values(goals)[..|goals|] == Values(goals);
    }

    /** One line's effect inside LoadGoals: a goal line appends a new goal,
        a Player line replaces the player, anything else does nothing. */
    method ApplyEntry(e: Entry)
      requires Valid()
      modifies this
      ensures Valid()
      ensures Values(goals) == Apply(Loaded(old(Values(goals)), None), e).goals
      ensures forall j :: 0 <= j < |old(goals)| ==> goals[j] == old(goals)[j]
      ensures |goals| >= |old(goals)| && forall j :: |old(goals)| <= j < |goals| ==> fresh(goals[j])
      ensures !e.SetScore? ==> player == old(player)
      ensures e.SetScore? ==> fresh(player) && LoadedPlayer(player, e.score)
    {
      if e.SetScore? {
        player := RestorePlayer(e.score);
      } else if e.AddGoal? {
        var goal := Construct(e.goal);
        assert Values(goals + [goal]) == Values(goals) + [goal.Value()];
        goals := goals + [goal];
      }
    }

    /** LoadGoals without the file: no file leaves everything as it was;
        otherwise the goal list is emptied and refilled with the goals of the
        lines in order, and each Player line replaces the player with a new
        one given its score. */
    method Load(file: Option<seq<string>>) returns (found: bool)
      requires Valid()
      modifies this
      ensures Valid()
      ensures found == file.Some?
      ensures !found ==> goals == old(goals) && player == old(player)
      ensures found ==> Values(goals) == DecodeLines(file.value).goals
                        && forall i :: 0 <= i < |goals| ==> fresh(goals[i])
      ensures found && DecodeLines(file.value).score.None? ==> player == old(player)
      ensures found && DecodeLines(file.value).score.Some? ==>
                fresh(player) && LoadedPlayer(player, DecodeLines(file.value).score.value)
    {
      if file.None? {
        return false;
      }
      var lines := file.value;
      goals := [];
      for i := 0 to |lines|
        invariant Valid()
        invariant Values(goals) == DecodeLines(lines[..i]).goals
        invariant forall j :: 0 <= j < |goals| ==> fresh(goals[j])
        invariant DecodeLines(lines[..i]).score.None? ==> player == old(player)
        invariant DecodeLines(lines[..i]).score.Some? ==>
                    fresh(player) && LoadedPlayer(player, DecodeLines(lines[..i]).score.value)
      {
        DecodeLinesStep(lines, i);
        ApplyEntry(DecodeLine(lines[i]));
      }
      assert lines[..|lines|] == lines;
      found := true;
    }
  }

  /** No badge is earned below the lowest threshold. */
  lemma NoBadgeBelowFirstThreshold(s: int)
    requires s < 500
    ensures EarnedLabels(s) == {}
  {
  }
}
