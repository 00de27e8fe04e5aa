/** The goal variants: SimpleGoal, EternalGoal and ChecklistGoal. Each goal
    has an immutable name, description and points value and a variant-specific
    progress state that only RecordEvent changes. */
module Goals {
  import opened Text

  /** The progress state of each variant, with the checklist's fixed target
      and bonus (set once in its constructor, never changed). */
  datatype Progress =
    | Simple(completed: bool)
    | Eternal(timesRecorded: int)
    | Checklist(timesCompleted: int, target: int, bonus: int)

  /** A goal as a value: what the save format stores. */
  datatype GoalData = GoalData(name: string, description: string, points: int, progress: Progress)

  /** The effect of recording one event: the new progress and the points earned. */
  datatype Step = Step(next: Progress, earned: int)

  /** The IsComplete property of each variant. */
  predicate IsComplete(p: Progress) {
    match p
    case Simple(completed) => completed
    case Eternal(_) => false
    case Checklist(timesCompleted, target, _) => timesCompleted >= target
  }

  /** The number of events the progress state has counted. */
  function Count(p: Progress): int {
    match p
    case Simple(completed) => if completed then 1 else 0
    case Eternal(timesRecorded) => timesRecorded
    case Checklist(timesCompleted, _, _) => timesCompleted
  }

  /** Same variant, and for a checklist the same target and bonus. */
  predicate SameShape(p: Progress, q: Progress) {
    match p
    case Simple(_) => q.Simple?
    case Eternal(_) => q.Eternal?
    case Checklist(_, target, bonus) => q.Checklist? && q.target == target && q.bonus == bonus
  }

  /** RecordEvent of each variant, for a goal worth `points` per event. A
      complete goal is left as it is and earns nothing; otherwise the event
      is counted once and the variant's configuration is kept. */
  function Record(p: Progress, points: int): (r: Step)
    ensures SameShape(p, r.next)
    ensures IsComplete(p) ==> r == Step(p, 0)
    ensures !IsComplete(p) ==> Count(r.next) == Count(p) + 1
  {
    match p
    case Simple(completed) =>
      if completed then Step(p, 0) else Step(Simple(true), points)
    case Eternal(timesRecorded) =>
      Step(Eternal(timesRecorded + 1), points)
    case Checklist(timesCompleted, target, bonus) =>
      if timesCompleted >= target then Step(p, 0)
      else
        var n := timesCompleted + 1;
        Step(Checklist(n, target, bonus), if n == target then points + bonus else points)
  }

  /** A goal is complete exactly when recording an event leaves it as it
      is: a completed simple goal, a checklist at or past its target, and
      never an eternal goal. */
  lemma CompleteIffInert(p: Progress, points: int)
    ensures IsComplete(p) <==> Record(p, points).next == p
  {
  }

  /** k events recorded one after another: the final progress and the sum of
      the points they earned. */
  function RecordMany(p: Progress, points: int, k: nat): Step
    decreases k
  {
    if k == 0 then Step(p, 0)
    else
      var first := Record(p, points);
      var rest := RecordMany(first.next, points, k - 1);
      Step(rest.next, first.earned + rest.earned)
  }

  /** Once a goal is complete, any number of further events changes nothing
      and earns nothing. */
  lemma {:induction false} CompleteGoalIsInert(p: Progress, points: int, k: nat)
    requires IsComplete(p)
    ensures RecordMany(p, points, k) == Step(p, 0)
    decreases k
  {
    if k > 0 {
      CompleteGoalIsInert(p, points, k - 1);
    }
  }

  /** A simple goal pays its points on the first event and never again. */
  lemma SimpleGoalPaysOnce(points: int, k: nat)
    requires k >= 1
    ensures Record(Simple(false), points) == Step(Simple(true), points)
    ensures RecordMany(Simple(false), points, k) == Step(Simple(true), points)
  {
    CompleteGoalIsInert(Simple(true), points, k - 1);
  }

  /** An eternal goal pays on every event, counts every event, and is never
      complete. */
  lemma {:induction false} EternalGoalNeverCompletes(n: int, points: int, k: nat)
    ensures RecordMany(Eternal(n), points, k) == Step(Eternal(n + k), points * k)
    ensures !IsComplete(RecordMany(Eternal(n), points, k).next)
    decreases k
  {
    if k > 0 {
      EternalGoalNeverCompletes(n + 1, points, k - 1);
      assert points + points * (k - 1) == points * k;
    }
  }

  /** Before the target is reached each checklist event pays exactly the
      per-event points and no bonus. */
  lemma {:induction false} ChecklistBeforeTarget(n: int, target: int, bonus: int, points: int, k: nat)
    requires n + k < target
    ensures RecordMany(Checklist(n, target, bonus), points, k) == Step(Checklist(n + k, target, bonus), points * k)
    decreases k
  {
    if k > 0 {
      ChecklistBeforeTarget(n + 1, target, bonus, points, k - 1);
      assert points + points * (k - 1) == points * k;
    }
  }

  /** From n events with n below the target, the remaining target - n events
      earn the per-event points each plus the bonus once, and complete the
      goal; every later event earns nothing. */
  lemma ChecklistPaysBonusOnce(n: int, target: int, bonus: int, points: int, later: nat)
    requires n < target
    ensures RecordMany(Checklist(n, target, bonus), points, target - n)
         == Step(Checklist(target, target, bonus), points * (target - n) + bonus)
    ensures IsComplete(Checklist(target, target, bonus))
    ensures RecordMany(Checklist(target, target, bonus), points, later) == Step(Checklist(target, target, bonus), 0)
  {
    var k := target - n;
    ChecklistBeforeTarget(n, target, bonus, points, k - 1);
    var before := RecordMany(Checklist(n, target, bonus), points, k - 1);
    RecordManySplit(Checklist(n, target, bonus), points, k - 1);
    assert Record(before.next, points) == Step(Checklist(target, target, bonus), points + bonus);
    assert points * (k - 1) + points == points * k;
    CompleteGoalIsInert(Checklist(target, target, bonus), points, later);
  }

  /** Recording k + 1 events is recording k and then one more. */
  lemma {:induction false} RecordManySplit(p: Progress, points: int, k: nat)
    ensures var before := RecordMany(p, points, k);
            var last := Record(before.next, points);
            RecordMany(p, points, k + 1) == Step(last.next, before.earned + last.earned)
    decreases k
  {
    if k > 0 {
      RecordManySplit(Record(p, points).next, points, k - 1);
    }
  }

  /** The checklist of the seeded "Temple visits" goal: nine visits earn 50
      each, the tenth earns 550 and completes it, 1000 points in all. */
  lemma TempleVisits()
    ensures RecordMany(Checklist(0, 10, 500), 50, 9) == Step(Checklist(9, 10, 500), 450)
    ensures Record(Checklist(9, 10, 500), 50) == Step(Checklist(10, 10, 500), 550)
    ensures RecordMany(Checklist(0, 10, 500), 50, 10) == Step(Checklist(10, 10, 500), 1000)
    ensures IsComplete(Checklist(10, 10, 500))
  {
    ChecklistBeforeTarget(0, 10, 500, 50, 9);
    ChecklistPaysBonusOnce(0, 10, 500, 50, 0);
  }

  /** GetStatus of each variant: "[X]" exactly for a completed simple goal,
      a closing "(Complete)" exactly for a complete checklist, and the
      "(Eternal)" marker on every eternal goal. */
  function Status(p: Progress): (s: string)
    ensures p.Simple? ==> (s == "[X]" <==> IsComplete(p))
    ensures p.Checklist? ==> |s| >= 10 && (s[|s| - 10..] == "(Complete)" <==> IsComplete(p))
    ensures p.Eternal? ==> |s| >= 9 && s[..9] == "(Eternal)"
  {
    match p
    case Simple(completed) => if completed then "[X]" else "[ ]"
    case Eternal(timesRecorded) => "(Eternal) Recorded " + IntToString(timesRecorded) + " times"
    case Checklist(timesCompleted, target, _) =>
      var head := "Completed " + IntToString(timesCompleted) + "/" + IntToString(target) + " ";
      if IsComplete(p) then head + "(Complete)"
      else
        assert head[|head| - 1] == ' ';
        head
  }

  /** A goal object: the base class's read-only Name, Description and Points
      and the subclass's mutable progress fields. */
  class Goal {
    const name: string
    const description: string
    const points: int
    var progress: Progress

    /** The goal's value: its fields as the save format stores them. */
    function Value(): GoalData
      reads this
    {
      GoalData(name, description, points, progress)
    }

    constructor SimpleGoal(name: string, description: string, points: int, completed: bool)
      ensures Value() == GoalData(name, description, points, Simple(completed))
    {
      this.name := name;
      this.description := description;
      this.points := points;
      this.progress := Simple(completed);
    }

    constructor EternalGoal(name: string, description: string, points: int, timesRecorded: int)
      ensures Value() == GoalData(name, description, points, Eternal(timesRecorded))
    {
      this.name := name;
      this.description := description;
      this.points := points;
      this.progress := Eternal(timesRecorded);
    }

    constructor ChecklistGoal(name: string, description: string, pointsPer: int,
                              target: int, bonus: int, timesCompleted: int)
      ensures Value() == GoalData(name, description, pointsPer, Checklist(timesCompleted, target, bonus))
    {
      this.name := name;
      this.description := description;
      this.points := pointsPer;
      this.progress := Checklist(timesCompleted, target, bonus);
    }

    /** Records one event in place and returns the points it earned. Name,
        description and points are constants and cannot change. */
    method RecordEvent() returns (earned: int)
      modifies this
      ensures progress == Record(old(progress), points).next
      ensures earned == Record(old(progress), points).earned
      ensures old(IsComplete(progress)) ==> progress == old(progress) && earned == 0
    {
      match progress
      case Simple(completed) =>
        if completed {
          return 0;
        }
        progress := Simple(true);
        earned := points;
      case Eternal(timesRecorded) =>
        progress := Eternal(timesRecorded + 1);
        earned := points;
      case Checklist(timesCompleted, target, bonus) =>
        if timesCompleted >= target {
          return 0;
        }
        progress := Checklist(timesCompleted + 1, target, bonus);
        earned := points;
        if timesCompleted + 1 == target {
          earned := earned + bonus;
        }
    }
  }
}
