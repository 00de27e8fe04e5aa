/** The save format: one pipe-delimited line per record, written by
    GetStringRepresentation and the "Player|<score>" line, read back line by
    line by LoadGoals. Fields are not escaped. */
module Codec {
  import opened Text
  import opened Goals

  const PlayerTag: string := "Player"
  const SimpleTag: string := "Simple"
  const EternalTag: string := "Eternal"
  const ChecklistTag: string := "Checklist"

  /** The fields of a goal's line, tag first, in the order each variant
      writes them. */
  function Fields(g: GoalData): seq<string> {
    match g.progress
    case Simple(completed) =>
      [SimpleTag, g.name, g.description, IntToString(g.points), BoolToString(completed)]
    case Eternal(timesRecorded) =>
      [EternalTag, g.name, g.description, IntToString(g.points), IntToString(timesRecorded)]
    case Checklist(timesCompleted, target, bonus) =>
      [ChecklistTag, g.name, g.description, IntToString(g.points),
       IntToString(target), IntToString(bonus), IntToString(timesCompleted)]
  }

  /** GetStringRepresentation of each variant. */
  function Serialize(g: GoalData): string {
    Join(Fields(g))
  }

  /** The first saved line, holding the player's score. */
  function PlayerLine(score: int): string {
    Join([PlayerTag, IntToString(score)])
  }

  /** The lines SaveGoals writes: the player line, then one line per goal in
      list order. */
  function Encode(score: int, goals: seq<GoalData>): (lines: seq<string>)
    ensures |lines| == |goals| + 1
    decreases |goals|
  {
    if goals == [] then [PlayerLine(score)]
    else Encode(score, goals[..|goals| - 1]) + [Serialize(goals[|goals| - 1])]
  }

  /** What one loaded line asks for. */
  datatype Entry = Skip | SetScore(score: int) | AddGoal(goal: GoalData)

  /** The number of fields a line of each tag needs at least. */
  function Arity(tag: string): nat {
    if tag == PlayerTag then 2
    else if tag == SimpleTag || tag == EternalTag then 5
    else if tag == ChecklistTag then 7
    else 0
  }

  predicate IsTag(tag: string) {
    tag == PlayerTag || tag == SimpleTag || tag == EternalTag || tag == ChecklistTag
  }

  /** The switch on the tag inside LoadGoals, over the split fields. */
  function DecodeFields(parts: seq<string>): Entry
    requires |parts| >= 1
  {
    var tag := parts[0];
    if |parts| < Arity(tag) then Skip
    else if tag == PlayerTag then
      var score := ParseInt(parts[1]);
      if score.Some? then SetScore(score.value) else Skip
    else if tag == SimpleTag then
      var points, completed := ParseInt(parts[3]), ParseBool(parts[4]);
      if points.Some? && completed.Some?
      then AddGoal(GoalData(parts[1], parts[2], points.value, Simple(completed.value)))
      else Skip
    else if tag == EternalTag then
      var points, times := ParseInt(parts[3]), ParseInt(parts[4]);
      if points.Some? && times.Some?
      then AddGoal(GoalData(parts[1], parts[2], points.value, Eternal(times.value)))
      else Skip
    else if tag == ChecklistTag then
      var points, target, bonus, times := ParseInt(parts[3]), ParseInt(parts[4]), ParseInt(parts[5]), ParseInt(parts[6]);
      if points.Some? && target.Some? && bonus.Some? && times.Some?
      then AddGoal(GoalData(parts[1], parts[2], points.value, Checklist(times.value, target.value, bonus.value)))
      else Skip
    else Skip
  }

  /** One line of LoadGoals. */
  function DecodeLine(line: string): Entry {
    if IsBlank(line) then Skip else DecodeFields(Split(line))
  }

  /** Blank lines, unknown tags and lines with too few fields are skipped; a
      line that loads has the fields its tag needs, and a goal line gives a
      goal whose name, description and points are its second, third and
      fourth fields and whose progress is read from the fields after them,
      so a line with a field that does not parse is skipped. */
  lemma DecodeLineShape(line: string)
    ensures IsBlank(line) ==> DecodeLine(line) == Skip
    ensures !IsTag(Split(line)[0]) ==> DecodeLine(line) == Skip
    ensures DecodeLine(line) != Skip ==> |Split(line)| >= Arity(Split(line)[0]) >= 2
    ensures DecodeLine(line).SetScore? ==>
              Split(line)[0] == PlayerTag && ParseInt(Split(line)[1]) == Some(DecodeLine(line).score)
    ensures DecodeLine(line).AddGoal? ==>
              (var g := DecodeLine(line).goal;
               Split(line)[0] == Fields(g)[0] && Split(line)[1] == g.name && Split(line)[2] == g.description
               && ParseInt(Split(line)[3]) == Some(g.points))
    ensures DecodeLine(line).AddGoal? ==>
              (var parts := Split(line);
               match DecodeLine(line).goal.progress
               case Simple(completed) => ParseBool(parts[4]) == Some(completed)
               case Eternal(timesRecorded) => ParseInt(parts[4]) == Some(timesRecorded)
               case Checklist(timesCompleted, target, bonus) =>
                 ParseInt(parts[4]) == Some(target) && ParseInt(parts[5]) == Some(bonus)
                 && ParseInt(parts[6]) == Some(timesCompleted))
  {
  }

  /** What a sequence of lines loads: the goals in file order, and the score
      of the last player line, if any. */
  datatype Loaded = Loaded(goals: seq<GoalData>, score: Option<int>)

  /** What one entry does to the load so far. */
  function Apply(before: Loaded, e: Entry): Loaded {
    match e
    case Skip => before
    case SetScore(score) => Loaded(before.goals, Some(score))
    case AddGoal(g) => Loaded(before.goals + [g], before.score)
  }

  /** The foreach of LoadGoals over the lines, from an emptied goal list. */
  function DecodeLines(lines: seq<string>): Loaded
    decreases |lines|
  {
    if lines == [] then Loaded([], None)
    else Apply(DecodeLines(lines[..|lines| - 1]), DecodeLine(lines[|lines| - 1]))
  }

  /** Loading one more line of a file applies its entry. */
  lemma DecodeLinesStep(lines: seq<string>, i: nat)
    requires i < |lines|
    ensures DecodeLines(lines[..i + 1]) == Apply(DecodeLines(lines[..i]), DecodeLine(lines[i]))
  {
    assert lines[..i + 1][..i] == lines[..i];
  }

  // ---------------------------------------------------------------------
  // Round trip

  /** A goal the format can carry: no delimiter in its text fields, every
      number within int's range. */
  predicate Storable(g: GoalData) {
    NoDelimiter(g.name) && NoDelimiter(g.description) && InInt32(g.points)
    && match g.progress
       case Simple(_) => true
       case Eternal(timesRecorded) => InInt32(timesRecorded)
       case Checklist(timesCompleted, target, bonus) =>
         InInt32(timesCompleted) && InInt32(target) && InInt32(bonus)
  }

  lemma IntToStringNoDelimiter(n: int)
    ensures NoDelimiter(IntToString(n))
  {
    var s := IntToString(n);
    var d := NatToString(if n < 0 then -n else n);
    forall i | 0 <= i < |s| ensures s[i] != Delimiter {
      if n < 0 && i > 0 {
        assert s[i] == d[i - 1];
      }
    }
  }

  /** A joined line starts with the first character of its first field. */
  lemma {:induction false} JoinStart(fields: seq<string>)
    requires |fields| >= 1 && fields[0] != []
    ensures Join(fields) != [] && Join(fields)[0] == fields[0][0]
  {
  }

  /** Appending a field to a joined line is joining one more field. */
  lemma {:induction false} JoinAppend(fields: seq<string>, extra: string)
    requires |fields| >= 1
    ensures Join(fields) + [Delimiter] + extra == Join(fields + [extra])
    decreases |fields|
  {
    if |fields| > 1 {
      JoinAppend(fields[1..], extra);
      assert (fields + [extra])[1..] == fields[1..] + [extra];
    }
  }

  /** No field of a storable goal holds the delimiter. */
  lemma FieldsNoDelimiter(g: GoalData)
    requires Storable(g)
    ensures forall i :: 0 <= i < |Fields(g)| ==> NoDelimiter(Fields(g)[i])
  {
    IntToStringNoDelimiter(g.points);
    match g.progress {
      case Simple(_) =>
      case Eternal(n) => IntToStringNoDelimiter(n);
      case Checklist(n, t, b) =>
        IntToStringNoDelimiter(n);
        IntToStringNoDelimiter(t);
        IntToStringNoDelimiter(b);
    }
  }

  /** A storable goal's saved line splits into exactly its fields, tag first,
      and is never blank. */
  lemma FieldsSplit(g: GoalData)
    requires Storable(g)
    ensures Split(Serialize(g)) == Fields(g)
    ensures !IsBlank(Serialize(g))
    ensures forall i :: 0 <= i < |Fields(g)| ==> NoDelimiter(Fields(g)[i])
  {
    FieldsNoDelimiter(g);
    SplitJoin(Fields(g));
    JoinStart(Fields(g));
  }

  lemma DecodeSimpleFields(name: string, description: string, points: int, completed: bool)
    requires InInt32(points)
    ensures DecodeFields([SimpleTag, name, description, IntToString(points), BoolToString(completed)])
         == AddGoal(GoalData(name, description, points, Simple(completed)))
  {
    ParseIntToString(points);
    ParseBoolToString(completed);
  }

  lemma DecodeEternalFields(name: string, description: string, points: int, timesRecorded: int)
    requires InInt32(points) && InInt32(timesRecorded)
    ensures DecodeFields([EternalTag, name, description, IntToString(points), IntToString(timesRecorded)])
         == AddGoal(GoalData(name, description, points, Eternal(timesRecorded)))
  {
    ParseIntToString(points);
    ParseIntToString(timesRecorded);
  }

  lemma DecodeChecklistFields(name: string, description: string, points: int,
                              timesCompleted: int, target: int, bonus: int)
    requires InInt32(points) && InInt32(timesCompleted) && InInt32(target) && InInt32(bonus)
    ensures DecodeFields([ChecklistTag, name, description, IntToString(points),
                          IntToString(target), IntToString(bonus), IntToString(timesCompleted)])
         == AddGoal(GoalData(name, description, points, Checklist(timesCompleted, target, bonus)))
  {
    ParseIntToString(points);
    ParseIntToString(target);
    ParseIntToString(bonus);
    ParseIntToString(timesCompleted);
  }

  /** The parse reads a storable goal's fields back as that goal. */
  lemma DecodeFieldsOfFields(g: GoalData)
    requires Storable(g)
    ensures DecodeFields(Fields(g)) == AddGoal(g)
  {
    match g.progress {
      case Simple(c) => DecodeSimpleFields(g.name, g.description, g.points, c);
      case Eternal(n) => DecodeEternalFields(g.name, g.description, g.points, n);
      case Checklist(n, t, b) => DecodeChecklistFields(g.name, g.description, g.points, n, t, b);
    }
  }

  /** Loading a saved goal line gives back the goal (GetStringRepresentation
      followed by the per-line parse). */
  lemma DecodeSerialize(g: GoalData)
    requires Storable(g)
    ensures DecodeLine(Serialize(g)) == AddGoal(g)
  {
    FieldsSplit(g);
    DecodeFieldsOfFields(g);
  }

  /** The saved player line is the Player tag and the score, and is never
      blank. */
  lemma PlayerLineSplit(score: int)
    ensures Split(PlayerLine(score)) == [PlayerTag, IntToString(score)]
    ensures !IsBlank(PlayerLine(score))
  {
    IntToStringNoDelimiter(score);
    SplitJoin([PlayerTag, IntToString(score)]);
    JoinStart([PlayerTag, IntToString(score)]);
  }

  /** Loading the saved player line gives back the score. */
  lemma DecodePlayerLine(score: int)
    requires InInt32(score)
    ensures DecodeLine(PlayerLine(score)) == SetScore(score)
  {
    PlayerLineSplit(score);
    ParseIntToString(score);
  }

  /** A saved line has exactly the fields its tag needs. */
  lemma FieldsArity(g: GoalData)
    ensures |Fields(g)| == Arity(Fields(g)[0])
  {
  }

  /** The parse reads only the fields its tag needs, so a field appended
      after them changes nothing. */
  lemma DecodeFieldsIgnoresExtra(parts: seq<string>, extra: string)
    requires 1 <= |parts| && Arity(parts[0]) <= |parts|
    ensures DecodeFields(parts + [extra]) == DecodeFields(parts)
  {
    var more := parts + [extra];
    assert forall i :: 0 <= i < |parts| ==> more[i] == parts[i];
  }

  /** Extra trailing fields are ignored: the parse only asks for at least as
      many fields as the tag needs. */
  lemma ExtraFieldIgnored(g: GoalData, extra: string)
    requires Storable(g) && NoDelimiter(extra)
    ensures DecodeLine(Serialize(g) + [Delimiter] + extra) == AddGoal(g)
  {
    FieldsNoDelimiter(g);
    FieldsArity(g);
    var fields := Fields(g) + [extra];
    JoinAppend(Fields(g), extra);
    assert forall i :: 0 <= i < |fields| ==> NoDelimiter(fields[i]) by {
      forall i | 0 <= i < |fields| ensures NoDelimiter(fields[i]) {
        if i < |Fields(g)| {
          assert fields[i] == Fields(g)[i];
        }
      }
    }
    SplitJoin(fields);
    JoinStart(fields);
    DecodeFieldsIgnoresExtra(Fields(g), extra);
    DecodeFieldsOfFields(g);
  }

  /** A goal line with fewer fields than its tag needs is skipped. */
  lemma TooFewFieldsSkipped(fields: seq<string>)
    requires 1 <= |fields| < Arity(fields[0])
    requires forall i :: 0 <= i < |fields| ==> NoDelimiter(fields[i])
    ensures DecodeLine(Join(fields)) == Skip
  {
    SplitJoin(fields);
  }

  /** Every saved goal and the saved score come back, in order. */
  lemma {:induction false} DecodeEncode(score: int, goals: seq<GoalData>)
    requires InInt32(score)
    requires forall i :: 0 <= i < |goals| ==> Storable(goals[i])
    ensures DecodeLines(Encode(score, goals)) == Loaded(goals, Some(score))
    decreases |goals|
  {
    if goals == [] {
      DecodeEncodeEmpty(score);
    } else {
      DecodeEncode(score, goals[..|goals| - 1]);
      DecodeEncodeStep(score, goals);
    }
  }

  /** A save without goals loads back only the score. */
  lemma DecodeEncodeEmpty(score: int)
    requires InInt32(score)
    ensures DecodeLines(Encode(score, [])) == Loaded([], Some(score))
  {
    DecodePlayerLine(score);
    assert Encode(score, [])[..0] == [];
  }

  /** Saving one more goal adds its line, which loads back as that goal
      after the others. */
  lemma DecodeEncodeStep(score: int, goals: seq<GoalData>)
    requires |goals| >= 1 && Storable(goals[|goals| - 1])
    requires DecodeLines(Encode(score, goals[..|goals| - 1])) == Loaded(goals[..|goals| - 1], Some(score))
    ensures DecodeLines(Encode(score, goals)) == Loaded(goals, Some(score))
  {
    var lines := Encode(score, goals);
    var g := goals[|goals| - 1];
    assert lines[..|lines| - 1] == Encode(score, goals[..|goals| - 1]);
    assert lines[|lines| - 1] == Serialize(g);
    DecodeSerialize(g);
    assert DecodeLines(lines) == Apply(DecodeLines(lines[..|lines| - 1]), AddGoal(g));
    InitLast(goals);
  }

  /** A nonempty sequence is its prefix followed by its last element. */
  lemma InitLast<T>(s: seq<T>)
    requires |s| >= 1
    ensures s[..|s| - 1] + [s[|s| - 1]] == s
  {
  }

  /** Loading two runs of lines one after the other: the goals of both in
      order, and the later run's score if it has one. */
  lemma {:induction false} DecodeLinesAppend(a: seq<string>, b: seq<string>)
    ensures DecodeLines(a + b).goals == DecodeLines(a).goals + DecodeLines(b).goals
    ensures DecodeLines(a + b).score == if DecodeLines(b).score.Some? then DecodeLines(b).score else DecodeLines(a).score
    decreases |b|
  {
    if b == [] {
      assert a + b == a;
    } else {
      var init := b[..|b| - 1];
      DecodeLinesAppend(a, init);
      assert (a + b)[..|a + b| - 1] == a + init;
      assert (a + b)[|a + b| - 1] == b[|b| - 1];
    }
  }

  /** A skipped line anywhere in the file changes nothing: loading never
      stops at a bad line. */
  lemma SkippedLineChangesNothing(a: seq<string>, bad: string, b: seq<string>)
    requires DecodeLine(bad) == Skip
    ensures DecodeLines(a + [bad] + b) == DecodeLines(a + b)
  {
    DecodeLinesAppend(a + [bad], b);
    DecodeLinesAppend(a, b);
    assert (a + [bad])[..|a + [bad]| - 1] == a;
  }

  /** A well-formed goal line followed by the same line missing its last
      field loads exactly one goal. */
  lemma MissingFieldSkipped(g: GoalData)
    requires Storable(g)
    ensures var short := Fields(g)[..|Fields(g)| - 1];
            DecodeLines([Serialize(g), Join(short)]) == Loaded([g], None)
  {
    DecodeSerialize(g);
    ShortFields(g);
    TooFewFieldsSkipped(Fields(g)[..|Fields(g)| - 1]);
    DecodeTwoLines(Serialize(g), Join(Fields(g)[..|Fields(g)| - 1]));
  }

  /** A storable goal's fields without the last are too few for its tag and
      hold no delimiter. */
  lemma ShortFields(g: GoalData)
    requires Storable(g)
    ensures var short := Fields(g)[..|Fields(g)| - 1];
            1 <= |short| < Arity(short[0]) && forall i :: 0 <= i < |short| ==> NoDelimiter(short[i])
  {
    FieldsNoDelimiter(g);
    FieldsArity(g);
  }

  /** Loading two lines applies their entries in order. */
  lemma DecodeTwoLines(a: string, b: string)
    ensures DecodeLines([a, b]) == Apply(Apply(Loaded([], None), DecodeLine(a)), DecodeLine(b))
  {
    assert [a][..0] == [];
    assert DecodeLines([a]) == Apply(Loaded([], None), DecodeLine(a));
    assert [a, b][..1] == [a];
  }

  /** Joining a field in front of at least one more. */
  lemma JoinCons(head: string, rest: seq<string>)
    requires |rest| >= 1
    ensures Join([head] + rest) == head + [Delimiter] + Join(rest)
  {
    assert ([head] + rest)[1..] == rest;
  }

  /** Two fields joined in front of more are one field holding the
      delimiter joined in front of them. */
  lemma JoinTwo(first: string, second: string, rest: seq<string>)
    requires |rest| >= 1
    ensures Join([first] + ([second] + rest)) == Join([first + [Delimiter] + second] + rest)
  {
    JoinCons(second, rest);
    JoinCons(first, [second] + rest);
    JoinCons(first + [Delimiter] + second, rest);
  }

  /** A name holding the delimiter, saved unescaped, reads as two fields. */
  lemma DelimiterInField(tag: string, first: string, second: string, rest: seq<string>)
    requires |rest| >= 1
    ensures Join([tag] + ([first + [Delimiter] + second] + rest))
         == Join([tag] + ([first] + ([second] + rest)))
  {
    JoinTwo(first, second, rest);
    JoinCons(tag, [first + [Delimiter] + second] + rest);
    JoinCons(tag, [first] + ([second] + rest));
  }

  /** The saved line of a goal whose name holds one delimiter is the join
      of the tag, the name's two halves, and the remaining fields. */
  lemma SerializeWithDelimiterInName(g: GoalData, first: string, second: string)
    requires g.name == first + [Delimiter] + second
    ensures |Fields(g)| >= 5
    ensures Serialize(g) == Join([Fields(g)[0]] + ([first] + ([second] + Fields(g)[2..])))
  {
    var rest := Fields(g)[2..];
    assert Fields(g) == [Fields(g)[0]] + ([g.name] + rest);
    DelimiterInField(Fields(g)[0], first, second, rest);
  }

  /** That line splits into those fields and is not blank. */
  lemma SplitWithDelimiterInName(g: GoalData, first: string, second: string)
    requires g.name == first + [Delimiter] + second
    requires NoDelimiter(first) && NoDelimiter(second) && NoDelimiter(g.description)
    ensures |Fields(g)| >= 5
    ensures Split(Serialize(g)) == [Fields(g)[0]] + ([first] + ([second] + Fields(g)[2..]))
    ensures !IsBlank(Serialize(g))
  {
    SerializeWithDelimiterInName(g, first, second);
    FieldsTailNoDelimiter(g);
    var shifted := [Fields(g)[0]] + ([first] + ([second] + Fields(g)[2..]));
    ShiftedNoDelimiter(Fields(g)[0], first, second, Fields(g)[2..]);
    SplitJoin(shifted);
    JoinStart(shifted);
  }

  lemma ShiftedNoDelimiter(tag: string, first: string, second: string, rest: seq<string>)
    requires NoDelimiter(tag) && NoDelimiter(first) && NoDelimiter(second)
    requires forall i :: 0 <= i < |rest| ==> NoDelimiter(rest[i])
    ensures var shifted := [tag] + ([first] + ([second] + rest));
            forall i :: 0 <= i < |shifted| ==> NoDelimiter(shifted[i])
  {
    var shifted := [tag] + ([first] + ([second] + rest));
    forall i | 0 <= i < |shifted| ensures NoDelimiter(shifted[i]) {
      if i >= 3 {
        assert shifted[i] == rest[i - 3];
      }
    }
  }

  /** The tag and the fields after the name of a goal whose description
      holds no delimiter hold none either. */
  lemma FieldsTailNoDelimiter(g: GoalData)
    requires NoDelimiter(g.description)
    ensures NoDelimiter(Fields(g)[0])
    ensures forall i :: 0 <= i < |Fields(g)[2..]| ==> NoDelimiter(Fields(g)[2..][i])
  {
    IntToStringNoDelimiter(g.points);
    match g.progress {
      case Simple(c) => assert NoDelimiter(BoolToString(c));
      case Eternal(n) => IntToStringNoDelimiter(n);
      case Checklist(n, t, b) =>
        IntToStringNoDelimiter(n);
        IntToStringNoDelimiter(t);
        IntToStringNoDelimiter(b);
    }
  }

  /** A delimiter inside a simple goal's name shifts every later field: its
      saved line no longer loads (the format does not escape), because the
      saved points land where the completed flag belongs. */
  lemma DelimiterInNameBreaksRoundTrip(first: string, second: string, description: string,
                                       points: int, completed: bool)
    requires NoDelimiter(first) && NoDelimiter(second) && NoDelimiter(description)
    ensures var g := GoalData(first + [Delimiter] + second, description, points, Simple(completed));
            DecodeLine(Serialize(g)) == Skip
  {
    var g := GoalData(first + [Delimiter] + second, description, points, Simple(completed));
    SplitWithDelimiterInName(g, first, second);
    assert Split(Serialize(g))[4] == IntToString(points);
    ParseBoolOfIntToString(points);
  }

  /** A delimiter inside an eternal goal's name makes its saved line load as
      a different goal: the name's halves become name and description, the
      description (when it reads as a number) becomes the points, and the
      points become the event count. */
  lemma DelimiterInNameLoadsOtherGoal(first: string, second: string, description: string,
                                      points: int, timesRecorded: int)
    requires NoDelimiter(first) && NoDelimiter(second) && NoDelimiter(description)
    requires ParseInt(description).Some? && InInt32(points)
    ensures var g := GoalData(first + [Delimiter] + second, description, points, Eternal(timesRecorded));
            DecodeLine(Serialize(g))
            == AddGoal(GoalData(first, second, ParseInt(description).value, Eternal(points)))
  {
    var g := GoalData(first + [Delimiter] + second, description, points, Eternal(timesRecorded));
    SplitWithDelimiterInName(g, first, second);
    var parts := Split(Serialize(g));
    assert parts[0] == EternalTag && parts[1] == first && parts[2] == second;
    assert parts[3] == description && parts[4] == IntToString(points);
    ParseIntToString(points);
  }
}
