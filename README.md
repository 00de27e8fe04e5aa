# Eternal Quest goal tracker — a Dafny model

This project models the goal-tracking engine of the Eternal Quest console
program (`week06/EternalQuest/Program.cs`):

- the three goal variants — a simple goal completed once, an eternal goal
  recorded forever, a checklist goal completed after a target number of
  events with a one-time bonus — with their `RecordEvent`, `IsComplete` and
  `GetStatus` behaviour;
- the `Player`, whose score grows by the points earned, whose level is
  `Score / 1000 + 1` (raised, never lowered), and who collects a badge for
  each score threshold of 500, 2000, 5000 and 10000;
- the menu operations on the program's goal list and player: create a goal,
  record an event against the n-th goal, save, and load;
- the pipe-delimited save format: `Player|<score>`, then one line per goal
  (`Simple|name|description|points|True/False`,
  `Eternal|name|description|points|times`,
  `Checklist|name|description|points|target|bonus|timesCompleted`), and the
  line-by-line loader that skips whatever it cannot read.

Modules, one per part of the program:

| file | module | models |
|---|---|---|
| `text.dfy` | `Text` | the .NET text behaviour the program uses: `string.Split('|')`, `string.IsNullOrWhiteSpace`, `int.ToString`/`int.TryParse`, `bool.ToString`/`bool.TryParse` |
| `goals.dfy` | `Goals` | the goal variants: a `Progress` datatype per variant, the `Record` transition, `Status`, and class `Goal` whose `RecordEvent` updates its progress in place |
| `players.dfy` | `Players` | class `Player` with `AddPoints`, `UpdateLevel`, `UpdateBadges`, `GetBadges`; the console announcements are kept as a log of `Notice`s |
| `codec.dfy` | `Codec` | the save lines (`Serialize`, `Encode`) and the load parse (`DecodeLine`, `DecodeLines`) with their round trip and robustness lemmas |
| `engine.dfy` | `Engine` | class `Tracker`, the program's static goal list and player, with `CreateGoal`, `RecordEvent`, `Save` and `Load` |

The goal objects are a class with constant name, description and points and a
mutable `progress`; the pure function `Goals.Record` is the specification of
one event, and the lemmas about it carry the per-variant promises. The
`Tracker` keeps its goals pairwise distinct, so recording an event touches
exactly one goal. `Load` is a loop over the lines that calls the per-line
parse and is proved to produce `Codec.DecodeLines` of the file.

## Model

| member | source | states |
|---|---|---|
| `Goals.Record` | week06/EternalQuest/Program.cs:55-133 | one event keeps the variant (and a checklist's target and bonus); a complete goal is left unchanged and earns 0; an incomplete goal counts the event exactly once |
| `Goals.CompleteIffInert` | week06/EternalQuest/Program.cs:62-135 | IsComplete of each variant holds exactly when recording an event leaves the goal as it is: a completed simple goal, a checklist at or past its target, never an eternal goal |
| `Goals.Goal.RecordEvent` | week06/EternalQuest/Program.cs:55-133 | each variant's RecordEvent updates the goal object in place: its progress and the returned points are those of `Record` on its old progress; a complete goal is unchanged and returns 0; name, description and points are `const` fields, as the read-only properties of lines 27-29 |
| `Goals.Goal.SimpleGoal` | week06/EternalQuest/Program.cs:49-53 | a simple goal object holds the given name, description, points and completed flag; the first three are `const`, as the base class's read-only properties (lines 20-29) |
| `Goals.Goal.EternalGoal` | week06/EternalQuest/Program.cs:81-85 | an eternal goal object holds the given fields and event count |
| `Goals.Goal.ChecklistGoal` | week06/EternalQuest/Program.cs:114-120 | a checklist goal object holds the given fields, target, bonus and count |
| `Goals.CompleteGoalIsInert` | week06/EternalQuest/Program.cs:124 | once a goal is complete, any number of further events changes nothing and earns 0 |
| `Goals.SimpleGoalPaysOnce` | week06/EternalQuest/Program.cs:55-62 | the first event on an incomplete simple goal completes it and pays its points; any number of events pays them only once |
| `Goals.EternalGoalNeverCompletes` | week06/EternalQuest/Program.cs:87-93 | k events on an eternal goal add exactly k to its count and pay points times k; it is never complete |
| `Goals.ChecklistBeforeTarget` | week06/EternalQuest/Program.cs:126-132 | while the target is not reached each checklist event pays exactly the per-event points, no bonus |
| `Goals.ChecklistPaysBonusOnce` | week06/EternalQuest/Program.cs:122-135 | from any count n below the target, the remaining target - n events pay points times (target - n) plus the bonus once and complete the goal; every later event pays 0 |
| `Goals.TempleVisits` | week06/EternalQuest/Program.cs:217 | the 50-point, 10-visit, 500-bonus checklist pays 450 for nine visits, 550 for the tenth, 1000 in all, and is then complete |
| `Goals.Status` | week06/EternalQuest/Program.cs:70-146 | GetStatus of each variant: "[X]" exactly for a completed simple goal (70-73), "(Eternal)" at the head of every eternal goal's line (101-104), and a checklist line ending in "(Complete)" exactly when the checklist is complete (143-146) |
| `Players.TruncDiv` | week06/EternalQuest/Program.cs:173 | C# division of the score by 1000 truncates toward zero, also for negative scores |
| `Players.LevelFor` | week06/EternalQuest/Program.cs:173 | each full 1000 points is one level above 1: a score s ≥ 0 is worth level L exactly when 1000·(L − 1) ≤ s < 1000·L; a negative score is worth at most level 1 |
| `Players.ScoreMonotone` | week06/EternalQuest/Program.cs:171-179 | a higher score is worth at least the level and the badges of a lower one |
| `Players.ScanBadgesAddsReached` | week06/EternalQuest/Program.cs:192-199 | the badge loop (`Players.ScanBadges`) adds exactly the titles of the reached thresholds to those held |
| `Players.ScanBadgesAnnouncesAdded` | week06/EternalQuest/Program.cs:192-199 | the badge loop announces exactly the titles it adds, each once, none already held |
| `Players.ScoreExamples` | week06/EternalQuest/Program.cs:184-190 | 999 points is level 1 and 1000 is level 2; 500 and 1000 points earn only "Getting Started"; 10000 points earn all four badges |
| `Players.Player.constructor` | week06/EternalQuest/Program.cs:156-161 | a new player has score 0, level 1, no badges |
| `Players.Player.AddPoints` | week06/EternalQuest/Program.cs:163-169 | 0 points change nothing; otherwise the score grows by exactly pts, the level becomes the larger of the old level and score / 1000 + 1, every reached badge is held, and level and badges never shrink; the player invariant (level and badges never lag behind the score, each badge announced once) is kept |
| `Players.Player.UpdateLevel` | week06/EternalQuest/Program.cs:171-179 | the level is raised to score / 1000 + 1 only when that is higher, with one level-up notice |
| `Players.Player.UpdateBadges` | week06/EternalQuest/Program.cs:181-200 | the loop over the threshold table ends with the badge scan's held set and notices |
| `Players.Player.GetBadges` | week06/EternalQuest/Program.cs:202 | the badges returned include every reached threshold's title and nothing outside the table |
| `Codec.Encode` | week06/EternalQuest/Program.cs:359-364 | the saved file has exactly one line more than there are goals, the player line; that it reads back is `Codec.DecodeEncode` |
| `Codec.FieldsSplit` | week06/EternalQuest/Program.cs:64-141 | GetStringRepresentation of each variant (`Codec.Serialize`) is a line that is never blank and splits into exactly the tag and the variant's fields in their documented order, when name and description hold no pipe |
| `Codec.PlayerLineSplit` | week06/EternalQuest/Program.cs:359 | the first saved line (`Codec.PlayerLine`) splits into the Player tag and the score and is never blank |
| `Codec.DecodeLineShape` | week06/EternalQuest/Program.cs:384-429 | the per-line parse (`Codec.DecodeLine` over `Codec.DecodeFields`): blank lines (`Text.IsBlank`) and unknown tags are skipped; a line that loads has at least the fields its tag needs; a loaded goal's name and description are its second and third fields, and its points, completed flag, event count, target, bonus and completion count are the values int.TryParse and bool.TryParse read from the fields after them, so a line with a field that does not parse is skipped |
| `Codec.DecodeSerialize` | week06/EternalQuest/Program.cs:405-425 | a goal's saved line loads back as an equal goal when its name and description hold no pipe and its numbers are within int's range |
| `Codec.DecodePlayerLine` | week06/EternalQuest/Program.cs:392-403 | the saved player line loads back its score |
| `Codec.ExtraFieldIgnored` | week06/EternalQuest/Program.cs:407 | a goal line with an extra trailing field still loads the same goal |
| `Codec.TooFewFieldsSkipped` | week06/EternalQuest/Program.cs:421 | a line with fewer fields than its tag needs is skipped |
| `Codec.MissingFieldSkipped` | week06/EternalQuest/Program.cs:419-425 | a good goal line followed by the same line missing its last field loads exactly that one goal |
| `Codec.DecodeEncode` | week06/EternalQuest/Program.cs:381-435 | loading a saved file gives back every saved goal in order and the saved score |
| `Codec.DecodeEncodeStep` | week06/EternalQuest/Program.cs:361-364 | saving one more goal adds one line, which loads back as that goal after the others |
| `Codec.DecodeLinesStep` | week06/EternalQuest/Program.cs:382-429 | `Codec.DecodeLines`, the foreach over the lines: loading one more line applies that line's entry to what was loaded before |
| `Codec.DecodeLinesAppend` | week06/EternalQuest/Program.cs:382-435 | loading two runs of lines gives the goals of both in order and the later player line's score |
| `Codec.SkippedLineChangesNothing` | week06/EternalQuest/Program.cs:430-434 | a line that is skipped changes nothing wherever it sits in the file; loading never stops at a bad line |
| `Codec.DelimiterInNameBreaksRoundTrip` | week06/EternalQuest/Program.cs:67 | a pipe inside a simple goal's name shifts the later fields, so its saved line is skipped on load: the points land where the completed flag belongs |
| `Codec.DelimiterInNameLoadsOtherGoal` | week06/EternalQuest/Program.cs:98 | a pipe inside an eternal goal's name makes its saved line load as a different goal: the two halves of the name become name and description, a description that reads as a number becomes the points, and the points become the event count |
| `Text.SplitJoin` | week06/EternalQuest/Program.cs:385 | splitting a joined line on the pipe gives back its fields when none contains a pipe |
| `Text.JoinSplit` | week06/EternalQuest/Program.cs:385 | every line is the join of its split fields, and no field contains a pipe |
| `Text.Split` | week06/EternalQuest/Program.cs:385 | splitting never gives an empty array |
| `Text.ParseInt` | week06/EternalQuest/Program.cs:393 | a parsed int is within the Int32 range |
| `Text.IntToString` | week06/EternalQuest/Program.cs:98 | an int interpolated into a line is a minus sign exactly for negatives followed by decimal digits |
| `Text.ParseIntToString` | week06/EternalQuest/Program.cs:98 | every Int32 written by interpolation parses back to itself |
| `Text.ParseBoolToString` | week06/EternalQuest/Program.cs:67 | the "True"/"False" written for the completed flag parses back to the same flag |
| `Text.ParseBool` | week06/EternalQuest/Program.cs:407 | bool.TryParse reads a flag only from text whose trimmed form starts with t or T (true) or f or F (false) |
| `Engine.NewGoal` | week06/EternalQuest/Program.cs:278-305 | a goal is built exactly for type "1", "2" or "3" after trimming: a simple goal not yet completed, an eternal goal with no events, or a checklist with no completions whose target is 1 and bonus 0 when they do not parse; name and description as given, points 0 when they do not parse |
| `Engine.CreatedGoalReloads` | week06/EternalQuest/Program.cs:285-300 | every goal the prompts build saves and loads back unchanged, unless its name or description holds a pipe |
| `Engine.RestorePlayer` | week06/EternalQuest/Program.cs:396-402 | the player rebuilt from score s has score s, level max(1, s / 1000 + 1), exactly the badges reached by s, and the notices of that one AddPoints |
| `Engine.Construct` | week06/EternalQuest/Program.cs:409-423 | a loaded goal value becomes a new object of the matching subclass holding exactly its fields |
| `Engine.Tracker.constructor` | week06/EternalQuest/Program.cs:207-208 | the program starts with no goals and a new player: score 0, level 1, no badges and no notices |
| `Engine.Tracker.CreateGoal` | week06/EternalQuest/Program.cs:287-307 | a known type appends one new goal built by NewGoal and leaves the others and the player alone; an unknown type changes nothing |
| `Engine.Tracker.RecordEvent` | week06/EternalQuest/Program.cs:314-331 | an unparsable or out-of-range selection is rejected and 0 cancels, both changing nothing; otherwise only the selected goal takes one event, positive points go to the player (score, level, badges and announcements as `AddPoints` states) and others do not, so score, level and badges never decrease |
| `Engine.Tracker.Save` | week06/EternalQuest/Program.cs:356-365 | the written lines are `Encode` of the player's score and the goals' values |
| `Engine.Tracker.ApplyEntry` | week06/EternalQuest/Program.cs:390-429 | a goal entry appends one new goal, a player entry replaces the player with the rebuilt one, a skipped line changes nothing |
| `Engine.Tracker.Load` | week06/EternalQuest/Program.cs:370-435 | a missing file changes nothing; otherwise the list is replaced by new goals equal to `DecodeLines` of the file in order, and the last Player line, if any, replaces the player by the one rebuilt from its score |

## Left out

- Console input and output: `Main`, `ShowMenu`, `ListGoals`, `ShowScore` and the prompt texts are not modelled. The answers to prompts are string parameters (`CreateGoal`, `RecordEvent`); `Console.ReadLine` returning null at end of input is not modelled. The player's level-up and badge messages are kept as a log of notices; the program's other messages are the `Outcome` of `RecordEvent` or not modelled.
- File access: `StreamWriter`, `File.Exists` and `File.ReadAllLines` are not modelled, nor the filename prompt and its "goals.txt" default. `Save` returns the lines; `Load` takes the lines, or `None` for a missing file. Cutting a file into lines is not modelled, so a newline inside a name is not covered by the round trip.
- 32-bit arithmetic: `Score += pts` (Program.cs:166), `_timesRecorded++` (89), `_timesCompleted++` (126) and `earned += _bonus` (130) use unbounded integers, so C# wrap-around on overflow is not modelled. Int32 matters only where `int.TryParse` rejects out-of-range text.
- Goals.Record: a checklist's completing payout is points + bonus without wrap-around. In C# a sum above 2147483647 wraps to a value ≤ 0 (points 2147483647 and bonus 1 give -2147483648), so `RecordEvent` of the program then skips `AddPoints` (line 323) and the payout never reaches the player; in this model it does, and `Engine.Tracker.RecordEvent` passes it on.
- `int.TryParse` is modelled as invariant-culture parsing: optional white space (tab to carriage return, space), an optional `+` or `-`, ASCII digits, and the Int32 range. Culture-specific signs and trailing NUL characters are not modelled.
- `bool.TryParse` is modelled with ASCII-only case folding, after trimming white space and NUL.
- The badge table's `Dictionary` is taken to enumerate in insertion order, which fixes the order of badge notices.
- The seeded demo goals (lines 215-217) are not part of the tracker's state. The checklist they seed appears only in `Goals.TempleVisits`.
- The `try`/`catch` around each loaded line is not modelled: nothing in the modelled parse can throw, and unreadable lines become a `Skip` entry.
- A file without a `Player` line keeps the previous player: `LoadGoals` replaces the player only when it reads a `Player` line (Program.cs:392-403). A `Player` line with a negative score is accepted, so the score is not always ≥ 0; levels then use C#'s truncating division. A checklist's target and count are not validated: a checklist is complete exactly when its count is at least its target, so a target ≤ 0 makes a new goal complete from the start, while a loaded negative count below the target still pays on its next events. `Goals.ChecklistPaysBonusOnce` holds for any count below the target.
- The save format does not escape the pipe: the round trip (`Codec.DecodeEncode`) is stated for goals whose name and description hold no pipe and whose numbers are within int's range; `Codec.DelimiterInNameBreaksRoundTrip` and `Codec.DelimiterInNameLoadsOtherGoal` show what happens otherwise.
- The other exercises in the repository (journal entry, scripture, video list, mindfulness activities) are not part of this model.
