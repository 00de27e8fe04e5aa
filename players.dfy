/** The Player: score, level and badges. Level and badges are derived from the
    score every time points are added; the console messages announcing a
    level-up or a badge are kept as a log of notices. */
module Players {

  /** Points needed for each level (pointsPerLevel). */
  const PointsPerLevel: int := 1000

  datatype Badge = Badge(threshold: int, title: string)

  /** The badge table of UpdateBadges, in its enumeration order. */
  const Thresholds: seq<Badge> := [
    Badge(500, "Getting Started"),
    Badge(2000, "Committed"),
    Badge(5000, "Dedicated"),
    Badge(10000, "Legend")
  ]

  /** A message the player is shown: a level reached or a badge earned. */
  datatype Notice = LevelUp(level: int) | BadgeEarned(title: string, threshold: int)

  /** C#'s integer division, which truncates toward zero. */
  function TruncDiv(a: int, b: int): (q: int)
    requires b > 0
    ensures a >= 0 ==> q * b <= a < q * b + b
    ensures a < 0 ==> q * b - b < a <= q * b
  {
    if a >= 0 then a / b else -((-a) / b)
  }

  /** The level a score is worth, (Score / pointsPerLevel) + 1: each full
      1000 points is one level above 1, and a negative score is worth at
      most level 1. */
  function LevelFor(score: int): (level: int)
    ensures score >= 0 ==> level >= 1 && (level - 1) * PointsPerLevel <= score < level * PointsPerLevel
    ensures score < 0 ==> level <= 1
  {
    TruncDiv(score, PointsPerLevel) + 1
  }

  function Max(a: int, b: int): int {
    if a < b then b else a
  }

  /** Titles of the entries of a table whose threshold the score has reached. */
  function Reached(score: int, table: seq<Badge>): set<string> {
    set b | b in table && b.threshold <= score :: b.title
  }

  /** Titles of all badge thresholds the score has reached. */
  function EarnedLabels(score: int): set<string> {
    Reached(score, Thresholds)
  }

  function AllLabels(): set<string> {
    set b | b in Thresholds :: b.title
  }

  /** The labels of the badge notices in a log. */
  function NoticedBadges(log: seq<Notice>): set<string> {
    set i | 0 <= i < |log| && log[i].BadgeEarned? :: log[i].title
  }

  /** No badge is announced twice in a log. */
  predicate BadgesNoticedOnce(log: seq<Notice>) {
    forall i, j :: 0 <= i < j < |log| && log[i].BadgeEarned? && log[j].BadgeEarned? ==> log[i].title != log[j].title
  }

  /** The notice UpdateLevel prints when the new score raises the level. */
  function LevelNotices(level: int, score: int): seq<Notice> {
    if LevelFor(score) > level then [LevelUp(LevelFor(score))] else []
  }

  datatype BadgeScan = BadgeScan(held: set<string>, notices: seq<Notice>)

  /** The foreach of UpdateBadges over the entries of `table`: each reached
      threshold whose title is not yet held is added and announced. */
  function ScanBadges(held: set<string>, score: int, table: seq<Badge>): BadgeScan
    decreases |table|
  {
    if table == [] then BadgeScan(held, [])
    else
      var before := ScanBadges(held, score, table[..|table| - 1]);
      var b := table[|table| - 1];
      if score >= b.threshold && b.title !in before.held
      then BadgeScan(before.held + {b.title}, before.notices + [BadgeEarned(b.title, b.threshold)])
      else before
  }

  lemma NoticedBadgesAppend(a: seq<Notice>, b: seq<Notice>)
    ensures NoticedBadges(a + b) == NoticedBadges(a) + NoticedBadges(b)
  {
    var ab := a + b;
    forall l | l in NoticedBadges(ab) ensures l in NoticedBadges(a) + NoticedBadges(b) {
      var i :| 0 <= i < |ab| && ab[i].BadgeEarned? && ab[i].title == l;
      if i >= |a| {
        assert b[i - |a|] == ab[i];
      }
    }
    forall l | l in NoticedBadges(a) ensures l in NoticedBadges(ab) {
      var i :| 0 <= i < |a| && a[i].BadgeEarned? && a[i].title == l;
      assert ab[i] == a[i];
    }
    forall l | l in NoticedBadges(b) ensures l in NoticedBadges(ab) {
      var i :| 0 <= i < |b| && b[i].BadgeEarned? && b[i].title == l;
      assert ab[i + |a|] == b[i];
    }
  }

  /** The badge scan adds exactly the reached titles of the table. */
  lemma {:induction false} ScanBadgesAddsReached(held: set<string>, score: int, table: seq<Badge>)
    ensures ScanBadges(held, score, table).held == held + Reached(score, table)
    decreases |table|
  {
    if table != [] {
      var init := table[..|table| - 1];
      var b := table[|table| - 1];
      ScanBadgesAddsReached(held, score, init);
      assert table == init + [b];
      assert Reached(score, table) == Reached(score, init) + (if b.threshold <= score then {b.title} else {}) by {
        forall t | t in Reached(score, table)
          ensures t in Reached(score, init) + (if b.threshold <= score then {b.title} else {})
        {
          var c :| c in table && c.threshold <= score && c.title == t;
          if c != b {
            assert c in init;
          }
        }
      }
    }
  }

  /** The badge scan announces exactly the titles it adds, each once, and
      nothing else. */
  lemma {:induction false} ScanBadgesAnnouncesAdded(held: set<string>, score: int, table: seq<Badge>)
    ensures NoticedBadges(ScanBadges(held, score, table).notices) == ScanBadges(held, score, table).held - held
    ensures held <= ScanBadges(held, score, table).held
    ensures BadgesNoticedOnce(ScanBadges(held, score, table).notices)
    decreases |table|
  {
    if table != [] {
      var init := table[..|table| - 1];
      var b := table[|table| - 1];
      ScanBadgesAnnouncesAdded(held, score, init);
      var before := ScanBadges(held, score, init);
      if score >= b.threshold && b.title !in before.held {
        var n := BadgeEarned(b.title, b.threshold);
        NoticedBadgesAppend(before.notices, [n]);
        assert NoticedBadges([n]) == {b.title} by {
          assert [n][0] == n;
          assert b.title in NoticedBadges([n]);
        }
        NoticesOnceAppend(before.notices, [n]);
      }
    }
  }

  /** Crossing a threshold never goes back: a higher score is worth at least
      the level and the badges of a lower one. */
  lemma ScoreMonotone(s: int, t: int)
    requires s <= t
    ensures LevelFor(s) <= LevelFor(t)
    ensures EarnedLabels(s) <= EarnedLabels(t)
  {
  }

  /** The level and badges of the documented examples. */
  lemma ScoreExamples()
    ensures LevelFor(999) == 1 && LevelFor(1000) == 2 && LevelFor(-1500) == 0
    ensures EarnedLabels(499) == {}
    ensures EarnedLabels(500) == {"Getting Started"}
    ensures EarnedLabels(1000) == {"Getting Started"}
    ensures EarnedLabels(10000) == AllLabels() == {"Getting Started", "Committed", "Dedicated", "Legend"}
  {
    assert Thresholds[0] in Thresholds;
    assert Thresholds[1] in Thresholds;
    assert Thresholds[2] in Thresholds;
    assert Thresholds[3] in Thresholds;
  }

  class Player {
    var score: int
    var level: int
    var badges: set<string>
    /** What the player has been told, in order. */
    var notices: seq<Notice>

    /** Level and badges never lag behind the score, only table labels are
        held, and every held badge was announced exactly once. */
    ghost predicate Valid()
      reads this
    {
      level >= 1 && level >= LevelFor(score)
      && EarnedLabels(score) <= badges && badges <= AllLabels()
      && NoticedBadges(notices) == badges && BadgesNoticedOnce(notices)
    }

    /** A new player: score 0, level 1, no badges. */
    constructor ()
      ensures Valid()
      ensures score == 0 && level == 1 && badges == {} && notices == []
    {
      score := 0;
      level := 1;
      badges := {};
      notices := [];
    }

    /** GetBadges: the badge set, which covers every threshold reached. */
    function GetBadges(): (labels: set<string>)
      reads this
      requires Valid()
      ensures EarnedLabels(score) <= labels <= AllLabels()
    {
      badges
    }

    /** Adds pts to the score (nothing at all for 0), raises the level when
        the score is worth a higher one and awards every badge reached. */
    method AddPoints(pts: int)
      requires Valid()
      modifies this
      ensures Valid()
      ensures pts == 0 ==> (score == old(score) && level == old(level)
                            && badges == old(badges) && notices == old(notices))
      ensures pts != 0 ==> score == old(score) + pts
      ensures pts != 0 ==> level == Max(old(level), LevelFor(score))
      ensures pts != 0 ==> badges == old(badges) + EarnedLabels(score)
      ensures pts != 0 ==> notices == old(notices) + LevelNotices(old(level), score)
                                      + ScanBadges(old(badges), score, Thresholds).notices
      ensures level >= old(level) && old(badges) <= badges
    {
      if pts == 0 {
        return;
      }
      score := score + pts;
      UpdateLevel();
      ghost var mid := notices;
      UpdateBadges();
      ScanBadgesAddsReached(old(badges), score, Thresholds);
      ScanBadgesAnnouncesAdded(old(badges), score, Thresholds);
      NoticedBadgesAppend(mid, ScanBadges(old(badges), score, Thresholds).notices);
      NoticedBadgesAppend(old(notices), LevelNotices(old(level), score));
      NoticesOnceAppend(mid, ScanBadges(old(badges), score, Thresholds).notices);
    }

    method UpdateLevel()
      modifies this`level, this`notices
      ensures level == Max(old(level), LevelFor(score))
      ensures notices == old(notices) + LevelNotices(old(level), score)
    {
      var newLevel := TruncDiv(score, PointsPerLevel) + 1;
      if newLevel > level {
        notices := notices + [LevelUp(newLevel)];
        level := newLevel;
      }
    }

    method UpdateBadges()
      modifies this`badges, this`notices
      ensures badges == ScanBadges(old(badges), score, Thresholds).held
      ensures notices == old(notices) + ScanBadges(old(badges), score, Thresholds).notices
    {
      var thresholds := Thresholds;
      for i := 0 to |thresholds|
        invariant badges == ScanBadges(old(badges), score, thresholds[..i]).held
        invariant notices == old(notices) + ScanBadges(old(badges), score, thresholds[..i]).notices
      {
        var kv := thresholds[i];
        assert thresholds[..i + 1][..i] == thresholds[..i];
        if score >= kv.threshold && kv.title !in badges {
          badges := badges + {kv.title};
          notices := notices + [BadgeEarned(kv.title, kv.threshold)];
        }
      }
      assert thresholds[..|thresholds|] == thresholds;
    }
  }

  /** Appending announcements of labels not announced before keeps every
      badge announced once. */
  lemma NoticesOnceAppend(a: seq<Notice>, b: seq<Notice>)
    requires BadgesNoticedOnce(a) && BadgesNoticedOnce(b)
    requires NoticedBadges(a) !! NoticedBadges(b)
    ensures BadgesNoticedOnce(a + b)
  {
    var ab := a + b;
    forall i, j | 0 <= i < j < |ab| && ab[i].BadgeEarned? && ab[j].BadgeEarned?
      ensures ab[i].title != ab[j].title
    {
      if j >= |a| && i < |a| {
        assert ab[i].title in NoticedBadges(a);
        assert b[j - |a|] == ab[j];
        assert ab[j].title in NoticedBadges(b);
      } else if i >= |a| {
        assert b[i - |a|] == ab[i] && b[j - |a|] == ab[j];
      }
    }
  }
}
