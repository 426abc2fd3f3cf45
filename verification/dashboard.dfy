/**
 The dashboard handlers (src/routes/dashboard.js): the overview counts and
 completion rate, the statistics window with its distributions and day-bucketed
 completion trend, and the productivity score with its level.

 The source computes with IEEE doubles; this model computes with exact
 rationals, so `Math.round(x)` is `floor(x + 1/2)` exactly.
 */
module Dashboard {
  import opened Common
  import opened TaskModel

  // ---------------------------------------------------------------------------
  // Counting the caller's tasks

  function Owned(db: TaskStore, caller: UserId): set<TaskId> {
    set id | id in db.tasks && db.tasks[id].user == caller
  }

  function WithStatus(db: TaskStore, caller: UserId, s: Status): set<TaskId> {
    set id | id in db.tasks && db.tasks[id].user == caller && db.tasks[id].status == s
  }

  function WithPriority(db: TaskStore, caller: UserId, p: Priority): set<TaskId> {
    set id | id in db.tasks && db.tasks[id].user == caller && db.tasks[id].priority == p
  }

  function Flagged(db: TaskStore, caller: UserId): set<TaskId> {
    set id | id in db.tasks && db.tasks[id].user == caller && db.tasks[id].isOverdue
  }

  /** The three statuses split the caller's tasks. */
  lemma StatusPartition(db: TaskStore, caller: UserId)
    ensures |WithStatus(db, caller, Pending)| + |WithStatus(db, caller, InProgress)|
            + |WithStatus(db, caller, Completed)| == |Owned(db, caller)|
  {
    var p, i, c := WithStatus(db, caller, Pending), WithStatus(db, caller, InProgress), WithStatus(db, caller, Completed);
    assert p * i == {};
    assert (p + i) * c == {};
    assert Owned(db, caller) == p + i + c;
  }

  /** The three priorities split the caller's tasks. */
  lemma PriorityPartition(db: TaskStore, caller: UserId)
    ensures |WithPriority(db, caller, Low)| + |WithPriority(db, caller, Medium)|
            + |WithPriority(db, caller, High)| == |Owned(db, caller)|
  {
    var l, m, h := WithPriority(db, caller, Low), WithPriority(db, caller, Medium), WithPriority(db, caller, High);
    assert l * m == {};
    assert (l + m) * h == {};
    assert Owned(db, caller) == l + m + h;
  }

  lemma FlaggedAreOwned(db: TaskStore, caller: UserId)
    ensures |Flagged(db, caller)| <= |Owned(db, caller)|
  {
    SubsetCard(Flagged(db, caller), Owned(db, caller));
  }

  lemma {:induction false} SubsetCard<T>(a: set<T>, b: set<T>)
    requires a <= b
    ensures |a| <= |b|
    decreases |b|
  {
    if a != {} {
      var x :| x in a;
      SubsetCard(a - {x}, b - {x});
    }
  }

  // ---------------------------------------------------------------------------
  // Rounding and the completion rate

  /** `Math.round(n / d)`: the integer nearest to n/d, halves rounded up. */
  function RoundRatio(n: int, d: int): (r: int)
    requires d > 0
    ensures 2 * d * r <= 2 * n + d < 2 * d * (r + 1)
  {
    (2 * n + d) / (2 * d)
  }

  /** The integer that `2dr <= 2n + d < 2d(r+1)` pins down is unique. */
  lemma RoundRatioUnique(n: int, d: int, r: int)
    requires d > 0
    requires 2 * d * r <= 2 * n + d < 2 * d * (r + 1)
    ensures r == RoundRatio(n, d)
  {
    var q := RoundRatio(n, d);
    MulMonotone(2 * d, r + 1, q);
    MulMonotone(2 * d, q + 1, r);
  }

  lemma MulMonotone(c: int, a: int, b: int)
    requires c > 0
    ensures a <= b <==> c * a <= c * b
  {
    if a <= b {
      assert c * b == c * a + c * (b - a);
    } else {
      assert c * a == c * b + c * (a - b);
    }
  }

  /** Shifting the numerator by a whole multiple of the denominator shifts the rounded value. */
  lemma RoundRatioShift(n: int, k: int, d: int)
    requires d > 0
    ensures RoundRatio(n + k * d, d) == RoundRatio(n, d) + k
  {
    var q := RoundRatio(n, d);
    assert 2 * d * (q + k) == 2 * d * q + 2 * k * d;
    assert 2 * d * (q + k + 1) == 2 * d * (q + 1) + 2 * k * d;
    RoundRatioUnique(n + k * d, d, q + k);
  }

  /** `completed / total * 100` rounded; 0 for a user without tasks. */
  function CompletionRate(completed: nat, total: nat): (r: int)
    ensures total == 0 ==> r == 0
    ensures total > 0 ==> 2 * total * r <= 200 * completed + total < 2 * total * (r + 1)
    ensures completed <= total ==> 0 <= r <= 100
  {
    if total > 0 then
      RoundRatioNonNegative(100 * completed, total);
      if completed <= total then
        RoundRatioAtMost(100 * completed, total, 100);
        RoundRatio(100 * completed, total)
      else
        RoundRatio(100 * completed, total)
    else 0
  }

  lemma RoundRatioNonNegative(n: int, d: int)
    requires d > 0
    ensures 0 <= n ==> 0 <= RoundRatio(n, d)
  {
    var r := RoundRatio(n, d);
    MulMonotone(2 * d, r + 1, 0);
  }

  /** A ratio of at most `hi` rounds to at most `hi`. */
  lemma RoundRatioAtMost(n: int, d: int, hi: int)
    requires d > 0 && n <= hi * d
    ensures RoundRatio(n, d) <= hi
  {
    var r := RoundRatio(n, d);
    MulMonotone(2 * d, hi + 1, r);
    assert 2 * d * (hi + 1) == 2 * (hi * d) + 2 * d;
  }

  // ---------------------------------------------------------------------------
  // The overview

  datatype Overview = Overview(
    totalTasks: nat,
    completedTasks: nat,
    pendingTasks: nat,
    inProgressTasks: nat,
    overdueTasks: nat,
    completionRate: int)

  /** GET /api/dashboard/overview. */
  function GetOverview(db: TaskStore, caller: UserId): (r: Overview)
    ensures r.totalTasks == |Owned(db, caller)|
    ensures r.completedTasks == |WithStatus(db, caller, Completed)|
    ensures r.pendingTasks == |WithStatus(db, caller, Pending)|
    ensures r.inProgressTasks == |WithStatus(db, caller, InProgress)|
    ensures r.overdueTasks == |Flagged(db, caller)|
    ensures r.pendingTasks + r.inProgressTasks + r.completedTasks == r.totalTasks
    ensures r.overdueTasks <= r.totalTasks
    ensures 0 <= r.completionRate <= 100
    ensures r.totalTasks == 0 ==> r.completionRate == 0
    ensures r.totalTasks > 0 ==>
      2 * r.totalTasks * r.completionRate <= 200 * r.completedTasks + r.totalTasks
                                          < 2 * r.totalTasks * (r.completionRate + 1)
  {
    StatusPartition(db, caller);
    FlaggedAreOwned(db, caller);
    var total := |Owned(db, caller)|;
    var completed := |WithStatus(db, caller, Completed)|;
    Overview(total, completed, |WithStatus(db, caller, Pending)|, |WithStatus(db, caller, InProgress)|,
             |Flagged(db, caller)|, CompletionRate(completed, total))
  }

  // ---------------------------------------------------------------------------
  // The productivity score

  /** The task-management part of the score, by number of tasks. */
  function VolumeBonus(total: nat): (r: int)
    ensures 10 <= r <= 40 && r % 10 == 0
  {
    if total <= 10 then 40
    else if total <= 30 then 30
    else if total <= 60 then 20
    else 10
  }

  /** The bonus takes only the four tier values, one per band of task counts, and
      never grows with the number of tasks. */
  lemma VolumeBonusTiers(t1: nat, t2: nat)
    ensures VolumeBonus(t1) in {10, 20, 30, 40}
    ensures t1 <= t2 ==> VolumeBonus(t2) <= VolumeBonus(t1)
    ensures VolumeBonus(t1) == 40 <==> t1 <= 10
    ensures VolumeBonus(t1) == 30 <==> 10 < t1 <= 30
    ensures VolumeBonus(t1) == 20 <==> 30 < t1 <= 60
    ensures VolumeBonus(t1) == 10 <==> t1 > 60
  {
  }

  /** `Math.round(completed / total * 60 + bonus - 5 * overdue)`, before clamping:
      the integer within half a unit of the exact value, halves rounded up. */
  function RawScore(completed: nat, total: nat, overdue: nat): (r: int)
    requires total > 0
    ensures var exact2t := 120 * completed + 2 * (VolumeBonus(total) - 5 * overdue) * total;
      2 * total * r - total <= exact2t < 2 * total * r + total
  {
    RoundRatio(60 * completed + (VolumeBonus(total) - 5 * overdue) * total, total)
  }

  /** `Math.max(0, Math.min(100, x))`. */
  function Clamp(x: int): (r: int)
    ensures 0 <= r <= 100
    ensures 0 <= x <= 100 ==> r == x
    ensures x < 0 ==> r == 0
    ensures x > 100 ==> r == 100
  {
    if x < 0 then 0 else if x > 100 then 100 else x
  }

  /** The final score of a user with `total` tasks. */
  function Score(completed: nat, total: nat, overdue: nat): (r: int)
    ensures 0 <= r <= 100
    ensures total == 0 ==> r == 0
  {
    if total > 0 then Clamp(RawScore(completed, total, overdue)) else 0
  }

  /** The closed form of the rounded score: the tier bonus and the overdue penalty
      enter as whole numbers, and only the completion part is rounded. */
  lemma ScoreFormula(completed: nat, total: nat, overdue: nat)
    requires total > 0
    ensures RawScore(completed, total, overdue)
         == VolumeBonus(total) - 5 * overdue + (120 * completed + total) / (2 * total)
  {
    var k := VolumeBonus(total) - 5 * overdue;
    RoundRatioShift(60 * completed, k, total);
  }

  /** Every further overdue task lowers the unclamped score by exactly 5. */
  lemma OverduePenalty(completed: nat, total: nat, overdue: nat)
    requires total > 0
    ensures RawScore(completed, total, overdue + 1) == RawScore(completed, total, overdue) - 5
  {
    ScoreFormula(completed, total, overdue);
    ScoreFormula(completed, total, overdue + 1);
  }

  /** More overdue tasks never raise the score. */
  lemma ScoreAntitoneInOverdue(completed: nat, total: nat, o1: nat, o2: nat)
    requires o1 <= o2
    ensures Score(completed, total, o2) <= Score(completed, total, o1)
  {
    if total > 0 {
      ScoreFormula(completed, total, o1);
      ScoreFormula(completed, total, o2);
    }
  }

  /** The reported level; each constructor is spelled as the string the API sends. */
  datatype Level = Beginner | Intermediate | Advanced | Expert

  function LevelOf(score: int): Level {
    if score >= 80 then Expert
    else if score >= 60 then Advanced
    else if score >= 40 then Intermediate
    else Beginner
  }

  /** The level's threshold bands: Expert from 80, Advanced from 60, Intermediate
      from 40, Beginner below. */
  lemma LevelThresholds(score: int)
    ensures LevelOf(score) == Expert <==> score >= 80
    ensures LevelOf(score) == Advanced <==> 60 <= score < 80
    ensures LevelOf(score) == Intermediate <==> 40 <= score < 60
    ensures LevelOf(score) == Beginner <==> score < 40
  {
  }

  function Rank(l: Level): nat {
    match l
    case Beginner => 0
    case Intermediate => 1
    case Advanced => 2
    case Expert => 3
  }

  /** The level is a step function of the score that never goes down as the score rises. */
  lemma LevelMonotone(s1: int, s2: int)
    requires s1 <= s2
    ensures Rank(LevelOf(s1)) <= Rank(LevelOf(s2))
    ensures LevelOf(s2) == Beginner ==> LevelOf(s1) == Beginner
    ensures LevelOf(s1) == Expert ==> LevelOf(s2) == Expert
  {
  }

  datatype ScoreReport = ScoreReport(
    score: int,
    level: Level,
    totalTasks: nat,
    completedTasks: nat,
    completionRate: int,
    overdueTasks: nat)

  /** GET /api/dashboard/productivity-score. */
  function GetProductivityScore(db: TaskStore, caller: UserId): (r: ScoreReport)
    ensures 0 <= r.score <= 100
    ensures r.level == LevelOf(r.score)
    ensures r.totalTasks == 0 ==> r.score == 0 && r.level == Beginner
    ensures r.completedTasks <= r.totalTasks && r.overdueTasks <= r.totalTasks
    ensures r.completionRate == GetOverview(db, caller).completionRate
    ensures r.totalTasks == GetOverview(db, caller).totalTasks
    ensures r.overdueTasks == GetOverview(db, caller).overdueTasks
    ensures r.completedTasks == GetOverview(db, caller).completedTasks
    ensures r.score == Score(r.completedTasks, r.totalTasks, r.overdueTasks)
  {
    var o := GetOverview(db, caller);
    var score := Score(o.completedTasks, o.totalTasks, o.overdueTasks);
    ScoreReport(score, LevelOf(score), o.totalTasks, o.completedTasks, o.completionRate, o.overdueTasks)
  }

  /** Worked cases: ten tasks all done; twenty of forty done with three overdue; and
      none of five done with ten overdue, whose raw score of -10 is clamped to 0. */
  lemma ScoreExamples()
    ensures Score(10, 10, 0) == 100 && LevelOf(100) == Expert
    ensures Score(20, 40, 3) == 35 && LevelOf(35) == Beginner
    ensures RawScore(0, 5, 10) == -10 && Score(0, 5, 10) == 0
    ensures CompletionRate(1, 3) == 33 && CompletionRate(2, 3) == 67 && CompletionRate(1, 8) == 13
  {
    ScoreFormula(10, 10, 0);
    ScoreFormula(20, 40, 3);
    ScoreFormula(0, 5, 10);
  }

  // ---------------------------------------------------------------------------
  // Statistics

  const Week: int := 7 * MsPerDay

  /** The start of the statistics window. `monthAgo` is the calendar date one month
      before `now`; any period other than "week" or "month" leaves the start at `now`. */
  function WindowStart(period: Option<string>, now: int, monthAgo: int): (r: int)
    ensures monthAgo <= now ==> r <= now
  {
    var p := period.GetOr("week");
    if p == "week" then now - Week
    else if p == "month" then monthAgo
    else now
  }

  /** An absent period is a week; "week" and "month" reach back, anything else does not. */
  lemma WindowStartCases(period: Option<string>, now: int, monthAgo: int)
    ensures WindowStart(None, now, monthAgo) == WindowStart(Some("week"), now, monthAgo) == now - 7 * 86400000
    ensures WindowStart(Some("month"), now, monthAgo) == monthAgo
    ensures period.Some? && period.value != "week" && period.value != "month" ==>
      WindowStart(period, now, monthAgo) == now
  {
  }

  function CompletedSince(db: TaskStore, caller: UserId, start: int): set<TaskId> {
    set id | id in db.tasks && db.tasks[id].user == caller && db.tasks[id].status == Completed
                && db.tasks[id].completedAt.Some? && db.tasks[id].completedAt.value >= start
  }

  function CreatedSince(db: TaskStore, caller: UserId, start: int): set<TaskId> {
    set id | id in db.tasks && db.tasks[id].user == caller && db.tasks[id].createdAt >= start
  }

  /** A window reaching further back counts at least as many tasks. */
  lemma WiderWindowCountsMore(db: TaskStore, caller: UserId, s1: int, s2: int)
    requires s1 <= s2
    ensures |CompletedSince(db, caller, s2)| <= |CompletedSince(db, caller, s1)|
    ensures |CreatedSince(db, caller, s2)| <= |CreatedSince(db, caller, s1)|
  {
    SubsetCard(CompletedSince(db, caller, s2), CompletedSince(db, caller, s1));
    SubsetCard(CreatedSince(db, caller, s2), CreatedSince(db, caller, s1));
  }

  /** The count for key `k`, 0 when the key is absent (a `$group` emits no empty groups). */
  function Tally<K>(m: map<K, nat>, k: K): nat {
    if k in m then m[k] else 0
  }

  /** `$group` by priority: the priorities present among the caller's tasks, with their counts. */
  function PriorityDistribution(db: TaskStore, caller: UserId): (m: map<Priority, nat>)
    ensures forall p :: p in m ==> m[p] > 0
    ensures forall p :: Tally(m, p) == |WithPriority(db, caller, p)|
    ensures Tally(m, Low) + Tally(m, Medium) + Tally(m, High) == |Owned(db, caller)|
  {
    PriorityPartition(db, caller);
    var m := map p | p in {Low, Medium, High} && |WithPriority(db, caller, p)| > 0 :: |WithPriority(db, caller, p)|;
    forall p ensures Tally(m, p) == |WithPriority(db, caller, p)| {
      assert p == Low || p == Medium || p == High;
    }
    m
  }

  /** `$group` by status: the statuses present among the caller's tasks, with their counts. */
  function StatusDistribution(db: TaskStore, caller: UserId): (m: map<Status, nat>)
    ensures forall s :: s in m ==> m[s] > 0
    ensures forall s :: Tally(m, s) == |WithStatus(db, caller, s)|
    ensures Tally(m, Pending) + Tally(m, InProgress) + Tally(m, Completed) == |Owned(db, caller)|
  {
    StatusPartition(db, caller);
    var m := map s | s in {Pending, InProgress, Completed} && |WithStatus(db, caller, s)| > 0 :: |WithStatus(db, caller, s)|;
    forall s ensures Tally(m, s) == |WithStatus(db, caller, s)| {
      assert s == Pending || s == InProgress || s == Completed;
    }
    m
  }

  // ---------------------------------------------------------------------------
  // The completion trend

  /** One `$group` result: a UTC calendar day and the number of completions on it. */
  datatype Bucket = Bucket(day: int, count: nat)

  /** The UTC day a timestamp falls on, as a day number; ordering day numbers orders
      the "%Y-%m-%d" keys the same way. */
  function DayKey(ms: int): int {
    ms / MsPerDay
  }

  /** A completion that the trend counts: the caller's, Completed, within the last 7 days. */
  predicate RecentCompletion(t: Task, caller: UserId, now: int) {
    t.user == caller && t.status == Completed && t.completedAt.Some? && t.completedAt.value >= now - Week
  }

  function RecentBelow(db: TaskStore, caller: UserId, now: int, k: nat): set<TaskId> {
    set id | id in db.tasks && id < k && RecentCompletion(db.tasks[id], caller, now)
  }

  function RecentOnDay(db: TaskStore, caller: UserId, now: int, k: nat, day: int): set<TaskId> {
    set id | id in db.tasks && id < k && RecentCompletion(db.tasks[id], caller, now)
                && DayKey(db.tasks[id].completedAt.value) == day
  }

  predicate BucketsAscending(bs: seq<Bucket>) {
    forall i, j :: 0 <= i < j < |bs| ==> bs[i].day < bs[j].day
  }

  predicate BucketsPositive(bs: seq<Bucket>) {
    forall i :: 0 <= i < |bs| ==> bs[i].count > 0
  }

  function DaysOf(bs: seq<Bucket>): set<int> {
    set i | 0 <= i < |bs| :: bs[i].day
  }

  function Total(bs: seq<Bucket>): nat {
    if bs == [] then 0 else bs[0].count + Total(bs[1..])
  }

  function CountOn(bs: seq<Bucket>, day: int): nat {
    if bs == [] then 0 else (if bs[0].day == day then bs[0].count else 0) + CountOn(bs[1..], day)
  }

  lemma DaysOfCons(b: Bucket, bs: seq<Bucket>)
    ensures DaysOf([b] + bs) == {b.day} + DaysOf(bs)
  {
    var r := [b] + bs;
    forall x | x in DaysOf(r) ensures x in {b.day} + DaysOf(bs) {
      var i :| 0 <= i < |r| && r[i].day == x;
      if i > 0 { assert bs[i - 1].day == x; }
    }
    forall x | x in DaysOf(bs) ensures x in DaysOf(r) {
      var i :| 0 <= i < |bs| && bs[i].day == x;
      assert r[i + 1].day == x;
    }
    assert r[0].day == b.day;
  }

  /** In ascending buckets the first day is below every later one. */
  lemma HeadIsLeast(bs: seq<Bucket>)
    requires BucketsAscending(bs) && |bs| > 0
    ensures forall x :: x in DaysOf(bs[1..]) ==> bs[0].day < x
  {
    forall x | x in DaysOf(bs[1..]) ensures bs[0].day < x {
      var i :| 0 <= i < |bs[1..]| && bs[1..][i].day == x;
      assert bs[i + 1].day == x;
    }
  }

  /** Putting a bucket in front of later days keeps the buckets sorted. */
  lemma ConsBucket(b: Bucket, rest: seq<Bucket>)
    requires BucketsAscending(rest) && BucketsPositive(rest) && b.count > 0
    requires forall x :: x in DaysOf(rest) ==> b.day < x
    ensures BucketsAscending([b] + rest) && BucketsPositive([b] + rest)
    ensures DaysOf([b] + rest) == {b.day} + DaysOf(rest)
  {
    DaysOfCons(b, rest);
    var r := [b] + rest;
    forall i, j | 0 <= i < j < |r| ensures r[i].day < r[j].day {
      assert r[j].day == rest[j - 1].day;
      assert r[j].day in DaysOf(rest);
      if i > 0 { assert r[i].day == rest[i - 1].day; }
    }
  }

  /** Splits sorted buckets into the first one and the later days. */
  lemma Uncons(bs: seq<Bucket>)
    requires BucketsAscending(bs) && BucketsPositive(bs) && |bs| > 0
    ensures BucketsAscending(bs[1..]) && BucketsPositive(bs[1..]) && bs[0].count > 0
    ensures forall x :: x in DaysOf(bs[1..]) ==> bs[0].day < x
    ensures DaysOf(bs) == {bs[0].day} + DaysOf(bs[1..])
  {
    assert bs == [bs[0]] + bs[1..];
    DaysOfCons(bs[0], bs[1..]);
    HeadIsLeast(bs);
  }

  /** Counts one more completion on `day`, keeping the buckets sorted by day. */
  function AddCompletion(bs: seq<Bucket>, day: int): (r: seq<Bucket>)
    requires BucketsAscending(bs) && BucketsPositive(bs)
    ensures BucketsAscending(r) && BucketsPositive(r)
    ensures DaysOf(r) == DaysOf(bs) + {day}
  {
    if bs == [] then
      ConsBucket(Bucket(day, 1), []);
      [Bucket(day, 1)] + []
    else
      Uncons(bs);
      if bs[0].day == day then
        ConsBucket(Bucket(day, bs[0].count + 1), bs[1..]);
        [Bucket(day, bs[0].count + 1)] + bs[1..]
      else if day < bs[0].day then
        ConsBucket(Bucket(day, 1), bs);
        [Bucket(day, 1)] + bs
      else
        var tail := AddCompletion(bs[1..], day);
        ConsBucket(bs[0], tail);
        [bs[0]] + tail
  }

  /** Adding a completion on `day` adds one to that day's count and to the total,
      and leaves every other day's count alone. */
  lemma {:induction false} AddCompletionCounts(bs: seq<Bucket>, day: int)
    requires BucketsAscending(bs) && BucketsPositive(bs)
    ensures Total(AddCompletion(bs, day)) == Total(bs) + 1
    ensures forall d :: CountOn(AddCompletion(bs, day), d) == CountOn(bs, d) + (if d == day then 1 else 0)
  {
    var r := AddCompletion(bs, day);
    if bs == [] {
      assert r[1..] == [];
    } else if bs[0].day == day {
      assert r[1..] == bs[1..];
    } else if day < bs[0].day {
      assert r[1..] == bs;
    } else {
      assert r[1..] == AddCompletion(bs[1..], day);
      AddCompletionCounts(bs[1..], day);
    }
  }

  /** Going from the ids below `k` to those below `k + 1` adds `k` exactly when it is
      a recent completion, and then only to the count of its own day. */
  lemma RecentStep(db: TaskStore, caller: UserId, now: int, k: nat)
    ensures var hit := k in db.tasks && RecentCompletion(db.tasks[k], caller, now);
      |RecentBelow(db, caller, now, k + 1)| == |RecentBelow(db, caller, now, k)| + (if hit then 1 else 0)
  {
    var hit := k in db.tasks && RecentCompletion(db.tasks[k], caller, now);
    assert RecentBelow(db, caller, now, k + 1) == RecentBelow(db, caller, now, k) + (if hit then {k} else {});
  }

  lemma RecentOnDayStep(db: TaskStore, caller: UserId, now: int, k: nat, d: int)
    ensures var hit := k in db.tasks && RecentCompletion(db.tasks[k], caller, now)
                       && DayKey(db.tasks[k].completedAt.value) == d;
      |RecentOnDay(db, caller, now, k + 1, d)| == |RecentOnDay(db, caller, now, k, d)| + (if hit then 1 else 0)
  {
    var hit := k in db.tasks && RecentCompletion(db.tasks[k], caller, now)
               && DayKey(db.tasks[k].completedAt.value) == d;
    assert RecentOnDay(db, caller, now, k + 1, d) == RecentOnDay(db, caller, now, k, d) + (if hit then {k} else {});
  }

  /** The trend over the ids below `k`, in id order. */
  function TrendBelow(db: TaskStore, caller: UserId, now: int, k: nat): (r: seq<Bucket>)
    ensures BucketsAscending(r) && BucketsPositive(r)
  {
    if k == 0 then []
    else
      var prev := TrendBelow(db, caller, now, k - 1);
      var id := k - 1;
      if id in db.tasks && RecentCompletion(db.tasks[id], caller, now)
      then AddCompletion(prev, DayKey(db.tasks[id].completedAt.value))
      else prev
  }

  /** The buckets over the ids below `k` count exactly the recent completions among
      them, in total and day by day. */
  lemma {:induction false} TrendBelowCounts(db: TaskStore, caller: UserId, now: int, k: nat)
    ensures Total(TrendBelow(db, caller, now, k)) == |RecentBelow(db, caller, now, k)|
    ensures forall d :: CountOn(TrendBelow(db, caller, now, k), d) == |RecentOnDay(db, caller, now, k, d)|
  {
    if k == 0 {
      assert RecentBelow(db, caller, now, 0) == {};
      forall d ensures RecentOnDay(db, caller, now, 0, d) == {} { }
    } else {
      var id := k - 1;
      var prev := TrendBelow(db, caller, now, id);
      TrendBelowCounts(db, caller, now, id);
      RecentStep(db, caller, now, id);
      forall d ensures CountOn(TrendBelow(db, caller, now, k), d) == |RecentOnDay(db, caller, now, k, d)| {
        RecentOnDayStep(db, caller, now, id, d);
        if id in db.tasks && RecentCompletion(db.tasks[id], caller, now) {
          AddCompletionCounts(prev, DayKey(db.tasks[id].completedAt.value));
        }
      }
      if id in db.tasks && RecentCompletion(db.tasks[id], caller, now) {
        AddCompletionCounts(prev, DayKey(db.tasks[id].completedAt.value));
      }
    }
  }

  /** The trend of completions per day over the last 7 days, days ascending. */
  function CompletionTrend(db: TaskStore, caller: UserId, now: int): (r: seq<Bucket>)
    ensures BucketsAscending(r) && BucketsPositive(r)
  {
    TrendBelow(db, caller, now, db.nextId)
  }

  /** In a valid store the trend's buckets add up to the caller's completions of the
      last 7 days, which is the week's `completedInPeriod`, and each day's bucket
      holds exactly that day's completions. */
  lemma TrendCountsRecentCompletions(db: TaskStore, caller: UserId, now: int, monthAgo: int)
    requires StoreValid(db)
    ensures Total(CompletionTrend(db, caller, now))
         == |CompletedSince(db, caller, WindowStart(None, now, monthAgo))|
    ensures forall d :: (CountOn(CompletionTrend(db, caller, now), d)
      == |set id | id in CompletedSince(db, caller, now - Week) && DayKey(db.tasks[id].completedAt.value) == d|)
  {
    TrendBelowCounts(db, caller, now, db.nextId);
    assert RecentBelow(db, caller, now, db.nextId) == CompletedSince(db, caller, WindowStart(None, now, monthAgo));
    forall d
      ensures RecentOnDay(db, caller, now, db.nextId, d) ==
        set id | id in CompletedSince(db, caller, now - Week) && DayKey(db.tasks[id].completedAt.value) == d
    {
    }
  }

  datatype Statistics = Statistics(
    period: string,
    completedInPeriod: nat,
    createdInPeriod: nat,
    priorityDistribution: map<Priority, nat>,
    statusDistribution: map<Status, nat>,
    completionTrend: seq<Bucket>)

  /** GET /api/dashboard/statistics at time `now`. */
  function GetStatistics(db: TaskStore, caller: UserId, period: Option<string>, now: int, monthAgo: int): (r: Statistics)
    ensures r.period == period.GetOr("week")
    ensures r.completedInPeriod <= |Owned(db, caller)| && r.createdInPeriod <= |Owned(db, caller)|
    ensures BucketsAscending(r.completionTrend)
    ensures Tally(r.statusDistribution, Completed) >= r.completedInPeriod
  {
    var start := WindowStart(period, now, monthAgo);
    SubsetCard(CompletedSince(db, caller, start), Owned(db, caller));
    SubsetCard(CreatedSince(db, caller, start), Owned(db, caller));
    SubsetCard(CompletedSince(db, caller, start), WithStatus(db, caller, Completed));
    Statistics(
      period.GetOr("week"),
      |CompletedSince(db, caller, start)|,
      |CreatedSince(db, caller, start)|,
      PriorityDistribution(db, caller),
      StatusDistribution(db, caller),
      CompletionTrend(db, caller, now))
  }

  /** The two dashboard endpoints agree: the status distribution counts what the
      overview counts, both distributions cover every task of the caller, and over
      the default week window the completion trend adds up to the completions counted
      for the period. */
  lemma StatisticsAgreeWithOverview(db: TaskStore, caller: UserId, period: Option<string>, now: int, monthAgo: int)
    ensures var s := GetStatistics(db, caller, period, now, monthAgo);
      var o := GetOverview(db, caller);
      && Tally(s.statusDistribution, Pending) == o.pendingTasks
      && Tally(s.statusDistribution, InProgress) == o.inProgressTasks
      && Tally(s.statusDistribution, Completed) == o.completedTasks
      && Tally(s.priorityDistribution, Low) + Tally(s.priorityDistribution, Medium)
         + Tally(s.priorityDistribution, High) == o.totalTasks
      && s.completedInPeriod <= o.completedTasks
    ensures StoreValid(db) && (period.None? || period == Some("week")) ==>
      var s := GetStatistics(db, caller, period, now, monthAgo);
      s.completedInPeriod == Total(s.completionTrend)
  {
    if StoreValid(db) {
      TrendCountsRecentCompletions(db, caller, now, monthAgo);
    }
  }
}
