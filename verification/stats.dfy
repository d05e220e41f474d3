/** `getStats`: aggregates over the sessions inside an inclusive date window,
    and the streak walk over them in chronological order. */
module Stats {
  import opened Optional
  import opened Records
  import opened Ordering
  import opened MemStorage

  datatype StreakKind = Win | Loss

  datatype Streak = Streak(kind: StreakKind, count: nat)

  /** What the streak walk reports. */
  datatype StreakReport = StreakReport(current: Streak, longestWin: nat, longestLoss: nat)

  datatype StatsReport = StatsReport(
    totalSessions: nat,
    totalHours: real,
    netProfit: real,
    winRate: real,
    hourlyRate: real,
    biggestWin: real,
    biggestLoss: real,
    currentStreak: Streak,
    longestWinStreak: nat,
    longestLossStreak: nat)

  /** What `getStats` reports for a window without sessions. */
  const NoStats := StatsReport(0, 0.0, 0.0, 0.0, 0.0, 0.0, 0.0, Streak(Win, 0), 0, 0)

  /** Only a positive profit is a win; break-even is not. */
  predicate IsWin(s: Session) {
    s.profit > 0.0
  }

  function KindOf(win: bool): StreakKind {
    if win then Win else Loss
  }

  function MaxNat(a: nat, b: nat): nat {
    if a < b then b else a
  }

  // ------------------------------------------------------------- the window

  /** The sessions in the window, in insertion order; with neither bound
      given the source skips the filter altogether. */
  function Window(s: seq<Session>, from: Option<Time>, to: Option<Time>): (r: seq<Session>)
    ensures forall x :: x in r <==> x in s && InDateRange(x, from, to)
    ensures multiset(r) <= multiset(s)
  {
    if from.Some? || to.Some? then
      FilterMembers(s, InWindow(from, to));
      Filter(s, InWindow(from, to))
    else s
  }

  /** The window test as a predicate value. */
  function InWindow(from: Option<Time>, to: Option<Time>): Session -> bool {
    (x: Session) => InDateRange(x, from, to)
  }

  /** The window holds as many sessions as lie in the date range. */
  lemma WindowCount(s: seq<Session>, from: Option<Time>, to: Option<Time>)
    ensures |Window(s, from, to)| == Count(s, InWindow(from, to))
  {
    if from.Some? || to.Some? {
      FilterCount(s, InWindow(from, to));
    } else {
      CountAll(s, InWindow(from, to));
    }
  }

  // ------------------------------------------------------ sums and extremes

  /** `reduce((sum, x) => sum + f(x), 0)`, folded from the left. */
  function Sum(s: seq<Session>, f: Session -> real): real {
    if |s| == 0 then 0.0 else Sum(s[..|s| - 1], f) + f(s[|s| - 1])
  }

  function Hours(x: Session): real { x.hours }
  function Profit(x: Session): real { x.profit }
  function BuyIn(x: Session): real { x.buyIn }
  function CashOut(x: Session): real { x.cashOut }

  /** The fold splits over a concatenation, so the total does not depend on
      how the list is cut into parts. */
  lemma {:induction false} SumAppend(a: seq<Session>, b: seq<Session>, f: Session -> real)
    ensures Sum(a + b, f) == Sum(a, f) + Sum(b, f)
    decreases |b|
  {
    if |b| > 0 {
      var b' := b[..|b| - 1];
      assert (a + b)[..|a + b| - 1] == a + b';
      SumAppend(a, b', f);
    } else {
      assert a + b == a;
    }
  }

  /** A one-session list sums to that session's value. */
  lemma SumSingle(x: Session, f: Session -> real)
    ensures Sum([x], f) == f(x)
  {
    assert [x][..0] == [];
  }

  /** Net profit of consistent sessions is total cash-out minus total buy-in. */
  lemma {:induction false} SumProfitIsCashOutMinusBuyIn(s: seq<Session>)
    requires forall i :: 0 <= i < |s| ==> Consistent(s[i])
    ensures Sum(s, Profit) == Sum(s, CashOut) - Sum(s, BuyIn)
  {
    if |s| > 0 {
      SumProfitIsCashOutMinusBuyIn(s[..|s| - 1]);
      assert Consistent(s[|s| - 1]);
    }
  }

  /** `filter((session) => session.profit > 0).length`: the number of
      sessions with a positive profit. */
  function WinCount(s: seq<Session>): (r: nat)
    ensures r == Count(s, IsWin)
    ensures r <= |s|
    ensures r == 0 <==> forall i :: 0 <= i < |s| ==> !IsWin(s[i])
    ensures r == |s| <==> forall i :: 0 <= i < |s| ==> IsWin(s[i])
  {
    FilterCount(s, IsWin);
    CountNone(s, IsWin);
    CountAll(s, IsWin);
    |Filter(s, IsWin)|
  }

  /** `Math.max(...profits)` on a non-empty list. */
  function MaxProfit(s: seq<Session>): (r: real)
    requires |s| > 0
    ensures forall i :: 0 <= i < |s| ==> s[i].profit <= r
    ensures exists i :: 0 <= i < |s| && s[i].profit == r
  {
    if |s| == 1 then s[0].profit
    else
      var m := MaxProfit(s[1..]);
      assert forall i :: 1 <= i < |s| ==> s[i] == s[1..][i - 1];
      if s[0].profit < m then m else s[0].profit
  }

  /** `Math.min(...profits)` on a non-empty list. */
  function MinProfit(s: seq<Session>): (r: real)
    requires |s| > 0
    ensures forall i :: 0 <= i < |s| ==> r <= s[i].profit
    ensures exists i :: 0 <= i < |s| && s[i].profit == r
  {
    if |s| == 1 then s[0].profit
    else
      var m := MinProfit(s[1..]);
      assert forall i :: 1 <= i < |s| ==> s[i] == s[1..][i - 1];
      if m < s[0].profit then m else s[0].profit
  }

  // -------------------------------------------------------------- streaks

  /** Win flags of a list of sessions. */
  function WinFlags(s: seq<Session>): (w: seq<bool>)
    ensures |w| == |s|
    ensures forall i :: 0 <= i < |s| ==> w[i] == IsWin(s[i])
  {
    seq(|s|, i requires 0 <= i < |s| => IsWin(s[i]))
  }

  /** Length of the maximal run at the end of `w` sharing its last flag. */
  function TrailingRun(w: seq<bool>): (c: nat)
    ensures |w| == 0 ==> c == 0
    ensures |w| > 0 ==> 1 <= c <= |w|
    ensures forall m :: |w| - c <= m < |w| ==> w[m] == w[|w| - 1]
    ensures c < |w| ==> w[|w| - 1 - c] != w[|w| - 1]
  {
    if |w| == 0 then 0
    else if |w| >= 2 && w[|w| - 2] == w[|w| - 1] then 1 + TrailingRun(w[..|w| - 1])
    else 1
  }

  /** A count that covers a same-flag suffix and stops at the first flag
      change is the trailing run. */
  lemma TrailingRunUnique(w: seq<bool>, c: nat)
    requires 1 <= c <= |w|
    requires forall m :: |w| - c <= m < |w| ==> w[m] == w[|w| - 1]
    requires c < |w| ==> w[|w| - 1 - c] != w[|w| - 1]
    ensures c == TrailingRun(w)
  {
  }

  /** The report of the source's walk: the trailing run, of the newest
      session's kind, and longest counters that only ever saw that run. */
  function StreakSummary(w: seq<bool>): StreakReport {
    if |w| == 0 then StreakReport(Streak(Win, 0), 0, 0)
    else
      var kind := KindOf(w[|w| - 1]);
      var c := TrailingRun(w);
      StreakReport(Streak(kind, c), if kind == Win then c else 0, if kind == Loss then c else 0)
  }

  /** The loop of `getStats` over chronologically sorted sessions, as
      written: it walks from the newest session backwards and leaves the loop
      at the first change of sign, before the longest-streak counters are
      updated for that session, so they never see an earlier run. */
  method StreakWalk(sorted: seq<Session>) returns (report: StreakReport)
    ensures report == StreakSummary(WinFlags(sorted))
  {
    ghost var w := WinFlags(sorted);
    var n := |sorted|;
    var kind := Win;
    var count: nat := 0;
    var longestWin: nat := 0;
    var longestLoss: nat := 0;
    var tempWin: nat := 0;
    var tempLoss: nat := 0;
    var i := n - 1;
    while i >= 0
      invariant -1 <= i <= n - 1
      invariant count == n - 1 - i
      invariant i == n - 1 ==> kind == Win
      invariant i < n - 1 ==> kind == KindOf(w[n - 1])
      invariant forall m :: i < m < n ==> w[m] == w[n - 1]
      invariant tempWin == (if kind == Win then count else 0)
      invariant tempLoss == (if kind == Loss then count else 0)
      invariant longestWin == tempWin && longestLoss == tempLoss
    {
      var isWin := sorted[i].profit > 0.0;
      if i == n - 1 {
        kind := if isWin then Win else Loss;
        count := 1;
      } else {
        if (kind == Win && isWin) || (kind == Loss && !isWin) {
          count := count + 1;
        } else {
          break;
        }
      }
      if isWin {
        tempWin := tempWin + 1;
        tempLoss := 0;
        longestWin := MaxNat(longestWin, tempWin);
      } else {
        tempLoss := tempLoss + 1;
        tempWin := 0;
        longestLoss := MaxNat(longestLoss, tempLoss);
      }
      i := i - 1;
    }
    assert |w| == n;
    if n > 0 {
      TrailingRunUnique(w, count);
    }
    report := StreakReport(Streak(kind, count), longestWin, longestLoss);
  }

  /** Length of the run of `b` flags starting at position `i`. */
  function RunFrom(w: seq<bool>, i: nat, b: bool): (r: nat)
    requires i <= |w|
    ensures i + r <= |w|
    decreases |w| - i
  {
    if i == |w| || w[i] != b then 0 else 1 + RunFrom(w, i + 1, b)
  }

  /** Longest run of `b` flags starting at or after position `i`. */
  function LongestFrom(w: seq<bool>, i: nat, b: bool): nat
    requires i <= |w|
    decreases |w| - i
  {
    if i == |w| then 0 else MaxNat(RunFrom(w, i, b), LongestFrom(w, i + 1, b))
  }

  /** Longest run of `b` flags anywhere in `w`: the full-history streak. */
  function LongestRun(w: seq<bool>, b: bool): nat {
    LongestFrom(w, 0, b)
  }

  /** A segment of `w` made of `b` flags only. */
  predicate AllOf(w: seq<bool>, lo: int, hi: int, b: bool)
    requires 0 <= lo <= hi <= |w|
  {
    forall m :: lo <= m < hi ==> w[m] == b
  }

  /** A run of `len` flags `b` starts at position `j`. */
  predicate RunAt(w: seq<bool>, j: int, len: nat, b: bool) {
    0 <= j <= |w| - len && AllOf(w, j, j + len, b)
  }

  lemma {:induction false} RunFromIsMaximal(w: seq<bool>, i: nat, hi: nat, b: bool)
    requires i <= hi <= |w|
    ensures AllOf(w, i, i + RunFrom(w, i, b), b)
    ensures AllOf(w, i, hi, b) ==> hi - i <= RunFrom(w, i, b)
    decreases |w| - i
  {
    if i < |w| && w[i] == b {
      if i + 1 <= hi {
        RunFromIsMaximal(w, i + 1, hi, b);
      } else {
        RunFromIsMaximal(w, i + 1, i + 1, b);
      }
    }
  }

  lemma {:induction false} LongestFromIsMaximal(w: seq<bool>, i: nat, lo: nat, hi: nat, b: bool)
    requires i <= lo <= hi <= |w|
    ensures AllOf(w, lo, hi, b) ==> hi - lo <= LongestFrom(w, i, b)
    ensures exists j :: i <= j && RunAt(w, j, LongestFrom(w, i, b), b)
    decreases |w| - i
  {
    if i == |w| {
      assert RunAt(w, i, 0, b);
    } else {
      RunFromIsMaximal(w, i, hi, b);
      if lo == i {
        LongestFromIsMaximal(w, i + 1, i + 1, i + 1, b);
      } else {
        LongestFromIsMaximal(w, i + 1, lo, hi, b);
      }
      if RunFrom(w, i, b) < LongestFrom(w, i + 1, b) {
        var j :| i + 1 <= j && RunAt(w, j, LongestFrom(w, i + 1, b), b);
        assert RunAt(w, j, LongestFrom(w, i, b), b);
      } else {
        assert RunAt(w, i, LongestFrom(w, i, b), b);
      }
    }
  }

  /** LongestRun is the length of the longest same-flag segment: no segment
      of `b` flags is longer, and one that long exists. */
  lemma LongestRunIsMaximal(w: seq<bool>, b: bool)
    ensures forall lo, hi :: 0 <= lo <= hi <= |w| && AllOf(w, lo, hi, b) ==> hi - lo <= LongestRun(w, b)
    ensures exists j :: RunAt(w, j, LongestRun(w, b), b)
  {
    forall lo, hi | 0 <= lo <= hi <= |w| && AllOf(w, lo, hi, b)
      ensures hi - lo <= LongestRun(w, b)
    {
      LongestFromIsMaximal(w, 0, lo, hi, b);
    }
    LongestFromIsMaximal(w, 0, 0, 0, b);
  }

  /** The variables of the repaired walk. */
  datatype WalkState = WalkState(
    kind: StreakKind, count: nat, open: bool,
    longestWin: nat, longestLoss: nat, tempWin: nat, tempLoss: nat)

  /** One iteration of the repaired walk on a session that won or not: a
      sign change closes the current streak instead of leaving the loop,
      and the longest-streak counters are updated every time. */
  function FixedStep(s: WalkState, isWin: bool): WalkState {
    var s1 :=
      if !s.open then s
      else if (s.kind == Win) == isWin then s.(count := s.count + 1)
      else s.(open := false);
    if isWin then
      s1.(tempWin := s1.tempWin + 1, tempLoss := 0, longestWin := MaxNat(s1.longestWin, s1.tempWin + 1))
    else
      s1.(tempLoss := s1.tempLoss + 1, tempWin := 0, longestLoss := MaxNat(s1.longestLoss, s1.tempLoss + 1))
  }

  /** After visiting positions i+1 .. n-1 of `w` (newest last): the current
      streak is still open and spans them all, or it was closed by the flag
      just before it. */
  ghost predicate CurrentSoFar(w: seq<bool>, i: int, s: WalkState)
    requires 0 < |w| && -1 <= i < |w|
  {
    var n := |w|;
    && s.kind == KindOf(w[n - 1])
    && (s.open ==> s.count == n - 1 - i && forall m :: i < m < n ==> w[m] == w[n - 1])
    && (!s.open ==> 1 <= s.count && i < n - 1 - s.count && w[n - 1 - s.count] != w[n - 1])
    && (!s.open ==> forall m :: n - s.count <= m < n ==> w[m] == w[n - 1])
  }

  /** After visiting positions i+1 .. n-1 of `w`: the running counters are
      the runs starting at i+1 and the longest counters the longest runs
      from there on. */
  ghost predicate RunsSoFar(w: seq<bool>, i: int, s: WalkState)
    requires -1 <= i < |w|
  {
    && s.tempWin == RunFrom(w, i + 1, true) && s.tempLoss == RunFrom(w, i + 1, false)
    && s.longestWin == LongestFrom(w, i + 1, true) && s.longestLoss == LongestFrom(w, i + 1, false)
  }

  lemma CurrentStep(w: seq<bool>, i: nat, s: WalkState)
    requires i < |w| && CurrentSoFar(w, i, s)
    ensures CurrentSoFar(w, i - 1, FixedStep(s, w[i]))
  {
  }

  lemma RunsStep(w: seq<bool>, i: nat, s: WalkState)
    requires i < |w| && RunsSoFar(w, i, s)
    ensures RunsSoFar(w, i - 1, FixedStep(s, w[i]))
  {
  }

  /** Once every position has been visited the state holds the trailing
      run and the longest runs of the whole list. */
  lemma WalkDone(w: seq<bool>, s: WalkState)
    requires 0 < |w| && CurrentSoFar(w, -1, s) && RunsSoFar(w, -1, s)
    ensures Streak(s.kind, s.count) == StreakSummary(w).current
    ensures s.longestWin == LongestRun(w, true) && s.longestLoss == LongestRun(w, false)
  {
    TrailingRunUnique(w, s.count);
  }

  /** The walk with the early exit repaired: a sign change only closes the
      current streak, and the walk goes on to the oldest session so that the
      longest-streak counters see every run. */
  method StreakWalkFixed(sorted: seq<Session>) returns (report: StreakReport)
    ensures report.current == StreakSummary(WinFlags(sorted)).current
    ensures report.longestWin == LongestRun(WinFlags(sorted), true)
    ensures report.longestLoss == LongestRun(WinFlags(sorted), false)
  {
    report := FixedWalk(WinFlags(sorted));
  }

  /** The repaired walk over the win flags of the sessions, oldest first. */
  method FixedWalk(w: seq<bool>) returns (report: StreakReport)
    ensures report.current == StreakSummary(w).current
    ensures report.longestWin == LongestRun(w, true)
    ensures report.longestLoss == LongestRun(w, false)
  {
    var n := |w|;
    if n == 0 {
      return StreakReport(Streak(Win, 0), 0, 0);
    }
    var state := WalkState(KindOf(w[n - 1]), 0, true, 0, 0, 0, 0);
    var i := n - 1;
    while i >= 0
      invariant -1 <= i <= n - 1
      invariant CurrentSoFar(w, i, state)
      invariant RunsSoFar(w, i, state)
    {
      CurrentStep(w, i, state);
      RunsStep(w, i, state);
      state := FixedStep(state, w[i]);
      i := i - 1;
    }
    assert i == -1;
    WalkDone(w, state);
    report := StreakReport(Streak(state.kind, state.count), state.longestWin, state.longestLoss);
  }

  /** The walk as written and the full-history reading part ways on the
      profits +100, +50, -30, +20 in date order: the walk reports a current
      win streak of 1 with longest win and loss streaks 1 and 0, while the
      longest runs in the history are 2 wins and 1 loss. */
  lemma WalkMissesEarlierRuns()
    ensures var w := [true, true, false, true];
            && StreakSummary(w) == StreakReport(Streak(Win, 1), 1, 0)
            && LongestRun(w, true) == 2 && LongestRun(w, false) == 1
  {
    var w := [true, true, false, true];
    assert TrailingRun(w) == 1;
    assert RunFrom(w, 3, true) == 1 && RunFrom(w, 2, true) == 0;
    assert RunFrom(w, 1, true) == 1 && RunFrom(w, 0, true) == 2;
    assert RunFrom(w, 3, false) == 0 && RunFrom(w, 2, false) == 1;
    assert RunFrom(w, 1, false) == 0 && RunFrom(w, 0, false) == 0;
  }

  // ------------------------------------------------------------ the report

  function DateKey(s: Session): int { s.date }

  /** Oldest first; equal dates keep insertion order. */
  function Chronological(s: seq<Session>): (r: seq<Session>)
    ensures multiset(r) == multiset(s)
    ensures |r| == |s|
    ensures forall i, j :: 0 <= i < j < |r| ==> r[i].date <= r[j].date
  {
    SortBy(s, DateKey)
  }

  /** Scaling by a positive factor keeps a strict order, either way round. */
  lemma MulStrictMono(x: real, y: real, t: real)
    requires t > 0.0
    ensures x > y ==> x * t > y * t
    ensures x < y ==> x * t < y * t
  {
    if x > y {
      assert (x - y) * t > 0.0;
    } else if x < y {
      assert (y - x) * t > 0.0;
    }
  }

  /** `totalSessions > 0 ? wins / totalSessions * 100 : 0`: the percentage
      of winning sessions, 0 for none. */
  function WinRate(wins: nat, total: nat): (r: real)
    requires wins <= total
    ensures 0.0 <= r <= 100.0
    ensures total > 0 ==> r * (total as real) == (wins as real) * 100.0
    ensures wins == 0 ==> r == 0.0
    ensures 0 < total == wins ==> r == 100.0
  {
    if total > 0 then
      var ratio := (wins as real) / (total as real);
      assert ratio * (total as real) == wins as real;
      MulStrictMono(ratio, 1.0, total as real);
      MulStrictMono(ratio, 0.0, total as real);
      ratio * 100.0
    else 0.0
  }

  /** `totalHours > 0 ? netProfit / totalHours : 0`. */
  function PerHour(amount: real, hours: real): (r: real)
    ensures hours > 0.0 ==> r * hours == amount
    ensures hours <= 0.0 ==> r == 0.0
  {
    if hours > 0.0 then amount / hours else 0.0
  }

  /** `getStats(dateFrom, dateTo)`.  The win rate is a percentage and 0 for
      an empty window, the hourly rate is 0 unless some hours were played,
      and an empty window reports zeros and a "win" streak of 0. */
  function GetStats(st: Store, from: Option<Time>, to: Option<Time>): (r: StatsReport)
    ensures r.totalSessions == |Window(st.sessions, from, to)|
    ensures r.totalHours == Sum(Window(st.sessions, from, to), Hours)
    ensures r.netProfit == Sum(Window(st.sessions, from, to), Profit)
    ensures r.totalSessions == 0 ==> r == NoStats
    ensures 0.0 <= r.winRate <= 100.0
    ensures r.totalHours <= 0.0 ==> r.hourlyRate == 0.0
    ensures r.totalHours > 0.0 ==> r.hourlyRate == PerHour(r.netProfit, r.totalHours)
    ensures r.totalSessions > 0 ==>
              r.winRate == WinRate(Count(Window(st.sessions, from, to), IsWin), r.totalSessions)
    ensures r.biggestLoss <= r.biggestWin
    ensures var report := StreakSummary(WinFlags(Chronological(Window(st.sessions, from, to))));
            && r.currentStreak == report.current
            && r.longestWinStreak == report.longestWin && r.longestLossStreak == report.longestLoss
  {
    var w := Window(st.sessions, from, to);
    var total := |w|;
    var totalHours := Sum(w, Hours);
    var netProfit := Sum(w, Profit);
    var wins := WinCount(w);
    var winRate := WinRate(wins, total);
    var hourlyRate := PerHour(netProfit, totalHours);
    var biggestWin := if total > 0 then MaxProfit(w) else 0.0;
    var biggestLoss := if total > 0 then MinProfit(w) else 0.0;
    var streaks := StreakSummary(WinFlags(Chronological(w)));
    assert total > 0 ==> MinProfit(w) <= w[0].profit <= MaxProfit(w);
    StatsReport(total, totalHours, netProfit, winRate, hourlyRate, biggestWin, biggestLoss,
          streaks.current, streaks.longestWin, streaks.longestLoss)
  }

  /** `getStats` as the source runs it, with the streak loop itself. */
  method ComputeStats(st: Store, from: Option<Time>, to: Option<Time>) returns (r: StatsReport)
    ensures r == GetStats(st, from, to)
  {
    var w := Window(st.sessions, from, to);
    var total := |w|;
    var totalHours := Sum(w, Hours);
    var netProfit := Sum(w, Profit);
    var wins := WinCount(w);
    var winRate := WinRate(wins, total);
    var hourlyRate := PerHour(netProfit, totalHours);
    var biggestWin := if total > 0 then MaxProfit(w) else 0.0;
    var biggestLoss := if total > 0 then MinProfit(w) else 0.0;
    var streaks := StreakWalk(Chronological(w));
    r := StatsReport(total, totalHours, netProfit, winRate, hourlyRate, biggestWin, biggestLoss,
               streaks.current, streaks.longestWin, streaks.longestLoss);
  }

  /** `totalSessions` is the number of stored sessions whose date lies in
      the inclusive window; an absent bound is open. */
  lemma StatsCount(st: Store, from: Option<Time>, to: Option<Time>)
    ensures GetStats(st, from, to).totalSessions == Count(st.sessions, InWindow(from, to))
  {
    WindowCount(st.sessions, from, to);
  }

  /** Recording a session grows the all-time statistics by exactly that
      session: one more session, its hours and its profit. */
  lemma StatsAfterCreate(st: Store, input: SessionInput, now: Time)
    ensures var before := GetStats(st, None, None);
            var after := GetStats(CreateSession(st, input, now).0, None, None);
            && after.totalSessions == before.totalSessions + 1
            && after.totalHours == before.totalHours + input.hours
            && after.netProfit == before.netProfit + (input.cashOut - input.buyIn)
  {
    var x := CreateSession(st, input, now).1;
    SumAppend(st.sessions, [x], Hours);
    SumAppend(st.sessions, [x], Profit);
    SumSingle(x, Hours);
    SumSingle(x, Profit);
  }

  /** Biggest win and loss are the largest and smallest profit in the
      window, each attained by some session in it. */
  lemma StatsExtremes(st: Store, from: Option<Time>, to: Option<Time>)
    ensures var w := Window(st.sessions, from, to);
            var r := GetStats(st, from, to);
            && (forall x :: x in w ==> r.biggestLoss <= x.profit <= r.biggestWin)
            && (|w| > 0 ==> exists x :: x in w && x.profit == r.biggestWin)
            && (|w| > 0 ==> exists x :: x in w && x.profit == r.biggestLoss)
  {
    var w := Window(st.sessions, from, to);
    if |w| > 0 {
      var i :| 0 <= i < |w| && w[i].profit == MaxProfit(w);
      var j :| 0 <= j < |w| && w[j].profit == MinProfit(w);
      assert w[i] in w && w[j] in w;
    }
  }

  /** Only a positive profit wins: a window without one, break-even
      sessions included, has win rate 0, and one where every session won
      has win rate 100. */
  lemma StatsWinRate(st: Store, from: Option<Time>, to: Option<Time>)
    ensures var w := Window(st.sessions, from, to);
            var r := GetStats(st, from, to);
            && ((forall i :: 0 <= i < |w| ==> w[i].profit <= 0.0) ==> r.winRate == 0.0)
            && (|w| > 0 && (forall i :: 0 <= i < |w| ==> w[i].profit > 0.0) ==> r.winRate == 100.0)
  {
  }

  /** Net profit of a window of consistent sessions is its total cash-out
      minus its total buy-in. */
  lemma StatsNetProfit(st: Store, from: Option<Time>, to: Option<Time>)
    requires Valid(st)
    ensures var w := Window(st.sessions, from, to);
            GetStats(st, from, to).netProfit == Sum(w, CashOut) - Sum(w, BuyIn)
  {
    var w := Window(st.sessions, from, to);
    forall i | 0 <= i < |w| ensures Consistent(w[i]) {
      assert w[i] in st.sessions;
    }
    SumProfitIsCashOutMinusBuyIn(w);
  }

  /** What the as-written walk reports on a non-empty flag list: the kind
      of the last flag, the maximal run of it reaching back from the end,
      and longest counters that saw only that run. */
  lemma SummaryShape(w: seq<bool>)
    requires |w| > 0
    ensures var rep := StreakSummary(w);
            var c := rep.current.count;
            && (rep.current.kind == Win <==> w[|w| - 1])
            && 1 <= c <= |w|
            && (forall m :: |w| - c <= m < |w| ==> w[m] == w[|w| - 1])
            && (c < |w| ==> w[|w| - 1 - c] != w[|w| - 1])
            && rep.longestWin == (if rep.current.kind == Win then c else 0)
            && rep.longestLoss == (if rep.current.kind == Loss then c else 0)
  {
  }

  /** The newest session of a non-empty window sets the kind of the current
      streak: the last one in chronological order, whose date no other
      session of the window exceeds. */
  lemma StatsNewest(st: Store, from: Option<Time>, to: Option<Time>)
    requires |Window(st.sessions, from, to)| > 0
    ensures var w := Window(st.sessions, from, to);
            var newest := Chronological(w)[|w| - 1];
            && newest in w
            && (forall x :: x in w ==> x.date <= newest.date)
            && (GetStats(st, from, to).currentStreak.kind == Win <==> newest.profit > 0.0)
  {
    var w := Window(st.sessions, from, to);
    ChronologicalLast(w);
    SummaryShape(WinFlags(Chronological(w)));
  }

  /** The current streak counts the maximal run of the newest session's
      kind reaching back from it; because of the early exit the longest
      streak of that kind equals the count and the longest streak of the
      other kind is 0. */
  lemma StatsStreak(st: Store, from: Option<Time>, to: Option<Time>)
    requires |Window(st.sessions, from, to)| > 0
    ensures var sorted := Chronological(Window(st.sessions, from, to));
            var r := GetStats(st, from, to);
            StreakFacts(sorted, r.currentStreak, r.longestWinStreak, r.longestLossStreak)
            && r.currentStreak.count <= r.totalSessions
  {
    var sorted := Chronological(Window(st.sessions, from, to));
    SummaryFacts(sorted);
  }

  /** The streak fields of a report over the non-empty chronological list
      `sorted`, as the early-exit walk leaves them. */
  predicate StreakFacts(sorted: seq<Session>, current: Streak, longestWin: nat, longestLoss: nat) {
    var n := |sorted|;
    var c := current.count;
    && 1 <= c <= n
    && (forall m :: n - c <= m < n ==> IsWin(sorted[m]) == IsWin(sorted[n - 1]))
    && (c < n ==> IsWin(sorted[n - 1 - c]) != IsWin(sorted[n - 1]))
    && longestWin == (if current.kind == Win then c else 0)
    && longestLoss == (if current.kind == Loss then c else 0)
  }

  lemma SummaryFacts(sorted: seq<Session>)
    requires |sorted| > 0
    ensures var rep := StreakSummary(WinFlags(sorted));
            StreakFacts(sorted, rep.current, rep.longestWin, rep.longestLoss)
  {
    var n := |sorted|;
    var w := WinFlags(sorted);
    SummaryShape(w);
    var c := StreakSummary(w).current.count;
    forall m | n - c <= m < n ensures IsWin(sorted[m]) == IsWin(sorted[n - 1]) {
      assert w[m] == w[n - 1];
    }
  }

  /** The last session in chronological order is one of the window's and no
      session of the window is newer. */
  lemma ChronologicalLast(w: seq<Session>)
    requires |w| > 0
    ensures Chronological(w)[|w| - 1] in w
    ensures forall x :: x in w ==> x.date <= Chronological(w)[|w| - 1].date
  {
    SortByLast(w, DateKey);
    var last := Chronological(w)[|w| - 1];
    forall x | x in w ensures x.date <= last.date {
      var i :| 0 <= i < |w| && w[i] == x;
      assert DateKey(w[i]) <= DateKey(last);
    }
  }
}
