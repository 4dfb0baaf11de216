/** Link utilization accounting (TrackUtilization in point-to-point-laser-net-device.cc)
    against the busy time of the link, counted nanosecond by nanosecond. */
module Utilization {
  import opened Integers
  import opened Options

  // ---------- the reference: what the link did ----------

  // The link takes the given state at the given time (ns).
  datatype Switch = Switch(time: int, on: bool)

  // State of the link during nanosecond t; it is off before the first switch.
  function StateAt(trace: seq<Switch>, t: int): bool {
    if trace == [] then false
    else if trace[|trace| - 1].time <= t then trace[|trace| - 1].on
    else StateAt(trace[..|trace| - 1], t)
  }

  // Nanoseconds of [a, b) during which the link is on.
  function BusyTime(trace: seq<Switch>, a: int, b: int): int
    decreases b - a
  {
    if b <= a then 0 else BusyTime(trace, a, b - 1) + if StateAt(trace, b - 1) then 1 else 0
  }

  lemma {:induction false} BusySplit(trace: seq<Switch>, a: int, b: int, c: int)
    requires a <= b <= c
    ensures BusyTime(trace, a, c) == BusyTime(trace, a, b) + BusyTime(trace, b, c)
    decreases c - b
  {
    if b < c {
      BusySplit(trace, a, b, c - 1);
    }
  }

  lemma {:induction false} BusyConstant(trace: seq<Switch>, a: int, b: int, on: bool)
    requires a <= b && forall t :: a <= t < b ==> StateAt(trace, t) == on
    ensures BusyTime(trace, a, b) == if on then b - a else 0
    decreases b - a
  {
    if a < b {
      BusyConstant(trace, a, b - 1, on);
    }
  }

  // A switch at b or later does not change what happened before b.
  lemma {:induction false} BusyBeforeSwitch(trace: seq<Switch>, s: Switch, a: int, b: int)
    requires b <= s.time
    ensures BusyTime(trace + [s], a, b) == BusyTime(trace, a, b)
    decreases b - a
  {
    if a < b {
      BusyBeforeSwitch(trace, s, a, b - 1);
      assert (trace + [s])[..|trace|] == trace;
    }
  }

  // ---------- the accounting ----------

  datatype Meter = Meter(interval: int, prev: int, start: int, end: int, idle: int, busy: int, on: bool, entries: seq<real>)

  function Enabled(interval: int, entries: seq<real>): Meter {
    Meter(interval, 0, 0, interval, 0, 0, false, entries)
  }

  // The interval ends while the link is in the state opposite to `next`. None: the
  // interval's time does not add up, which aborts the simulation.
  function CloseInterval(m: Meter, next: bool): Option<Meter>
    requires m.interval > 0
  {
    var idle := m.idle + if next then m.end - m.prev else 0;
    var busy := m.busy + if next then 0 else m.end - m.prev;
    if idle + busy != m.interval then None
    else Some(m.(entries := m.entries + [busy as real / m.interval as real],
                 idle := 0, busy := 0, prev := m.end, start := m.start + m.interval, end := m.end + m.interval))
  }

  function Track(m: Meter, now: int, next: bool): Option<Meter>
    requires m.interval > 0
    decreases now - m.end
  {
    if now >= m.end then
      var c := CloseInterval(m, next);
      if c.None? then None else Track(c.value, now, next)
    else
      Some(m.(idle := m.idle + if next then now - m.prev else 0,
              busy := m.busy + if next then 0 else now - m.prev,
              on := next, prev := now))
  }

  function Finalize(m: Meter, now: int): Option<Meter>
    requires m.interval > 0
  {
    Track(m, now, !m.on)
  }

  // ---------- exactness ----------

  // Entries are utilizations of consecutive intervals from time 0, and the counters split
  // the time from the current interval's start to the last call.
  ghost predicate Exact(m: Meter, trace: seq<Switch>) {
    && m.interval > 0
    && m.start == |m.entries| * m.interval && m.end == m.start + m.interval
    && m.start <= m.prev < m.end
    && m.busy == BusyTime(trace, m.start, m.prev)
    && m.idle == (m.prev - m.start) - m.busy
    && forall k :: 0 <= k < |m.entries| ==> EntryExact(m.entries[k], m.interval, trace, k)
  }

  // The k-th utilization, times the interval, is the busy time of the k-th interval.
  ghost predicate EntryExact(entry: real, interval: int, trace: seq<Switch>, k: int) {
    entry * interval as real == BusyTime(trace, k * interval, (k + 1) * interval) as real
  }

  // Tracking that starts at time 0 is exact unless something has been recorded before.
  lemma EnabledExactIff(interval: int, entries: seq<real>, trace: seq<Switch>)
    requires interval > 0
    ensures Exact(Enabled(interval, entries), trace) <==> entries == []
  {
    if entries != [] {
      EntryEnds(0, |entries|, interval);
    }
  }

  /** A call at `now` accounts for the time since the last call exactly, whatever number of
      interval ends lie between, provided the link was in the opposite state throughout. */
  lemma {:induction false} TrackExact(m: Meter, trace: seq<Switch>, now: int, next: bool)
    requires Exact(m, trace) && now >= m.prev
    requires forall t :: m.prev <= t < now ==> StateAt(trace, t) == !next
    ensures Track(m, now, next).Some?
    ensures var m' := Track(m, now, next).value;
      Exact(m', trace) && m'.prev == now && m'.on == next && m'.interval == m.interval
    decreases now - m.end
  {
    if now >= m.end {
      CloseExact(m, trace, next);
      TrackExact(CloseInterval(m, next).value, trace, now, next);
    } else {
      BusySplit(trace, m.start, m.prev, now);
      BusyConstant(trace, m.prev, now, !next);
    }
  }

  lemma CloseExact(m: Meter, trace: seq<Switch>, next: bool)
    requires Exact(m, trace)
    requires forall t :: m.prev <= t < m.end ==> StateAt(trace, t) == !next
    ensures CloseInterval(m, next).Some? && Exact(CloseInterval(m, next).value, trace)
  {
    BusySplit(trace, m.start, m.prev, m.end);
    BusyConstant(trace, m.prev, m.end, !next);
    var m' := CloseInterval(m, next).value;
    var n := |m.entries|;
    NextMultiple(n, m.interval);
    NewEntry(m'.entries[n], m.interval, trace, n, m.busy + if next then 0 else m.end - m.prev);
    forall k | 0 <= k < n ensures EntryExact(m'.entries[k], m.interval, trace, k) {
      assert EntryExact(m.entries[k], m.interval, trace, k);
    }
  }

  lemma NextMultiple(n: int, d: int)
    ensures (n + 1) * d == n * d + d
  {
  }

  lemma NewEntry(entry: real, interval: int, trace: seq<Switch>, n: int, busy: int)
    requires interval > 0 && entry == busy as real / interval as real
    requires busy == BusyTime(trace, n * interval, (n + 1) * interval)
    ensures EntryExact(entry, interval, trace, n)
  {
  }

  // Exactly one entry per full interval that has passed.
  lemma EntryCount(m: Meter, trace: seq<Switch>)
    requires Exact(m, trace)
    ensures |m.entries| == m.prev / m.interval
  {
    Quotient(m.prev, |m.entries|, m.interval);
  }

  // ---------- the abort ----------

  // The counters cover the time since the current interval began, rightly attributed or not.
  ghost predicate Balanced(m: Meter) {
    && m.interval > 0 && m.end == m.start + m.interval && m.start <= m.prev < m.end
    && m.idle + m.busy == m.prev - m.start
  }

  /** As long as time does not run backwards, no call aborts, whatever states it reports. */
  lemma {:induction false} NeverAborts(m: Meter, now: int, next: bool)
    requires Balanced(m) && now >= m.prev
    ensures Track(m, now, next).Some? && Balanced(Track(m, now, next).value)
    ensures var m' := Track(m, now, next).value;
      m'.prev == now && m'.on == next && m'.interval == m.interval && m.entries <= m'.entries
    decreases now - m.end
  {
    if now >= m.end {
      NeverAborts(CloseInterval(m, next).value, now, next);
    }
  }

  // ---------- whole runs ----------

  // The first n switches; the link starts off, so the i-th turns it on when i is even.
  function TraceOf(times: seq<int>, n: nat): seq<Switch>
    requires n <= |times|
  {
    if n == 0 then [] else TraceOf(times, n - 1) + [Switch(times[n - 1], (n - 1) % 2 == 0)]
  }

  function Run(interval: int, times: seq<int>, n: nat): Option<Meter>
    requires interval > 0 && n <= |times|
    ensures Run(interval, times, n).Some? ==> Run(interval, times, n).value.interval == interval
  {
    if n == 0 then Some(Enabled(interval, []))
    else
      var before := Run(interval, times, n - 1);
      if before.None? then None else
        TrackKeepsInterval(before.value, times[n - 1], (n - 1) % 2 == 0);
        Track(before.value, times[n - 1], (n - 1) % 2 == 0)
  }

  lemma TrackKeepsInterval(m: Meter, now: int, next: bool)
    requires m.interval > 0
    ensures Track(m, now, next).Some? ==> Track(m, now, next).value.interval == m.interval
    decreases now - m.end
  {
    if now >= m.end && CloseInterval(m, next).Some? {
      TrackKeepsInterval(CloseInterval(m, next).value, now, next);
    }
  }

  ghost predicate InOrder(times: seq<int>) {
    (forall i :: 0 <= i < |times| ==> 0 <= times[i]) && forall i, j :: 0 <= i < j < |times| ==> times[i] <= times[j]
  }

  function LastTime(times: seq<int>, n: nat): int
    requires n <= |times|
  {
    if n == 0 then 0 else times[n - 1]
  }

  lemma AfterLastSwitch(times: seq<int>, n: nat, t: int)
    requires n <= |times| && t >= LastTime(times, n)
    ensures StateAt(TraceOf(times, n), t) == (n % 2 == 1)
  {
  }

  lemma ExactBeforeSwitch(m: Meter, trace: seq<Switch>, s: Switch)
    requires Exact(m, trace) && m.prev <= s.time
    ensures Exact(m, trace + [s])
  {
    BusyBeforeSwitch(trace, s, m.start, m.prev);
    forall k | 0 <= k < |m.entries| ensures EntryExact(m.entries[k], m.interval, trace + [s], k) {
      assert EntryExact(m.entries[k], m.interval, trace, k);
      EntryEnds(k, |m.entries|, m.interval);
      BusyBeforeSwitch(trace, s, k * m.interval, (k + 1) * m.interval);
    }
  }

  lemma EntryEnds(k: int, n: int, d: int)
    requires 0 <= k < n && d > 0
    ensures (k + 1) * d <= n * d
  {
    assert (n - k - 1) * d >= 0;
  }

  /** Every run of alternating switches, from tracking enabled at time 0 with the link off, is
      accounted for exactly. */
  lemma {:induction false} RunExact(interval: int, times: seq<int>, n: nat)
    requires interval > 0 && n <= |times| && InOrder(times)
    ensures Run(interval, times, n).Some?
    ensures var m := Run(interval, times, n).value;
      Exact(m, TraceOf(times, n)) && m.prev == LastTime(times, n) && m.on == (n % 2 == 1)
  {
    if n > 0 {
      RunExact(interval, times, n - 1);
      var m := Run(interval, times, n - 1).value;
      var trace, next := TraceOf(times, n - 1), (n - 1) % 2 == 0;
      forall t | m.prev <= t < times[n - 1] ensures StateAt(trace, t) == !next {
        AfterLastSwitch(times, n - 1, t);
      }
      TrackExact(m, trace, times[n - 1], next);
      ExactBeforeSwitch(Track(m, times[n - 1], next).value, trace, Switch(times[n - 1], next));
    }
  }

  /** What is reported at time T: one entry per full interval before T, each the exact share
      of busy time in its interval. Reporting again at T changes no entry. */
  lemma ReportExact(interval: int, times: seq<int>, T: int)
    requires interval > 0 && InOrder(times) && T >= LastTime(times, |times|)
    ensures Run(interval, times, |times|).Some? && Finalize(Run(interval, times, |times|).value, T).Some?
    ensures var f := Finalize(Run(interval, times, |times|).value, T).value;
      && |f.entries| == T / interval
      && (forall k :: 0 <= k < |f.entries| ==> EntryExact(f.entries[k], interval, TraceOf(times, |times|), k))
      && f.interval == interval && Finalize(f, T).Some? && Finalize(f, T).value.entries == f.entries
  {
    RunExact(interval, times, |times|);
    var m := Run(interval, times, |times|).value;
    var trace := TraceOf(times, |times|);
    forall t | m.prev <= t < T ensures StateAt(trace, t) == m.on {
      AfterLastSwitch(times, |times|, t);
    }
    TrackExact(m, trace, T, !m.on);
    EntryCount(Finalize(m, T).value, trace);
  }

  // ---------- reporting twice ----------

  /** A report while the link has been in state s since the last call keeps the accounting
      exact if and only if the meter believes in that state or no time has passed. Since a
      report flips the belief, a second report at a later time, with no switch between, is
      exactly the case that fails. */
  lemma FinalizeExactIff(m: Meter, trace: seq<Switch>, now: int, s: bool)
    requires Exact(m, trace) && now >= m.prev
    requires forall t :: m.prev <= t < now ==> StateAt(trace, t) == s
    ensures Finalize(m, now).Some?
    ensures Exact(Finalize(m, now).value, trace) <==> m.on == s || now == m.prev
  {
    NeverAborts(m, now, !m.on);
    if m.on == s || now == m.prev {
      TrackExact(m, trace, now, !m.on);
    } else if now < m.end {
      BusySplit(trace, m.start, m.prev, now);
      BusyConstant(trace, m.prev, now, s);
    } else {
      WrongEntry(m, trace, now, s);
    }
  }

  lemma WrongEntry(m: Meter, trace: seq<Switch>, now: int, s: bool)
    requires Exact(m, trace) && now >= m.end && m.on != s
    requires forall t :: m.prev <= t < now ==> StateAt(trace, t) == s
    ensures Finalize(m, now).Some? && !Exact(Finalize(m, now).value, trace)
  {
    var n := |m.entries|;
    var c := CloseInterval(m, s).value;
    NeverAborts(m, now, s);
    NeverAborts(c, now, s);
    BusySplit(trace, m.start, m.prev, m.end);
    BusyConstant(trace, m.prev, m.end, s);
    NextMultiple(n, m.interval);
    var recorded := m.busy + if s then 0 else m.end - m.prev;
    NewEntryDiffers(c.entries[n], m.interval, trace, n, recorded);
    var f := Finalize(m, now).value;
    assert f == Track(c, now, s).value && f.entries[n] == c.entries[n];
  }

  lemma NewEntryDiffers(entry: real, interval: int, trace: seq<Switch>, n: int, recorded: int)
    requires interval > 0 && entry == recorded as real / interval as real
    requires recorded != BusyTime(trace, n * interval, (n + 1) * interval)
    ensures !EntryExact(entry, interval, trace, n)
  {
    assert entry * interval as real == recorded as real;
  }

  ghost function ReportAt(interval: int, times: seq<int>, T: int): (m: Meter)
    requires interval > 0 && InOrder(times) && T >= LastTime(times, |times|)
    ensures m.interval == interval
  {
    ReportExact(interval, times, T);
    Finalize(Run(interval, times, |times|).value, T).value
  }

  /** Two reports with no switch between: the second is exact only at the instant of the first. */
  lemma SecondReportExactIff(interval: int, times: seq<int>, T1: int, T2: int)
    requires interval > 0 && InOrder(times) && LastTime(times, |times|) <= T1 <= T2
    ensures var first, trace := ReportAt(interval, times, T1), TraceOf(times, |times|);
      && Exact(first, trace) && Finalize(first, T2).Some?
      && (Exact(Finalize(first, T2).value, trace) <==> T1 == T2)
  {
    RunExact(interval, times, |times|);
    var m := Run(interval, times, |times|).value;
    var trace := TraceOf(times, |times|);
    forall t | m.prev <= t < T2 ensures StateAt(trace, t) == m.on {
      AfterLastSwitch(times, |times|, t);
    }
    TrackExact(m, trace, T1, !m.on);
    FinalizeExactIff(Finalize(m, T1).value, trace, T2, m.on);
  }

  // For instance a link that is on from time 0, reported at 5 ns and at 25 ns.
  lemma LateSecondReport()
    ensures var second := Finalize(ReportAt(10, [0], 5), 25);
      second.Some? && !Exact(second.value, TraceOf([0], 1))
  {
    SecondReportExactIff(10, [0], 5, 25);
  }
}
