/** Sliding-window rate limiter: deques of recent hits against the full admission history. */
module RateLimit {

  datatype Key = Key(bucket: string, client: string)

  /** Limits are at least 1, as the overrides and the coded defaults are. */
  type Positive = n: int | n >= 1 witness 1

  /** Limit and window (in seconds) of every bucket, fixed while the process runs. */
  datatype Policy = Policy(limit: Key -> Positive, window: Key -> real)

  datatype Verdict = Admitted | Refused(retryAfter: int)

  const SWEEP_EVERY := 300.0
  const DAY := 86400.0

  // ------------------------------------------------------------ the limiter as it runs

  /** The deque without its leading hits from before the cutoff. */
  function DropOlder(dq: seq<real>, cutoff: real): seq<real> {
    if dq != [] && dq[0] < cutoff then DropOlder(dq[1..], cutoff) else dq
  }

  type Hits = map<Key, seq<real>>

  /** The deque of a key; an absent key reads as an empty one. */
  function Dq(hits: Hits, k: Key): seq<real> {
    if k in hits then hits[k] else []
  }

  function Swept(hits: Hits, now: real): Hits {
    map k | k in hits && DropOlder(hits[k], now - DAY) != [] :: DropOlder(hits[k], now - DAY)
  }

  datatype State = State(hits: Hits, lastSweep: real)

  function AfterSweep(s: State, now: real): State {
    if now - s.lastSweep < SWEEP_EVERY then s else State(Swept(s.hits, now), now)
  }

  function RetryAfter(oldest: real, window: real, now: real): int {
    var wait := (oldest + window - now).Floor + 1;
    if wait < 1 then 1 else wait
  }

  /** The key's deque once the sweep and its own trimming have run. */
  function Trimmed(p: Policy, s: State, k: Key, now: real): seq<real> {
    DropOlder(Dq(AfterSweep(s, now).hits, k), now - p.window(k))
  }

  function VerdictOn(p: Policy, dq: seq<real>, k: Key, now: real): Verdict {
    if |dq| < p.limit(k) then Admitted
    else Refused(RetryAfter(dq[0], p.window(k), now))
  }

  function Request(p: Policy, s: State, k: Key, now: real): (State, Verdict) {
    var s1, dq := AfterSweep(s, now), Trimmed(p, s, k, now);
    var v := VerdictOn(p, dq, k, now);
    (s1.(hits := s1.hits[k := if v.Admitted? then dq + [now] else dq]), v)
  }

  // -------------------------------------------------------------- the full history

  /** Every admission so far, oldest first. */
  type History = seq<(Key, real)>

  /** Admission times of one key. */
  function Times(h: History, k: Key): seq<real> {
    if h == [] then []
    else Times(h[..|h| - 1], k) + if h[|h| - 1].0 == k then [h[|h| - 1].1] else []
  }

  function Since(ts: seq<real>, start: real): nat {
    if ts == [] then 0 else (if ts[0] >= start then 1 else 0) + Since(ts[1..], start)
  }

  /** Fewer than `limit` admissions of the key in the closed window that ends now. */
  predicate MayEnter(p: Policy, h: History, k: Key, now: real) {
    Since(Times(h, k), now - p.window(k)) < p.limit(k)
  }

  predicate Sorted(ts: seq<real>) {
    forall i, j | 0 <= i < j < |ts| :: ts[i] <= ts[j]
  }

  // ------------------------------------------------------------------- refinement

  /** The deque keeps a suffix of the key's admissions; what it dropped is too old to count. */
  ghost predicate Tracks(p: Policy, dq: seq<real>, ts: seq<real>, k: Key, now: real) {
    && Sorted(ts)
    && (ts != [] ==> ts[|ts| - 1] <= now)
    && |dq| <= p.limit(k)
    && Suffix(dq, ts, now - p.window(k))
  }

  ghost predicate Suffix(dq: seq<real>, ts: seq<real>, cutoff: real) {
    && |dq| <= |ts|
    && (forall i | 0 <= i < |dq| :: dq[i] == ts[|ts| - |dq| + i])
    && (forall i | 0 <= i < |ts| - |dq| :: ts[i] < cutoff)
  }

  lemma {:induction false} DropOlderIsSuffix(dq: seq<real>, cutoff: real) returns (n: nat)
    requires Sorted(dq)
    ensures n <= |dq| && DropOlder(dq, cutoff) == dq[n..]
    ensures forall i | 0 <= i < n :: dq[i] < cutoff
    ensures forall i | n <= i < |dq| :: dq[i] >= cutoff
  {
    n := 0;
    while n < |dq| && dq[n] < cutoff
      invariant n <= |dq| && DropOlder(dq, cutoff) == DropOlder(dq[n..], cutoff)
      invariant forall i | 0 <= i < n :: dq[i] < cutoff
    {
      assert dq[n..][0] == dq[n] && dq[n..][1..] == dq[n + 1..];
      n := n + 1;
    }
    assert n < |dq| ==> dq[n..][0] == dq[n];
  }

  lemma {:induction false} SinceCounts(ts: seq<real>, n: nat, start: real)
    requires n <= |ts|
    requires forall i | 0 <= i < n :: ts[i] < start
    requires forall i | n <= i < |ts| :: ts[i] >= start
    ensures Since(ts, start) == |ts| - n
  {
    if ts != [] {
      assert forall i | 0 <= i < |ts| - 1 :: ts[1..][i] == ts[i + 1];
      SinceCounts(ts[1..], if n == 0 then 0 else n - 1, start);
    }
  }

  lemma DropKeepsSuffix(dq: seq<real>, ts: seq<real>, before: real, after: real, cutoff: real)
    requires Sorted(ts) && Suffix(dq, ts, before) && before <= after && cutoff <= after
    ensures Suffix(DropOlder(dq, cutoff), ts, after)
    ensures cutoff == after ==> |DropOlder(dq, cutoff)| == Since(ts, cutoff)
    ensures |DropOlder(dq, cutoff)| <= |dq|
  {
    hide DropOlder, Since;
    var d := |ts| - |dq|;
    var n := DropOlderIsSuffix(dq, cutoff);
    forall i | 0 <= i < d + n
      ensures ts[i] < after
    {
      if i >= d { assert ts[i] == dq[i - d]; }
    }
    if cutoff == after {
      CountsKept(dq, ts, n, before, cutoff);
    }
  }

  lemma CountsKept(dq: seq<real>, ts: seq<real>, n: nat, before: real, cutoff: real)
    requires Suffix(dq, ts, before) && before <= cutoff && n <= |dq|
    requires forall i | 0 <= i < n :: dq[i] < cutoff
    requires forall i | n <= i < |dq| :: dq[i] >= cutoff
    ensures Since(ts, cutoff) == |dq| - n
  {
    var d := |ts| - |dq|;
    forall i | 0 <= i < |ts|
      ensures ts[i] < cutoff <==> i < d + n
    {
      if i >= d { assert ts[i] == dq[i - d]; }
    }
    SinceCounts(ts, d + n, cutoff);
  }

  /** Dropping entries older than some cutoff no later than the key's own keeps the track. */
  lemma DropKeepsTrack(p: Policy, dq: seq<real>, ts: seq<real>, k: Key, now: real, now': real, cutoff: real)
    requires Tracks(p, dq, ts, k, now) && now <= now'
    requires cutoff <= now' - p.window(k)
    ensures Tracks(p, DropOlder(dq, cutoff), ts, k, now')
    ensures cutoff == now' - p.window(k) ==> |DropOlder(dq, cutoff)| == Since(ts, cutoff)
  {
    DropKeepsSuffix(dq, ts, now - p.window(k), now' - p.window(k), cutoff);
  }

  lemma SweepKeepsTrack(p: Policy, s: State, h: History, k: Key, now: real, now': real)
    requires Tracks(p, Dq(s.hits, k), Times(h, k), k, now) && now <= now'
    requires p.window(k) <= DAY
    ensures Tracks(p, Dq(AfterSweep(s, now').hits, k), Times(h, k), k, now')
  {
    DropKeepsTrack(p, Dq(s.hits, k), Times(h, k), k, now, now', now' - DAY);
  }

  function Recorded(h: History, k: Key, now: real, v: Verdict): History {
    if v.Admitted? then h + [(k, now)] else h
  }

  lemma TimesSnoc(h: History, k: Key, now: real, other: Key)
    ensures Times(h + [(k, now)], other) == Times(h, other) + if other == k then [now] else []
  {
    assert (h + [(k, now)])[..|h|] == h;
  }

  lemma AppendKeepsTrack(p: Policy, dq: seq<real>, ts: seq<real>, k: Key, now: real)
    requires Tracks(p, dq, ts, k, now) && |dq| < p.limit(k)
    ensures Tracks(p, dq + [now], ts + [now], k, now)
  {
  }

  lemma TrimmedTracks(p: Policy, s: State, h: History, k: Key, now: real, now': real)
    requires Tracks(p, Dq(s.hits, k), Times(h, k), k, now) && now <= now'
    requires p.window(k) <= DAY
    ensures Tracks(p, Trimmed(p, s, k, now'), Times(h, k), k, now')
    ensures |Trimmed(p, s, k, now')| == Since(Times(h, k), now' - p.window(k))
  {
    SweepKeepsTrack(p, s, h, k, now, now');
    DropKeepsTrack(p, Dq(AfterSweep(s, now').hits, k), Times(h, k), k, now', now', now' - p.window(k));
  }

  /** One request, seen by one key: the limiter keeps tracking the history. */
  lemma RequestKeepsTrack(p: Policy, s: State, h: History, k: Key, now: real, now': real, other: Key)
    requires Tracks(p, Dq(s.hits, other), Times(h, other), other, now) && now <= now'
    requires p.window(other) <= DAY
    ensures var (s', v) := Request(p, s, k, now');
            Tracks(p, Dq(s'.hits, other), Times(Recorded(h, k, now', v), other), other, now')
  {
    var v := VerdictOn(p, Trimmed(p, s, k, now'), k, now');
    TimesSnoc(h, k, now', other);
    if other == k {
      TrimmedTracks(p, s, h, k, now, now');
      if v.Admitted? {
        AppendKeepsTrack(p, Trimmed(p, s, k, now'), Times(h, k), k, now');
      }
    } else {
      SweepKeepsTrack(p, s, h, other, now, now');
      assert Times(h, other) + [] == Times(h, other);
    }
  }

  /** One request: the verdict is the history's. */
  lemma VerdictByHistory(p: Policy, s: State, h: History, k: Key, now: real, now': real)
    requires Tracks(p, Dq(s.hits, k), Times(h, k), k, now) && now <= now'
    requires p.window(k) <= DAY
    ensures Request(p, s, k, now').1.Admitted? <==> MayEnter(p, h, k, now')
  {
    TrimmedTracks(p, s, h, k, now, now');
  }

  // ----------------------------------------------------------------------- whole runs

  datatype Hit = Hit(key: Key, at: real)

  predicate Monotone(run: seq<Hit>) {
    forall i, j | 0 <= i < j < |run| :: run[i].at <= run[j].at
  }

  /** State and history after a run that starts from an empty limiter. */
  function Play(p: Policy, run: seq<Hit>): (State, History) {
    if run == [] then (State(map[], 0.0), [])
    else
      var n := |run| - 1;
      var (s, h) := Play(p, run[..n]);
      var (s', v) := Request(p, s, run[n].key, run[n].at);
      (s', Recorded(h, run[n].key, run[n].at, v))
  }

  /** The verdict on the last request of a run. */
  function LastVerdict(p: Policy, run: seq<Hit>): Verdict
    requires run != []
  {
    Request(p, Play(p, run[..|run| - 1]).0, run[|run| - 1].key, run[|run| - 1].at).1
  }

  lemma {:induction false} PlayTracks(p: Policy, run: seq<Hit>, now: real, k: Key)
    requires Monotone(run) && p.window(k) <= DAY
    requires run != [] ==> run[|run| - 1].at <= now
    ensures Tracks(p, Dq(Play(p, run).0.hits, k), Times(Play(p, run).1, k), k, now)
  {
    if run != [] {
      var n := |run| - 1;
      PlayTracks(p, run[..n], run[n].at, k);
      var (s, h) := Play(p, run[..n]);
      RequestKeepsTrack(p, s, h, run[n].key, run[n].at, run[n].at, k);
      var step := Request(p, s, run[n].key, run[n].at);
      assert Play(p, run) == (step.0, Recorded(h, run[n].key, run[n].at, step.1));
      LaterTracks(p, Dq(Play(p, run).0.hits, k), Times(Play(p, run).1, k), k, run[n].at, now);
    }
  }

  lemma LaterTracks(p: Policy, dq: seq<real>, ts: seq<real>, k: Key, now: real, now': real)
    requires Tracks(p, dq, ts, k, now) && now <= now'
    ensures Tracks(p, dq, ts, k, now')
  {
  }

  /**
   * Over any run with a monotone clock and windows of at most a day, a request is admitted
   * exactly when fewer than `limit` admissions of its key fall in the window ending now:
   * neither the trimming nor the global sweep is ever observable.
   */
  lemma AdmitsByHistory(p: Policy, run: seq<Hit>)
    requires Monotone(run) && run != [] && p.window(run[|run| - 1].key) <= DAY
    ensures var n := |run| - 1;
            LastVerdict(p, run).Admitted? <==> MayEnter(p, Play(p, run[..n]).1, run[n].key, run[n].at)
  {
    var n := |run| - 1;
    PlayTracks(p, run[..n], run[n].at, run[n].key);
    var (s, h) := Play(p, run[..n]);
    VerdictByHistory(p, s, h, run[n].key, run[n].at, run[n].at);
  }

  /** Admissions in a closed interval. */
  function Within(ts: seq<real>, from: real, to: real): nat {
    if ts == [] then 0
    else Within(ts[..|ts| - 1], from, to) + if from <= ts[|ts| - 1] <= to then 1 else 0
  }

  lemma {:induction false} WithinAtMostSince(ts: seq<real>, from: real, to: real, start: real)
    requires start <= from
    ensures Within(ts, from, to) <= Since(ts, start)
  {
    if ts != [] {
      WithinAtMostSince(ts[..|ts| - 1], from, to, start);
      SinceSnoc(ts[..|ts| - 1], ts[|ts| - 1], start);
      assert ts == ts[..|ts| - 1] + [ts[|ts| - 1]];
    }
  }

  lemma {:induction false} SinceSnoc(ts: seq<real>, t: real, start: real)
    ensures Since(ts + [t], start) == Since(ts, start) + if t >= start then 1 else 0
  {
    if ts == [] {
      assert [t][1..] == [];
    } else {
      assert (ts + [t])[1..] == ts[1..] + [t];
      SinceSnoc(ts[1..], t, start);
    }
  }

  /** No closed interval as long as the window ever holds more than `limit` admissions. */
  lemma {:induction false} NeverTooMany(p: Policy, run: seq<Hit>, k: Key, from: real)
    requires Monotone(run) && p.window(k) <= DAY
    ensures Within(Times(Play(p, run).1, k), from, from + p.window(k)) <= p.limit(k)
  {
    if run != [] {
      var n := |run| - 1;
      NeverTooMany(p, run[..n], k, from);
      if run[n].key == k {
        AdmitsByHistory(p, run);
      }
      OneMoreWithin(p, Play(p, run[..n]).1, run[n], LastVerdict(p, run), k, from);
    }
  }

  lemma OneMoreWithin(p: Policy, h: History, hit: Hit, v: Verdict, k: Key, from: real)
    requires Within(Times(h, k), from, from + p.window(k)) <= p.limit(k)
    requires hit.key == k && v.Admitted? ==> MayEnter(p, h, k, hit.at)
    ensures Within(Times(Recorded(h, hit.key, hit.at, v), k), from, from + p.window(k)) <= p.limit(k)
  {
    var ts := Times(h, k);
    TimesSnoc(h, hit.key, hit.at, k);
    if hit.key == k && v.Admitted? {
      assert (ts + [hit.at])[..|ts|] == ts;
      if from <= hit.at <= from + p.window(k) {
        WithinAtMostSince(ts, from, from + p.window(k), hit.at - p.window(k));
      }
    } else {
      assert ts + [] == ts;
    }
  }

  lemma {:induction false} SinceSuffix(ts: seq<real>, m: nat, start: real)
    requires m <= |ts|
    requires forall i | 0 <= i < m :: ts[i] < start
    ensures Since(ts, start) == Since(ts[m..], start)
  {
    if m > 0 {
      assert ts[1..][m - 1..] == ts[m..];
      assert forall i | 0 <= i < m - 1 :: ts[1..][i] == ts[i + 1];
      SinceSuffix(ts[1..], m - 1, start);
    }
  }

  lemma {:induction false} SinceAtMostLength(ts: seq<real>, start: real)
    ensures Since(ts, start) <= |ts|
  {
    if ts != [] { SinceAtMostLength(ts[1..], start); }
  }

  /** A refusal leaves `limit` hits in the deque; once the oldest leaves the window there is room. */
  lemma RoomAfterRetry(p: Policy, s: State, h: History, k: Key, now: real, later: real)
    requires p.window(k) <= DAY
    requires Tracks(p, Dq(s.hits, k), Times(h, k), k, now)
    requires var v := Request(p, s, k, now).1; v.Refused? && later >= now + v.retryAfter as real
    ensures MayEnter(p, h, k, later)
  {
    hide DropOlder, Since, Times, RetryAfter, Trimmed;
    TrimmedTracks(p, s, h, k, now, now);
    var dq, ts := Trimmed(p, s, k, now), Times(h, k);
    RetryBound(dq[0], p.window(k), now, later);
    OldestGone(dq, ts, p.limit(k), now - p.window(k), later - p.window(k));
  }

  lemma RetryBound(oldest: real, window: real, now: real, later: real)
    requires later >= now + RetryAfter(oldest, window, now) as real
    ensures oldest < later - window
  {
    var wait := oldest + window - now;
    assert wait < wait.Floor as real + 1.0;
    assert RetryAfter(oldest, window, now) >= wait.Floor + 1;
  }

  lemma OldestGone(dq: seq<real>, ts: seq<real>, limit: nat, before: real, cutoff: real)
    requires Sorted(ts) && Suffix(dq, ts, before) && |dq| == limit && limit >= 1
    requires dq[0] < cutoff
    ensures Since(ts, cutoff) < limit
  {
    var d := |ts| - |dq|;
    assert dq[0] == ts[d];
    assert forall i | 0 <= i <= d :: ts[i] <= ts[d];
    SinceSuffix(ts, d + 1, cutoff);
    SinceAtMostLength(ts[d + 1..], cutoff);
  }

  /**
   * The refusal's Retry-After is honest: if the key gets no admission in between, a request
   * made that many seconds later, or any time after, is admitted.
   */
  lemma RetryAfterSuffices(p: Policy, run: seq<Hit>, between: seq<Hit>, again: Hit)
    requires run != [] && again.key == run[|run| - 1].key
    requires p.window(again.key) <= DAY
    requires Monotone(run) && Monotone(run + between + [again])
    requires LastVerdict(p, run).Refused?
    requires again.at >= run[|run| - 1].at + LastVerdict(p, run).retryAfter as real
    requires Times(Play(p, run + between).1, again.key) == Times(Play(p, run[..|run| - 1]).1, again.key)
    ensures LastVerdict(p, run + between + [again]).Admitted?
  {
    var n := |run| - 1;
    var (s, h) := Play(p, run[..n]);
    PlayTracks(p, run[..n], run[n].at, again.key);
    RoomAfterRetry(p, s, h, again.key, run[n].at, again.at);
    var whole := run + between + [again];
    assert whole[..|whole| - 1] == run + between;
    AdmitsByHistory(p, whole);
  }

  /** The least whole second, but one at least, after which the oldest hit is out of the window. */
  lemma RetryAfterIsLeast(oldest: real, window: real, now: real, sooner: int)
    requires 1 <= sooner < RetryAfter(oldest, window, now)
    ensures oldest >= now + sooner as real - window
  {
    var wait := oldest + window - now;
    assert wait.Floor as real <= wait;
  }

  lemma AllCount(dq: seq<real>, ts: seq<real>, before: real, cutoff: real)
    requires Sorted(ts) && Suffix(dq, ts, before) && dq != [] && cutoff <= dq[0]
    ensures Since(ts, cutoff) >= |dq|
  {
    var d := |ts| - |dq|;
    SinceSplit(ts, d, cutoff);
    forall i | 0 <= i < |dq|
      ensures ts[d..][i] >= cutoff
    {
      assert dq[i] == ts[d + i] && ts[d] == dq[0];
    }
    SinceCounts(ts[d..], 0, cutoff);
  }

  lemma {:induction false} SinceSplit(ts: seq<real>, m: nat, start: real)
    requires m <= |ts|
    ensures Since(ts, start) >= Since(ts[m..], start)
  {
    if m > 0 {
      assert ts[1..][m - 1..] == ts[m..];
      SinceSplit(ts[1..], m - 1, start);
    }
  }

  /** And no refusal asks for longer than it has to: a second earlier, with no admission in
      between, the request would be refused again. */
  lemma RetryAfterIsNeeded(p: Policy, run: seq<Hit>, between: seq<Hit>, again: Hit, sooner: int)
    requires run != [] && again.key == run[|run| - 1].key
    requires p.window(again.key) <= DAY
    requires Monotone(run) && Monotone(run + between + [again])
    requires LastVerdict(p, run).Refused? && 1 <= sooner < LastVerdict(p, run).retryAfter
    requires again.at == run[|run| - 1].at + sooner as real
    requires Times(Play(p, run + between).1, again.key) == Times(Play(p, run[..|run| - 1]).1, again.key)
    ensures LastVerdict(p, run + between + [again]).Refused?
  {
    var n := |run| - 1;
    var (s, h) := Play(p, run[..n]);
    PlayTracks(p, run[..n], run[n].at, again.key);
    StillFull(p, s, h, again.key, run[n].at, again.at, sooner);
    var whole := run + between + [again];
    assert whole[..|whole| - 1] == run + between;
    AdmitsByHistory(p, whole);
  }

  lemma StillFull(p: Policy, s: State, h: History, k: Key, now: real, later: real, sooner: int)
    requires p.window(k) <= DAY && Tracks(p, Dq(s.hits, k), Times(h, k), k, now)
    requires var v := Request(p, s, k, now).1; v.Refused? && 1 <= sooner < v.retryAfter
    requires later == now + sooner as real
    ensures !MayEnter(p, h, k, later)
  {
    hide DropOlder, Since, Times, RetryAfter, Trimmed;
    TrimmedTracks(p, s, h, k, now, now);
    var dq, ts := Trimmed(p, s, k, now), Times(h, k);
    RetryAfterIsLeast(dq[0], p.window(k), now, sooner);
    AllCount(dq, ts, now - p.window(k), later - p.window(k));
  }

  /** The sweep's bound on memory: it runs exactly when 300 seconds have passed since the last
      one, and then keeps just the keys whose newest hit is at most a day old, and of theirs just
      the hits that are. */
  lemma SweepExact(s: State, now: real)
    requires forall k | k in s.hits :: Sorted(s.hits[k])
    ensures var s' := AfterSweep(s, now);
            if now < s.lastSweep + 300.0 then s' == s
            else
              && s'.lastSweep == now
              && (forall k | k in s'.hits :: k in s.hits)
              && forall k | k in s.hits ::
                   && (k in s'.hits <==> s.hits[k] != [] && s.hits[k][|s.hits[k]| - 1] >= now - 86400.0)
                   && (k in s'.hits ==> OnlyRecent(s.hits[k], s'.hits[k], now - 86400.0))
  {
    if now >= s.lastSweep + 300.0 {
      forall k | k in s.hits
        ensures DropOlder(s.hits[k], now - DAY) != [] <==>
                s.hits[k] != [] && s.hits[k][|s.hits[k]| - 1] >= now - 86400.0
        ensures OnlyRecent(s.hits[k], DropOlder(s.hits[k], now - DAY), now - 86400.0)
      {
        var n := DropOlderIsSuffix(s.hits[k], now - DAY);
      }
    }
  }

  /** What is left of a deque: the hits from `start` on, in order. */
  predicate OnlyRecent(dq: seq<real>, left: seq<real>, start: real) {
    && |left| <= |dq| && left == dq[|dq| - |left|..]
    && (forall i | 0 <= i < |dq| - |left| :: dq[i] < start)
    && forall i | 0 <= i < |left| :: left[i] >= start
  }

  // ------------------------------------------------------ windows longer than a day

  function Repeated(n: nat, t: real): seq<real> {
    if n == 0 then [] else Repeated(n - 1, t) + [t]
  }

  /** `n` hits of one key at time 0. */
  function Burst(k: Key, n: nat): seq<Hit> {
    if n == 0 then [] else Burst(k, n - 1) + [Hit(k, 0.0)]
  }

  lemma {:induction false} RepeatedEffect(n: nat, t: real, cutoff: real)
    ensures |Repeated(n, t)| == n && forall i | 0 <= i < n :: Repeated(n, t)[i] == t
    ensures t >= cutoff ==> DropOlder(Repeated(n, t), cutoff) == Repeated(n, t) && Since(Repeated(n, t), cutoff) == n
    ensures t < cutoff ==> DropOlder(Repeated(n, t), cutoff) == []
  {
    if n > 0 { RepeatedEffect(n - 1, t, cutoff); }
    assert forall i | 0 <= i < n :: Repeated(n, t)[i] == t;
    if t >= cutoff {
      SinceCounts(Repeated(n, t), 0, cutoff);
    } else {
      AllDropped(Repeated(n, t), cutoff);
    }
  }

  lemma {:induction false} AllDropped(dq: seq<real>, cutoff: real)
    requires forall i | 0 <= i < |dq| :: dq[i] < cutoff
    ensures DropOlder(dq, cutoff) == []
  {
    if dq != [] { AllDropped(dq[1..], cutoff); }
  }

  /** Nothing but `n` hits of `k` at time 0 so far. */
  predicate Filled(s: State, h: History, k: Key, n: nat) {
    && s.lastSweep == 0.0 && (forall other | other in s.hits :: other == k)
    && Dq(s.hits, k) == Repeated(n, 0.0) && Times(h, k) == Repeated(n, 0.0)
  }

  lemma OneMoreFills(p: Policy, s: State, h: History, k: Key, n: nat)
    requires Filled(s, h, k, n) && n < p.limit(k) && p.window(k) >= 0.0
    ensures var (s', v) := Request(p, s, k, 0.0); Filled(s', Recorded(h, k, 0.0, v), k, n + 1)
  {
    RepeatedEffect(n, 0.0, 0.0 - p.window(k));
    TimesSnoc(h, k, 0.0, k);
  }

  lemma {:induction false} BurstIs(k: Key, n: nat)
    ensures |Burst(k, n)| == n && forall i | 0 <= i < n :: Burst(k, n)[i] == Hit(k, 0.0)
  {
    if n > 0 { BurstIs(k, n - 1); }
  }

  lemma NothingFilled(p: Policy, k: Key)
    ensures Filled(Play(p, []).0, Play(p, []).1, k, 0)
  {
  }

  lemma PlaySnoc(p: Policy, run: seq<Hit>, hit: Hit)
    ensures var (s, h) := Play(p, run);
            var (s', v) := Request(p, s, hit.key, hit.at);
            Play(p, run + [hit]) == (s', Recorded(h, hit.key, hit.at, v))
  {
    hide Request, Recorded;
    assert (run + [hit])[..|run|] == run;
  }

  /** A burst no larger than the limit is admitted whole and fills the deque. */
  lemma {:induction false} BurstFills(p: Policy, k: Key, n: nat)
    requires n <= p.limit(k) && p.window(k) >= 0.0
    ensures Filled(Play(p, Burst(k, n)).0, Play(p, Burst(k, n)).1, k, n)
  {
    hide Play, Request, Recorded, Filled;
    if n == 0 {
      NothingFilled(p, k);
    } else {
      BurstFills(p, k, n - 1);
      PlaySnoc(p, Burst(k, n - 1), Hit(k, 0.0));
      OneMoreFills(p, Play(p, Burst(k, n - 1)).0, Play(p, Burst(k, n - 1)).1, k, n - 1);
    }
  }

  /** More than a day later the burst has been swept: the limiter forgets what the history counts. */
  lemma SweepForgets(p: Policy, k: Key)
    requires p.window(k) > DAY
    ensures var run := Burst(k, p.limit(k)) + [Hit(k, p.window(k))];
            && Monotone(run) && run[..|run| - 1] == Burst(k, p.limit(k))
            && LastVerdict(p, run).Admitted?
            && !MayEnter(p, Play(p, run[..|run| - 1]).1, k, p.window(k))
  {
    hide Play, Burst, Since, Times, Repeated, Recorded;
    var n, late := p.limit(k), p.window(k);
    BurstFills(p, k, n);
    BurstIs(k, n);
    var run := Burst(k, n) + [Hit(k, late)];
    assert run[..n] == Burst(k, n);
    RepeatedEffect(n, 0.0, late - DAY);
    RepeatedEffect(n, 0.0, late - p.window(k));
    var (s, h) := Play(p, Burst(k, n));
    assert k !in Swept(s.hits, late);
    assert Trimmed(p, s, k, late) == [];
  }

  /** On every run with a monotone clock, the limiter's last verdict for `k` is the history's. */
  ghost predicate KeepsToHistory(p: Policy, k: Key) {
    forall run: seq<Hit> | Monotone(run) && run != [] && run[|run| - 1].key == k ::
      LastVerdict(p, run).Admitted? <==> MayEnter(p, Play(p, run[..|run| - 1]).1, k, run[|run| - 1].at)
  }

  /**
   * The bound on the window is exact, for every limit: a key's verdicts are the history's on
   * all runs exactly when its window is at most a day.
   */
  lemma WindowBoundExact(p: Policy, k: Key)
    ensures KeepsToHistory(p, k) <==> p.window(k) <= DAY
  {
    if p.window(k) <= DAY {
      forall run: seq<Hit> | Monotone(run) && run != [] && run[|run| - 1].key == k
        ensures LastVerdict(p, run).Admitted? <==> MayEnter(p, Play(p, run[..|run| - 1]).1, k, run[|run| - 1].at)
      {
        AdmitsByHistory(p, run);
      }
    } else {
      SweepForgets(p, k);
      var run := Burst(k, p.limit(k)) + [Hit(k, p.window(k))];
      assert !(LastVerdict(p, run).Admitted? <==> MayEnter(p, Play(p, run[..|run| - 1]).1, k, run[|run| - 1].at));
    }
  }

  // ------------------------------------------------------------------ the running code

  class RateLimiter {
    const policy: Policy
    var hits: Hits
    var lastSweep: real

    constructor (policy: Policy)
      ensures this.policy == policy && hits == map[] && lastSweep == 0.0
    {
      this.policy, hits, lastSweep := policy, map[], 0.0;
    }

    /** Drop stale keys, at most every SWEEP_EVERY seconds. */
    method Sweep(now: real)
      modifies this
      ensures State(hits, lastSweep) == AfterSweep(State(old(hits), old(lastSweep)), now)
    {
      if now - lastSweep < SWEEP_EVERY {
        return;
      }
      lastSweep := now;
      var keys := hits.Keys;
      while keys != {}
        invariant keys <= hits.Keys
        invariant lastSweep == now
        invariant forall k :: k in hits ==> k in old(hits)
        invariant forall k | k in keys :: k in hits && hits[k] == old(hits)[k]
        invariant forall k | k in old(hits) && k !in keys ::
                    var dq := DropOlder(old(hits)[k], now - DAY);
                    (k in hits <==> dq != []) && (k in hits ==> hits[k] == dq)
        decreases keys
      {
        var key :| key in keys;
        keys := keys - {key};
        var dq := PopOlder(hits[key], now - DAY);
        if dq == [] {
          hits := hits - {key};
        } else {
          hits := hits[key := dq];
        }
      }
    }

    /** The dependency body: trim, then refuse with a Retry-After or record the hit. */
    method Check(k: Key, now: real) returns (v: Verdict)
      modifies this
      ensures (State(hits, lastSweep), v) == Request(policy, State(old(hits), old(lastSweep)), k, now)
    {
      var limit, window := policy.limit(k), policy.window(k);
      Sweep(now);
      var dq := PopOlder(if k in hits then hits[k] else [], now - window);
      if |dq| >= limit {
        hits := hits[k := dq];
        return Refused(RetryAfter(dq[0], window, now));
      }
      hits := hits[k := dq + [now]];
      return Admitted;
    }
  }

  method PopOlder(dq0: seq<real>, cutoff: real) returns (dq: seq<real>)
    ensures dq == DropOlder(dq0, cutoff)
  {
    dq := dq0;
    while dq != [] && dq[0] < cutoff
      invariant DropOlder(dq, cutoff) == DropOlder(dq0, cutoff)
      decreases |dq|
    {
      dq := dq[1..];
    }
  }
}
