/** Customer login codes: issue limits and single use, per phone and over whole runs. */
module CustomerOtp {
  import opened Values

  const TTL := 600
  const COOLDOWN := 60
  const MAX_ATTEMPTS := 5
  const MAX_PER_DAY := 10
  const DAY := 86400
  const FETCHED := 50

  /** One code row of a phone, in issue order; times in seconds. */
  datatype Otp = Otp(code: string, sentAt: int, expiresAt: int, attempts: nat, consumed: bool)

  type Table = map<string, seq<Otp>>

  datatype Event =
    | Ask(phone: string, registered: bool, at: int, drawn: string)
    | Guess(phone: string, registered: bool, at: int, code: string)

  datatype Outcome = Quiet | Issued(row: nat) | Opened(row: nat) | Wrong(row: nat)

  function RowsOf(t: Table, phone: string): seq<Otp> {
    if phone in t then t[phone] else []
  }

  /** The newest `n` rows. */
  function Newest(rows: seq<Otp>, n: nat): seq<Otp> {
    if |rows| <= n then rows else rows[|rows| - n..]
  }

  function SentSince(rows: seq<Otp>, start: int): nat {
    if rows == [] then 0
    else SentSince(rows[..|rows| - 1], start) + if rows[|rows| - 1].sentAt >= start then 1 else 0
  }

  function Request(rows: seq<Otp>, at: int, drawn: string): (seq<Otp>, Outcome) {
    var n := |rows|;
    if n > 0 && at - rows[n - 1].sentAt < COOLDOWN then (rows, Quiet)
    else if SentSince(Newest(rows, FETCHED), at - DAY) >= MAX_PER_DAY then (rows, Quiet)
    else (rows + [Otp(drawn, at, at + TTL, 0, false)], Issued(n))
  }

  function Verify(rows: seq<Otp>, at: int, code: string): (seq<Otp>, Outcome) {
    if rows == [] then (rows, Quiet)
    else
      var n := |rows| - 1;
      var rec := rows[n];
      if rec.consumed then (rows, Quiet)
      else if rec.expiresAt < at || rec.attempts >= MAX_ATTEMPTS then (rows[n := rec.(consumed := true)], Quiet)
      else if code != rec.code then
        (rows[n := rec.(attempts := rec.attempts + 1, consumed := rec.attempts + 1 >= MAX_ATTEMPTS)], Wrong(n))
      else (rows[n := rec.(consumed := true)], Opened(n))
  }

  function Step(t: Table, e: Event): (Table, Outcome) {
    if !e.registered then (t, Quiet)
    else
      var (rows, o) := match e
        case Ask(phone, _, at, drawn) => Request(RowsOf(t, phone), at, drawn)
        case Guess(phone, _, at, code) => Verify(RowsOf(t, phone), at, code);
      (if rows == RowsOf(t, e.phone) then t else t[e.phone := rows], o)
  }

  function After(run: seq<Event>): Table {
    if run == [] then map[] else Step(After(run[..|run| - 1]), run[|run| - 1]).0
  }

  /** What step `k` did. */
  function OutcomeOf(run: seq<Event>, k: nat): Outcome
    requires k < |run|
  {
    Step(After(run[..k]), run[k]).1
  }

  predicate Monotone(run: seq<Event>) {
    forall i, j | 0 <= i < j < |run| :: run[i].at <= run[j].at
  }

  // ------------------------------------------------------------------------- issuing

  /** Issue times at least a cooldown apart, none in the future, each good for ten minutes. */
  predicate SpacedRows(rows: seq<Otp>, now: int) {
    && (forall i | 0 <= i < |rows| :: rows[i].sentAt <= now && rows[i].expiresAt == rows[i].sentAt + TTL)
    && (forall i, j | 0 <= i < j < |rows| :: rows[j].sentAt - rows[i].sentAt >= COOLDOWN)
  }

  lemma {:induction false} SentSinceSplit(a: seq<Otp>, b: seq<Otp>, start: int)
    ensures SentSince(a + b, start) == SentSince(a, start) + SentSince(b, start)
  {
    if b == [] {
      assert a + b == a;
    } else {
      assert (a + b)[..|a + b| - 1] == a + b[..|b| - 1];
      SentSinceSplit(a, b[..|b| - 1], start);
    }
  }

  lemma {:induction false} AllSince(rows: seq<Otp>, start: int)
    requires forall i | 0 <= i < |rows| :: rows[i].sentAt >= start
    ensures SentSince(rows, start) == |rows|
  {
    if rows != [] { AllSince(rows[..|rows| - 1], start); }
  }

  lemma {:induction false} NoneSince(rows: seq<Otp>, start: int)
    requires forall i | 0 <= i < |rows| :: rows[i].sentAt < start
    ensures SentSince(rows, start) == 0
  {
    if rows != [] { NoneSince(rows[..|rows| - 1], start); }
  }

  /** The 50-row fetch never hides a code that counts toward the cap. */
  lemma FetchIsEnough(rows: seq<Otp>, now: int, start: int)
    requires SpacedRows(rows, now)
    ensures SentSince(Newest(rows, FETCHED), start) >= MAX_PER_DAY <==> SentSince(rows, start) >= MAX_PER_DAY
  {
    if |rows| > FETCHED {
      var cut := |rows| - FETCHED;
      assert rows == rows[..cut] + rows[cut..];
      SentSinceSplit(rows[..cut], rows[cut..], start);
      if rows[cut].sentAt >= start {
        AllSince(rows[cut..], start);
      } else {
        NoneSince(rows[..cut], start);
      }
    }
  }

  /** Codes sent in a closed interval. */
  function SentWithin(rows: seq<Otp>, from: int, to: int): nat {
    if rows == [] then 0
    else SentWithin(rows[..|rows| - 1], from, to) + if from <= rows[|rows| - 1].sentAt <= to then 1 else 0
  }

  lemma {:induction false} WithinAtMostSince(rows: seq<Otp>, from: int, to: int, start: int)
    requires start <= from
    ensures SentWithin(rows, from, to) <= SentSince(rows, start)
  {
    if rows != [] { WithinAtMostSince(rows[..|rows| - 1], from, to, start); }
  }

  lemma {:induction false} SameTimes(a: seq<Otp>, b: seq<Otp>, from: int, to: int)
    requires |a| == |b| && forall i | 0 <= i < |a| :: a[i].sentAt == b[i].sentAt
    ensures SentWithin(a, from, to) == SentWithin(b, from, to)
  {
    if a != [] { SameTimes(a[..|a| - 1], b[..|b| - 1], from, to); }
  }

  lemma RequestLimits(rows: seq<Otp>, now: int, at: int, drawn: string, from: int)
    requires SpacedRows(rows, now) && now <= at && SentWithin(rows, from, from + DAY) <= MAX_PER_DAY
    ensures var rows' := Request(rows, at, drawn).0;
            SpacedRows(rows', at) && SentWithin(rows', from, from + DAY) <= MAX_PER_DAY
  {
    hide SentSince, Newest, SentWithin;
    var rows' := Request(rows, at, drawn).0;
    FetchIsEnough(rows, now, at - DAY);
    if rows' != rows {
      WithinSnoc(rows, rows'[|rows|], from, from + DAY);
      if from <= at <= from + DAY {
        WithinAtMostSince(rows, from, from + DAY, at - DAY);
      }
    }
  }

  lemma WithinSnoc(rows: seq<Otp>, row: Otp, from: int, to: int)
    ensures SentWithin(rows + [row], from, to) == SentWithin(rows, from, to) + if from <= row.sentAt <= to then 1 else 0
  {
    assert (rows + [row])[..|rows|] == rows;
  }

  /**
   * Issue limits, in every run with a monotone clock: for each phone, codes go out at least
   * 60 seconds apart and at most 10 fall in any closed interval of 24 hours.
   */
  lemma {:induction false} IssueLimits(run: seq<Event>, phone: string, now: int, from: int)
    requires Monotone(run) && (run != [] ==> run[|run| - 1].at <= now)
    ensures SpacedRows(RowsOf(After(run), phone), now)
    ensures SentWithin(RowsOf(After(run), phone), from, from + DAY) <= MAX_PER_DAY
  {
    if run != [] {
      var n := |run| - 1;
      var e := run[n];
      IssueLimits(run[..n], phone, e.at, from);
      var rows, rows' := RowsOf(After(run[..n]), phone), RowsOf(After(run), phone);
      if e.registered && e.phone == phone {
        if e.Ask? {
          RequestLimits(rows, e.at, e.at, e.drawn, from);
        } else {
          VerifyLimits(rows, e.at, e.code, from);
        }
      }
      assert SpacedRows(rows', e.at);
    }
  }

  lemma VerifyLimits(rows: seq<Otp>, at: int, code: string, from: int)
    requires SpacedRows(rows, at)
    ensures var rows' := Verify(rows, at, code).0;
            SpacedRows(rows', at) && SentWithin(rows', from, from + DAY) == SentWithin(rows, from, from + DAY)
  {
    SameTimes(rows, Verify(rows, at, code).0, from, from + DAY);
  }

  // -------------------------------------------------------------------------- single use

  /** How many steps opened a session with code `row` of the phone, or guessed it wrong. */
  function Openings(run: seq<Event>, phone: string, row: nat): nat {
    if run == [] then 0
    else
      var n := |run| - 1;
      Openings(run[..n], phone, row) +
      if run[n].phone == phone && OutcomeOf(run, n) == Opened(row) then 1 else 0
  }

  function WrongGuesses(run: seq<Event>, phone: string, row: nat): nat {
    if run == [] then 0
    else
      var n := |run| - 1;
      WrongGuesses(run[..n], phone, row) +
      if run[n].phone == phone && OutcomeOf(run, n) == Wrong(row) then 1 else 0
  }

  /** The counts a row's own fields bound. */
  predicate RowCounts(rows: seq<Otp>, row: nat, uses: nat, wrong: nat) {
    if row >= |rows| then uses == 0 && wrong == 0
    else
      && uses <= 1 && (uses == 1 ==> rows[row].consumed)
      && wrong == rows[row].attempts <= MAX_ATTEMPTS
      && (rows[row].attempts == MAX_ATTEMPTS ==> rows[row].consumed)
  }

  lemma StepCounts(t: Table, e: Event, row: nat, uses: nat, wrong: nat)
    requires RowCounts(RowsOf(t, e.phone), row, uses, wrong)
    ensures var (t', o) := Step(t, e);
            RowCounts(RowsOf(t', e.phone), row, uses + (if o == Opened(row) then 1 else 0),
                      wrong + if o == Wrong(row) then 1 else 0)
  {
  }

  /** Each code opens at most one session and answers at most five wrong guesses, in every run. */
  lemma {:induction false} SingleUse(run: seq<Event>, phone: string, row: nat)
    ensures RowCounts(RowsOf(After(run), phone), row, Openings(run, phone, row), WrongGuesses(run, phone, row))
    ensures Openings(run, phone, row) <= 1 && WrongGuesses(run, phone, row) <= MAX_ATTEMPTS
  {
    if run != [] {
      var n := |run| - 1;
      SingleUse(run[..n], phone, row);
      assert run[..n + 1] == run;
      if run[n].phone == phone {
        StepCounts(After(run[..n]), run[n], row, Openings(run[..n], phone, row), WrongGuesses(run[..n], phone, row));
      }
    }
  }

  /** A step opens a session exactly when the newest code of a registered phone is unexpired,
      not yet used up, and is the one given. */
  lemma OpensExactly(run: seq<Event>, k: nat)
    requires k < |run| && run[k].Guess?
    ensures OutcomeOf(run, k).Opened? <==>
            var rows := RowsOf(After(run[..k]), run[k].phone);
            && run[k].registered && rows != []
            && !rows[|rows| - 1].consumed && run[k].at <= rows[|rows| - 1].expiresAt
            && run[k].code == rows[|rows| - 1].code
    ensures OutcomeOf(run, k).Opened? ==> OutcomeOf(run, k) == Opened(|RowsOf(After(run[..k]), run[k].phone)| - 1)
  {
    var rows := RowsOf(After(run[..k]), run[k].phone);
    if rows != [] {
      SingleUse(run[..k], run[k].phone, |rows| - 1);
    }
  }

  /**
   * When a code goes out, in every run with a monotone clock: exactly to a registered phone whose
   * last code is at least 60 seconds old and that got fewer than 10 in the last 24 hours. It is
   * the drawn one, fresh, and good for ten minutes; otherwise the table stays as it is.
   */
  lemma IssuesExactly(run: seq<Event>, k: nat)
    requires Monotone(run) && k < |run| && run[k].Ask?
    ensures var rows, e := RowsOf(After(run[..k]), run[k].phone), run[k];
            && (OutcomeOf(run, k).Issued? <==>
                  && e.registered && (rows != [] ==> e.at - rows[|rows| - 1].sentAt >= 60)
                  && SentSince(rows, e.at - 86400) < 10)
            && (OutcomeOf(run, k).Issued? ==>
                  && OutcomeOf(run, k) == Issued(|rows|)
                  && RowsOf(After(run[..k + 1]), e.phone) == rows + [Otp(e.drawn, e.at, e.at + 600, 0, false)])
            && (!OutcomeOf(run, k).Issued? ==> After(run[..k + 1]) == After(run[..k]))
  {
    var e := run[k];
    IssueLimits(run[..k], e.phone, e.at, 0);
    FetchIsEnough(RowsOf(After(run[..k]), e.phone), e.at, e.at - 86400);
    assert run[..k + 1][..k] == run[..k] && run[..k + 1][k] == e;
  }

  /**
   * What a guess does to the newest code, in every run: a right one uses it up, a wrong one counts
   * against it and uses it up at the fifth, an expired code is used up whatever is guessed, and a
   * used one is left alone. Older codes are never looked at.
   */
  lemma GuessExact(run: seq<Event>, k: nat)
    requires k < |run| && run[k].Guess? && run[k].registered && RowsOf(After(run[..k]), run[k].phone) != []
    ensures var rows, e := RowsOf(After(run[..k]), run[k].phone), run[k];
            var rows' := RowsOf(After(run[..k + 1]), e.phone);
            var n := |rows| - 1;
            && |rows'| == |rows| && rows'[..n] == rows[..n]
            && rows'[n] == (if rows[n].consumed then rows[n]
                            else if e.at <= rows[n].expiresAt && e.code != rows[n].code then
                              Otp(rows[n].code, rows[n].sentAt, rows[n].expiresAt, rows[n].attempts + 1,
                                  rows[n].attempts + 1 == 5)
                            else rows[n].(consumed := true))
            && (OutcomeOf(run, k).Wrong? <==>
                  !rows[n].consumed && e.at <= rows[n].expiresAt && e.code != rows[n].code)
  {
    var rows := RowsOf(After(run[..k]), run[k].phone);
    SingleUse(run[..k], run[k].phone, |rows| - 1);
    assert run[..k + 1][..k] == run[..k] && run[..k + 1][k] == run[k];
  }

  // ------------------------------------------------------------------ the running code

  class CustomerLogin {
    var otps: Table

    constructor ()
      ensures otps == map[]
    {
      otps := map[];
    }

    method RequestOtp(phone: string, registered: bool, now: int, drawn: string) returns (o: Outcome)
      modifies this
      ensures (otps, o) == Step(old(otps), Ask(phone, registered, now, drawn))
    {
      if !registered {
        return Quiet;
      }
      var rows := RowsOf(otps, phone);
      if rows != [] && now - rows[|rows| - 1].sentAt < COOLDOWN {
        return Quiet;
      }
      var fetched := Newest(rows, FETCHED);
      var today := 0;
      for i := 0 to |fetched|
        invariant today == SentSince(fetched[..i], now - DAY)
      {
        assert fetched[..i + 1][..i] == fetched[..i];
        if fetched[i].sentAt >= now - DAY {
          today := today + 1;
        }
      }
      assert fetched[..|fetched|] == fetched;
      if today >= MAX_PER_DAY {
        return Quiet;
      }
      otps := otps[phone := rows + [Otp(drawn, now, now + TTL, 0, false)]];
      o := Issued(|rows|);
    }

    method VerifyOtp(phone: string, registered: bool, now: int, code: string) returns (o: Outcome)
      modifies this
      ensures (otps, o) == Step(old(otps), Guess(phone, registered, now, code))
    {
      if !registered {
        return Quiet;
      }
      var rows := RowsOf(otps, phone);
      if rows == [] {
        return Quiet;
      }
      var n := |rows| - 1;
      var rec := rows[n];
      if rec.consumed {
        return Quiet;
      }
      if rec.expiresAt < now || rec.attempts >= MAX_ATTEMPTS {
        otps := otps[phone := rows[n := rec.(consumed := true)]];
        return Quiet;
      }
      if code != rec.code {
        var attempts := rec.attempts + 1;
        otps := otps[phone := rows[n := rec.(attempts := attempts, consumed := attempts >= MAX_ATTEMPTS)]];
        return Wrong(n);
      }
      otps := otps[phone := rows[n := rec.(consumed := true)]];
      o := Opened(n);
    }
  }
}
