/** Staff second factor: time-based codes with replay protection, and one-time backup codes. */
module Mfa {
  import opened Values

  const DIGITS := 6
  const PERIOD := 30

  // ----------------------------------------------------------------- codes from digests

  predicate IsDigit(c: char) {
    '0' <= c <= '9'
  }

  /** The only codes `verify` looks at. */
  predicate WellFormed(code: string) {
    |code| == DIGITS && forall i | 0 <= i < DIGITS :: IsDigit(code[i])
  }

  /** `n` decimal digits of `v`, zero-filled on the left. */
  function Fill(v: nat, n: nat): (s: string)
    ensures |s| == n && forall i | 0 <= i < n :: IsDigit(s[i])
  {
    if n == 0 then "" else Fill(v / 10, n - 1) + ['0' + (v % 10) as char]
  }

  function ValueOf(s: string): int {
    if s == "" then 0 else 10 * ValueOf(s[..|s| - 1]) + (s[|s| - 1] as int - '0' as int)
  }

  function Pow10(n: nat): nat {
    if n == 0 then 1 else 10 * Pow10(n - 1)
  }

  lemma {:induction false} FillKeepsValue(v: nat, n: nat)
    requires v < Pow10(n)
    ensures ValueOf(Fill(v, n)) == v
  {
    if n > 0 {
      FillKeepsValue(v / 10, n - 1);
      var s := Fill(v, n);
      assert s[..n - 1] == Fill(v / 10, n - 1);
    }
  }

  predicate Bytes(digest: seq<int>) {
    forall i | 0 <= i < |digest| :: 0 <= digest[i] < 256
  }

  /** Dynamic truncation of a 20-byte digest (section 5.3 of RFC 4226) to six digits. */
  function Truncate(digest: seq<int>): string
    requires |digest| == 20 && Bytes(digest)
  {
    var o := digest[19] % 16;
    Fill(Word(digest[o], digest[o + 1], digest[o + 2], digest[o + 3]) % 0x8000_0000 % 1_000_000, DIGITS)
  }

  /** Four bytes read as one big-endian number. */
  function Word(a: int, b: int, c: int, d: int): int {
    ((a * 256 + b) * 256 + c) * 256 + d
  }

  /** A truncated digest is always a code `verify` accepts for comparison, and the six digits
      stand for the truncated 31-bit number modulo a million, nothing lost. */
  lemma TruncateIsWellFormed(digest: seq<int>)
    requires |digest| == 20 && Bytes(digest)
    ensures WellFormed(Truncate(digest))
    ensures var o := digest[19] % 16;
            ValueOf(Truncate(digest)) ==
            (digest[o] % 128 * 0x100_0000 + digest[o + 1] * 0x1_0000 + digest[o + 2] * 0x100 + digest[o + 3])
            % 1_000_000
  {
    var o := digest[19] % 16;
    var a, b, c, d := digest[o], digest[o + 1], digest[o + 2], digest[o + 3];
    TopBit(a, b, c, d);
    Million();
    FillKeepsValue(Word(a, b, c, d) % 0x8000_0000 % 1_000_000, DIGITS);
  }

  lemma Million()
    ensures Pow10(6) == 1_000_000
  {
    assert Pow10(2) == 100;
    assert Pow10(4) == 100 * Pow10(2);
    assert Pow10(6) == 100 * Pow10(4);
  }

  /** Clearing the top bit of the word clears it in the first byte. */
  lemma TopBit(a: int, b: int, c: int, d: int)
    requires 0 <= a < 256 && 0 <= b < 256 && 0 <= c < 256 && 0 <= d < 256
    ensures Word(a, b, c, d) % 0x8000_0000 == a % 128 * 0x100_0000 + b * 0x1_0000 + c * 0x100 + d
  {
    var low := a % 128 * 0x100_0000 + b * 0x1_0000 + c * 0x100 + d;
    assert a == 128 * (a / 128) + a % 128;
    assert Word(a, b, c, d) == (a / 128) * 0x8000_0000 + low;
    assert 0 <= low < 0x8000_0000;
    assert 0 <= a / 128 <= 1;
  }

  // ------------------------------------------------------------------------ the factor

  /** `hotp` gives the code of a secret at a time step; `opens` checks a code against a hash. */
  datatype Device = Device(hotp: (string, int) -> string, opens: (string, string) -> bool)

  datatype Backup = Backup(hash: string, used: bool)

  datatype User = User(enrolled: bool, secret: Option<string>, lastStep: Option<int>, backups: seq<Backup>)

  function CurrentStep(now: int): int {
    now / PERIOD
  }

  /** The earliest step from `from` to `last` whose code this is. */
  function FirstMatch(d: Device, secret: string, code: string, from: int, last: int): (r: Option<int>)
    ensures r.Some? ==> from <= r.value <= last && d.hotp(secret, r.value) == code
    ensures r.Some? ==> forall s | from <= s < r.value :: d.hotp(secret, s) != code
    ensures r.None? ==> forall s | from <= s <= last :: d.hotp(secret, s) != code
    decreases if from > last then 0 else last - from + 1
  {
    if from > last then None
    else if d.hotp(secret, from) == code then Some(from)
    else FirstMatch(d, secret, code, from + 1, last)
  }

  function Verify(d: Device, secret: string, code: string, now: int): Option<int> {
    if !WellFormed(code) then None
    else FirstMatch(d, secret, code, CurrentStep(now) - 1, CurrentStep(now) + 1)
  }

  /** The loop over offsets -window .. window, first match wins. */
  method VerifyCode(d: Device, secret: string, code: string, window: nat, now: int) returns (matched: Option<int>)
    ensures matched == if WellFormed(code)
                       then FirstMatch(d, secret, code, CurrentStep(now) - window, CurrentStep(now) + window)
                       else None
    ensures window == 1 ==> matched == Verify(d, secret, code, now)
  {
    if !WellFormed(code) {
      return None;
    }
    var step := CurrentStep(now);
    var w: int := 0 - window;
    while w <= window
      invariant 0 - window <= w <= window + 1
      invariant FirstMatch(d, secret, code, step - window, step + window) ==
                FirstMatch(d, secret, code, step + w, step + window)
      decreases window - w
    {
      if d.hotp(secret, step + w) == code {
        return Some(step + w);
      }
      w := w + 1;
    }
    return None;
  }

  datatype Outcome = Refused | ByStep(step: int) | ByBackup(entry: nat)

  function FindBackup(d: Device, backups: seq<Backup>, code: string): (r: Option<nat>)
    ensures r.Some? ==> r.value < |backups| && !backups[r.value].used && d.opens(code, backups[r.value].hash)
    ensures forall i | 0 <= i < (if r.Some? then r.value else |backups|) ::
              backups[i].used || !d.opens(code, backups[i].hash)
  {
    if backups == [] then None
    else if !backups[0].used && d.opens(code, backups[0].hash) then Some(0)
    else
      match FindBackup(d, backups[1..], code)
      case Some(i) => Some(i + 1)
      case None => None
  }

  function LastStep(u: User): int {
    if u.lastStep.Some? then u.lastStep.value else 0
  }

  /** A time code, unless its step was already used; else a backup code. */
  function CheckSecondFactor(d: Device, u: User, code: string, now: int): (User, Outcome) {
    var step := if u.secret.Some? then Verify(d, u.secret.value, code, now) else None;
    if step.Some? then
      if step.value <= LastStep(u) then (u, Refused) else (u.(lastStep := step), ByStep(step.value))
    else
      match FindBackup(d, u.backups, code)
      case Some(i) => (u.(backups := u.backups[i := u.backups[i].(used := true)]), ByBackup(i))
      case None => (u, Refused)
  }

  datatype Event =
    | Enroll(secret: string)
    | Activate(code: string, at: int, hashes: seq<string>)
    | Present(code: string, at: int)
    | Disable(code: string, at: int)

  function Fresh(hashes: seq<string>): (r: seq<Backup>)
    ensures |r| == |hashes| && forall i | 0 <= i < |r| :: r[i] == Backup(hashes[i], false)
  {
    if hashes == [] then [] else [Backup(hashes[0], false)] + Fresh(hashes[1..])
  }

  function Step(d: Device, u: User, e: Event): (User, Outcome) {
    match e
    case Enroll(secret) => if u.enrolled then (u, Refused) else (u.(secret := Some(secret)), Refused)
    case Activate(code, at, hashes) =>
      if u.enrolled || u.secret == None then (u, Refused)
      else
        (match Verify(d, u.secret.value, code, at)
         case Some(s) => (User(true, u.secret, Some(s), Fresh(hashes)), ByStep(s))
         case None => (u, Refused))
    case Present(code, at) => if u.enrolled then CheckSecondFactor(d, u, code, at) else (u, Refused)
    case Disable(code, at) =>
      if !u.enrolled then (u, Refused)
      else
        var (u', o) := CheckSecondFactor(d, u, code, at);
        if o.Refused? then (u', o) else (User(false, None, None, []), o)
  }

  function After(d: Device, run: seq<Event>): User {
    if run == [] then User(false, None, None, []) else Step(d, After(d, run[..|run| - 1]), run[|run| - 1]).0
  }

  function OutcomeOf(d: Device, run: seq<Event>, k: nat): Outcome
    requires k < |run|
  {
    Step(d, After(d, run[..k]), run[k]).1
  }

  /** Time steps accepted in the current enrolment, the activating one first. */
  function StepsUsed(d: Device, run: seq<Event>): seq<int> {
    if run == [] then []
    else
      var n := |run| - 1;
      if !After(d, run).enrolled then []
      else if !After(d, run[..n]).enrolled then
        (if OutcomeOf(d, run, n).ByStep? then [OutcomeOf(d, run, n).step] else [])
      else StepsUsed(d, run[..n]) + if OutcomeOf(d, run, n).ByStep? then [OutcomeOf(d, run, n).step] else []
  }

  predicate Increasing(xs: seq<int>) {
    forall i, j | 0 <= i < j < |xs| :: xs[i] < xs[j]
  }

  /**
   * Replay protection, in every run (section 5.2 of RFC 6238): the time steps accepted within
   * one enrolment strictly increase from the activating one, so none is accepted twice.
   */
  lemma {:induction false} StepsIncrease(d: Device, run: seq<Event>)
    ensures Increasing(StepsUsed(d, run))
    ensures After(d, run).enrolled ==>
              && After(d, run).secret.Some? && StepsUsed(d, run) != []
              && After(d, run).lastStep == Some(StepsUsed(d, run)[|StepsUsed(d, run)| - 1])
  {
    if run != [] {
      var n := |run| - 1;
      StepsIncrease(d, run[..n]);
      StepAdvances(d, After(d, run[..n]), run[n]);
    }
  }

  /** What one request does to the replay mark of an enrolled user. */
  lemma StepAdvances(d: Device, u: User, e: Event)
    requires u.enrolled ==> u.secret.Some? && u.lastStep.Some?
    ensures var (u', o) := Step(d, u, e);
            u'.enrolled ==>
              && u'.secret.Some? && u'.lastStep.Some?
              && (if o.ByStep? then u'.lastStep == Some(o.step) && (u.enrolled ==> u.lastStep.value < o.step)
                  else u.enrolled && u'.lastStep == u.lastStep)
  {
  }

  /** An accepted step lies within one of the current one and its code is the one given. */
  lemma AcceptedStepIsCurrent(d: Device, run: seq<Event>, k: nat)
    requires k < |run| && OutcomeOf(d, run, k).ByStep?
    ensures !run[k].Enroll? && After(d, run[..k]).secret.Some?
    ensures var s := OutcomeOf(d, run, k).step;
            && CurrentStep(run[k].at) - 1 <= s <= CurrentStep(run[k].at) + 1
            && d.hotp(After(d, run[..k]).secret.value, s) == run[k].code && WellFormed(run[k].code)
  {
  }

  /** Uses of one backup entry in the current enrolment. */
  function BackupUses(d: Device, run: seq<Event>, i: nat): nat {
    if run == [] then 0
    else
      var n := |run| - 1;
      if !After(d, run).enrolled || !After(d, run[..n]).enrolled then 0
      else BackupUses(d, run[..n], i) + if OutcomeOf(d, run, n) == ByBackup(i) then 1 else 0
  }

  /** Each backup code works at most once per enrolment: the entry is marked the first time. */
  lemma {:induction false} BackupsAreSingleUse(d: Device, run: seq<Event>, i: nat)
    ensures BackupUses(d, run, i) <= 1
    ensures var u := After(d, run);
            BackupUses(d, run, i) == if u.enrolled && i < |u.backups| && u.backups[i].used then 1 else 0
  {
    if run != [] {
      BackupsAreSingleUse(d, run[..|run| - 1], i);
    }
  }

  /** A code stands for this step: six digits, the secret's code there, within 30-second reach. */
  predicate CodeAt(d: Device, secret: string, code: string, step: int, now: int) {
    && |code| == 6 && (forall i | 0 <= i < 6 :: '0' <= code[i] <= '9')
    && now / 30 - 1 <= step <= now / 30 + 1 && d.hotp(secret, step) == code
  }

  /**
   * When a factor is accepted, after any run. A code that stands for some step in reach is
   * accepted as such exactly when the earliest such step is later than the last one used, and is
   * never tried as a backup code; any other is accepted exactly when it opens an unused entry,
   * the first of which is spent. Nothing else about the account changes.
   */
  lemma PresentExact(d: Device, run: seq<Event>, code: string, now: int)
    requires After(d, run).enrolled
    ensures var u, (u', o) := After(d, run), Step(d, After(d, run), Present(code, now));
            u.secret.Some? && u.lastStep.Some? &&
            if exists s :: CodeAt(d, u.secret.value, code, s, now) then
              exists s :: CodeAt(d, u.secret.value, code, s, now) &&
                (forall e | CodeAt(d, u.secret.value, code, e, now) :: s <= e) &&
                if s > u.lastStep.value then o == ByStep(s) && u' == u.(lastStep := Some(s))
                else o == Refused && u' == u
            else if exists i :: Opens(d, u, code, i) then
              exists i: nat :: Opens(d, u, code, i) && (forall e | Opens(d, u, code, e) :: i <= e) &&
                o == ByBackup(i) && u' == u.(backups := u.backups[i := Backup(u.backups[i].hash, true)])
            else o == Refused && u' == u
  {
    StepsIncrease(d, run);
    var u := After(d, run);
    var v := Verify(d, u.secret.value, code, now);
    if v.Some? {
      assert CodeAt(d, u.secret.value, code, v.value, now);
    } else {
      var b := FindBackup(d, u.backups, code);
      if b.Some? { assert Opens(d, u, code, b.value); }
    }
  }

  /** An unused backup entry that this code opens. */
  predicate Opens(d: Device, u: User, code: string, i: int) {
    0 <= i < |u.backups| && !u.backups[i].used && d.opens(code, u.backups[i].hash)
  }

  /**
   * Enrolment, after any run: it is activated exactly by a code of the pending secret, starting
   * its replay mark at the matched step and its backup codes unused; it ends exactly by an
   * accepted factor, and then leaves nothing behind.
   */
  lemma EnrolmentExact(d: Device, run: seq<Event>, e: Event)
    ensures var u, u' := After(d, run), Step(d, After(d, run), e).0;
            match e
            case Enroll(secret) => u' == if u.enrolled then u else u.(secret := Some(secret))
            case Activate(code, at, hashes) =>
              && (u'.enrolled <==>
                    u.enrolled || (u.secret.Some? && exists s :: CodeAt(d, u.secret.value, code, s, at)))
              && (u.enrolled || !u'.enrolled ==> u' == u)
              && (!u.enrolled && u'.enrolled ==>
                    && u'.secret == u.secret && u'.lastStep.Some?
                    && CodeAt(d, u.secret.value, code, u'.lastStep.value, at)
                    && |u'.backups| == |hashes|
                    && forall i | 0 <= i < |hashes| :: u'.backups[i] == Backup(hashes[i], false))
            case Present(_, _) =>
              && u'.enrolled == u.enrolled && u'.secret == u.secret
              && (!u.enrolled ==> u' == u && Step(d, u, e).1 == Refused)
            case Disable(code, at) =>
              var o := Step(d, u, Present(code, at)).1;
              u' == if u.enrolled && o != Refused then User(false, None, None, []) else u
  {
    var u := After(d, run);
    match e
    case Activate(code, at, _) =>
      if u.secret.Some? {
        var v := Verify(d, u.secret.value, code, at);
        if v.Some? { assert CodeAt(d, u.secret.value, code, v.value, at); }
      }
    case _ =>
  }

  // ------------------------------------------------------------------ the running code

  class Account {
    const device: Device
    var enrolled: bool
    var secret: Option<string>
    var lastStep: Option<int>
    var backups: seq<Backup>

    ghost function State(): User
      reads this
    {
      User(enrolled, secret, lastStep, backups)
    }

    constructor (device: Device)
      ensures this.device == device && State() == User(false, None, None, [])
    {
      this.device := device;
      enrolled, secret, lastStep, backups := false, None, None, [];
    }

    method CheckFactor(code: string, now: int) returns (o: Outcome)
      modifies this
      ensures (State(), o) == CheckSecondFactor(device, old(State()), code, now)
    {
      if secret.Some? && WellFormed(code) {
        var step := VerifyCode(device, secret.value, code, 1, now);
        if step.Some? {
          if step.value <= (if lastStep.Some? then lastStep.value else 0) {
            return Refused;
          }
          lastStep := step;
          return ByStep(step.value);
        }
      }
      var entry := MatchBackup(code);
      if entry.Some? {
        backups := backups[entry.value := backups[entry.value].(used := true)];
        return ByBackup(entry.value);
      }
      return Refused;
    }

    /** The first unused entry the code opens. */
    method MatchBackup(code: string) returns (entry: Option<nat>)
      ensures entry == FindBackup(device, backups, code)
    {
      assert backups[0..] == backups;
      for i := 0 to |backups|
        invariant FindBackup(device, backups, code) ==
                  match FindBackup(device, backups[i..], code)
                  case Some(k) => Some(k + i)
                  case None => None
      {
        assert backups[i..][0] == backups[i] && backups[i..][1..] == backups[i + 1..];
        if !backups[i].used && device.opens(code, backups[i].hash) {
          return Some(i);
        }
      }
      return None;
    }

    method BeginEnrolment(given: string) returns (ok: bool)
      modifies this
      ensures ok == !old(enrolled) && State() == Step(device, old(State()), Enroll(given)).0
    {
      if enrolled {
        return false;
      }
      secret := Some(given);
      ok := true;
    }

    method ActivateMfa(code: string, now: int, hashes: seq<string>) returns (o: Outcome)
      modifies this
      ensures (State(), o) == Step(device, old(State()), Activate(code, now, hashes))
    {
      if enrolled || secret == None {
        return Refused;
      }
      var step := VerifyCode(device, secret.value, code, 1, now);
      if step == None {
        return Refused;
      }
      enrolled, lastStep, backups := true, step, Fresh(hashes);
      o := ByStep(step.value);
    }

    method DisableMfa(code: string, now: int) returns (o: Outcome)
      modifies this
      ensures (State(), o) == Step(device, old(State()), Disable(code, now))
    {
      if !enrolled {
        return Refused;
      }
      o := CheckFactor(code, now);
      if o != Refused {
        enrolled, secret, backups, lastStep := false, None, [], None;
      }
    }
  }
}
