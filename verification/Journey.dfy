/** The journey log against the stage history, and the derived lifecycle phase. */
module Journey {
  import opened Values
  import opened Pipeline

  /** Where the history sends one lead, by moves alone or by bookings too. */
  function Targets(history: seq<Moved>, l: nat, bookings: bool): seq<int> {
    if history == [] then []
    else
      var m := history[|history| - 1];
      Targets(history[..|history| - 1], l, bookings) +
      if m.lead == l && (bookings || !m.byBooking) then [m.to] else []
  }

  function Stages(journey: seq<Visit>): seq<int> {
    if journey == [] then [] else Stages(journey[..|journey| - 1]) + [journey[|journey| - 1].stage]
  }

  function MaxOf(xs: seq<int>, least: int): int {
    if xs == [] then least else Max(MaxOf(xs[..|xs| - 1], least), xs[|xs| - 1])
  }

  /** Entered and left in order, at most the last entry open, nothing later than `now`. */
  predicate Ordered(journey: seq<Visit>, now: int) {
    && (forall i | 0 <= i < |journey| ::
          && journey[i].enteredAt <= now
          && (journey[i].exitedAt.Some? ==> journey[i].enteredAt <= journey[i].exitedAt.value <= now))
    && forall i | 0 <= i < |journey| - 1 ::
         journey[i].exitedAt.Some? && journey[i].exitedAt.value <= journey[i + 1].enteredAt
  }

  predicate Records(w: World, l: nat, now: int)
    requires l < |w.leads|
  {
    var lead := w.leads[l];
    && lead.journey != [] && Ordered(lead.journey, now)
    && Stages(lead.journey) == [1] + Targets(w.history, l, false)
    && lead.furthest == MaxOf(Targets(w.history, l, true), 1)
    && (lead.deliveredAt.Some? <==> lead.furthest == 9)
    && 1 <= lead.stage <= lead.furthest <= 9
  }

  predicate InOrder(run: seq<Timed>) {
    forall i, j | 0 <= i < j < |run| :: run[i].at <= run[j].at
  }

  lemma TargetsSnoc(history: seq<Moved>, m: Moved, l: nat, bookings: bool)
    ensures Targets(history + [m], l, bookings) ==
            Targets(history, l, bookings) + if m.lead == l && (bookings || !m.byBooking) then [m.to] else []
  {
    assert (history + [m])[..|history|] == history;
  }

  lemma StagesSnoc(journey: seq<Visit>, v: Visit)
    ensures Stages(journey + [v]) == Stages(journey) + [v.stage]
  {
    assert (journey + [v])[..|journey|] == journey;
  }

  lemma MaxOfSnoc(xs: seq<int>, x: int, least: int)
    ensures MaxOf(xs + [x], least) == Max(MaxOf(xs, least), x)
  {
    assert (xs + [x])[..|xs|] == xs;
  }

  /** In an ordered journey only the last entry can be the one that gets closed. */
  lemma CloseOpenIsLast(journey: seq<Visit>, ts: int, now: int)
    requires journey != [] && Ordered(journey, now) && now <= ts
    ensures var closed := CloseOpen(journey, ts);
            && |closed| == |journey| && Ordered(closed, ts) && Stages(closed) == Stages(journey)
            && (forall i | 0 <= i < |closed| :: closed[i].exitedAt.Some?)
  {
    var n := |journey| - 1;
    if journey[n].exitedAt == None {
      var last := journey[n].(exitedAt := Some(ts));
      StagesSnoc(journey[..n], last);
      LastClosedOrdered(journey, last, ts, now);
    } else {
      NothingOpen(journey, ts);
      OrderedLater(journey, now, ts);
    }
  }

  lemma OrderedLater(journey: seq<Visit>, now: int, ts: int)
    requires Ordered(journey, now) && now <= ts
    ensures Ordered(journey, ts)
  {
  }

  lemma LastClosedOrdered(journey: seq<Visit>, last: Visit, ts: int, now: int)
    requires journey != [] && Ordered(journey, now) && now <= ts
    requires last == journey[|journey| - 1].(exitedAt := Some(ts))
    ensures Ordered(journey[..|journey| - 1] + [last], ts)
  {
  }

  lemma {:induction false} NothingOpen(journey: seq<Visit>, ts: int)
    requires forall i | 0 <= i < |journey| :: journey[i].exitedAt.Some?
    ensures CloseOpen(journey, ts) == journey
  {
    if journey != [] {
      NothingOpen(journey[..|journey| - 1], ts);
    }
  }

  lemma TransitionOrdered(journey: seq<Visit>, to: int, ts: int, now: int)
    requires journey != [] && Ordered(journey, now) && now <= ts
    ensures Ordered(Transition(journey, to, ts), ts)
    ensures Stages(Transition(journey, to, ts)) == Stages(journey) + [to]
  {
    var closed := CloseOpen(journey, ts);
    CloseOpenIsLast(journey, ts, now);
    StagesSnoc(closed, Visit(to, ts, None));
    AppendOrdered(closed, to, ts);
  }

  lemma AppendOrdered(closed: seq<Visit>, to: int, ts: int)
    requires Ordered(closed, ts) && forall i | 0 <= i < |closed| :: closed[i].exitedAt.Some?
    ensures Ordered(closed + [Visit(to, ts, None)], ts)
  {
  }

  lemma RecordsLater(w: World, l: nat, now: int, now': int)
    requires l < |w.leads| && Records(w, l, now) && now <= now'
    ensures Records(w, l, now')
  {
  }

  /** A history row about another lead is not seen by this one. */
  lemma OtherTargets(history: seq<Moved>, m: Moved, l: nat)
    requires m.lead != l
    ensures Targets(history + [m], l, false) == Targets(history, l, false)
    ensures Targets(history + [m], l, true) == Targets(history, l, true)
  {
    TargetsSnoc(history, m, l, false);
    TargetsSnoc(history, m, l, true);
  }

  lemma MoveRecords(w: World, l: nat, to: int, override: bool, ts: int, now: int)
    requires l < |w.leads| && Records(w, l, now) && now <= ts && MoveAllowed(w, l, to, override)
    ensures Records(MoveLead(w, l, to, override, ts), l, ts)
  {
    hide Ordered, CloseOpen, Stages, Targets, MaxOf, Derive, GateOpen;
    var m, lead := Moved(l, w.leads[l].stage, to, false), w.leads[l];
    TargetsSnoc(w.history, m, l, false);
    TargetsSnoc(w.history, m, l, true);
    TransitionOrdered(lead.journey, to, ts, now);
    MaxOfSnoc(Targets(w.history, l, true), to, 1);
    assert [1] + Targets(w.history, l, false) + [to] == [1] + (Targets(w.history, l, false) + [to]);
  }

  lemma BookRecords(w: World, l: nat, amount: Option<real>, ts: int, now: int)
    requires l < |w.leads| && Records(w, l, now) && now <= ts && BookingAllowed(w, l)
    ensures Records(BookLead(w, l, amount), l, ts)
  {
    RecordsLater(w, l, now, ts);
    hide Ordered, Stages, Targets, MaxOf, Derive;
    var w', lead := BookLead(w, l, amount), w.leads[l];
    assert w'.leads[l].journey == lead.journey && w'.leads[l].deliveredAt == lead.deliveredAt;
    if lead.stage < 4 {
      BookedTargets(w.history, Moved(l, lead.stage, 4, true), l);
    }
  }

  /** A booking row counts toward the furthest stage, but not toward the journey. */
  lemma BookedTargets(history: seq<Moved>, m: Moved, l: nat)
    requires m.lead == l && m.byBooking
    ensures Targets(history + [m], l, false) == Targets(history, l, false)
    ensures MaxOf(Targets(history + [m], l, true), 1) == Max(MaxOf(Targets(history, l, true), 1), m.to)
  {
    TargetsSnoc(history, m, l, false);
    TargetsSnoc(history, m, l, true);
    MaxOfSnoc(Targets(history, l, true), m.to, 1);
  }

  lemma CloseRecords(w: World, l: nat, status: Status, reason: bool, wonValue: bool, ts: int, now: int)
    requires l < |w.leads| && Records(w, l, now) && now <= ts
    ensures Records(CloseLead(w, l, status, reason, wonValue, ts), l, ts)
  {
    RecordsLater(w, l, now, ts);
    CloseOpenIsLast(w.leads[l].journey, ts, now);
    hide Ordered, Stages, Targets, MaxOf, Derive, CloseOpen;
  }

  /** The lead an event is about, if any. */
  function Subject(e: Event): Option<nat> {
    match e
    case Move(l, _, _) => Some(l)
    case Close(l, _, _, _) => Some(l)
    case Book(l, _) => Some(l)
    case Patch(l, _) => Some(l)
    case _ => None
  }

  /** Every other lead is left alone, and so is what history says about it. */
  lemma OtherUntouched(w: World, e: Timed, k: nat)
    requires k < |w.leads| && Subject(e.event) != Some(k)
    ensures k < |Step(w, e).leads| && Step(w, e).leads[k] == w.leads[k]
    ensures Targets(Step(w, e).history, k, false) == Targets(w.history, k, false)
    ensures Targets(Step(w, e).history, k, true) == Targets(w.history, k, true)
  {
    match e.event
    case Move(l, to, _) =>
      if l < |w.leads| { OtherTargets(w.history, Moved(l, w.leads[l].stage, to, false), k); }
    case Book(l, _) =>
      if l < |w.leads| { OtherTargets(w.history, Moved(l, w.leads[l].stage, 4, true), k); }
    case _ =>
  }

  lemma StepRecords(w: World, e: Timed, now: int, k: nat)
    requires k < |w.leads| && Records(w, k, now) && now <= e.at
    ensures k < |Step(w, e).leads| && Records(Step(w, e), k, e.at)
  {
    hide Ordered, Stages, Targets, MaxOf, Derive, CloseOpen, GateOpen, Transition;
    RecordsLater(w, k, now, e.at);
    if Subject(e.event) != Some(k) {
      OtherUntouched(w, e, k);
    } else {
      match e.event
      case Move(l, to, override) =>
        if MoveAllowed(w, l, to, override) { MoveRecords(w, l, to, override, e.at, now); }
      case Close(l, status, reason, wonValue) => CloseRecords(w, l, status, reason, wonValue, e.at, now);
      case Book(l, amount) =>
        if BookingAllowed(w, l) { BookRecords(w, l, amount, e.at, now); }
      case Patch(_, _) =>
    }
  }

  /** History rows only ever name leads that exist. */
  predicate HistoryNames(w: World) {
    forall i | 0 <= i < |w.history| :: w.history[i].lead < |w.leads|
  }

  lemma {:induction false} NoTargets(history: seq<Moved>, l: nat, bookings: bool)
    requires forall i | 0 <= i < |history| :: history[i].lead < l
    ensures Targets(history, l, bookings) == []
  {
    if history != [] {
      NoTargets(history[..|history| - 1], l, bookings);
    }
  }

  lemma CreateRecords(w: World, e: Timed)
    requires HistoryNames(w) && e.event == Create
    ensures Records(Step(w, e), |w.leads|, e.at)
  {
    NoTargets(w.history, |w.leads|, false);
    NoTargets(w.history, |w.leads|, true);
    var v := Visit(1, e.at, None);
    assert [v][..0] == [] && Stages([v]) == [1];
    assert [1] + [] == [1];
  }

  /**
   * The journey refines the history, over every run with a clock that never runs back: its
   * stages are 1 followed by the targets of the lead's moves, at most its last entry is open,
   * its times are ordered, `furthest` is the highest stage ever reached, bookings included,
   * and delivery is stamped exactly when that is stage 9.
   */
  lemma {:induction false} JourneyRefinesHistory(run: seq<Timed>, now: int)
    requires InOrder(run) && (run != [] ==> run[|run| - 1].at <= now)
    ensures HistoryNames(After(run))
    ensures forall l | 0 <= l < |After(run).leads| :: Records(After(run), l, now)
  {
    if run != [] {
      var n := |run| - 1;
      var w, e := After(run[..n]), run[n];
      JourneyRefinesHistory(run[..n], e.at);
      forall l | 0 <= l < |After(run).leads|
        ensures Records(After(run), l, now)
      {
        if l < |w.leads| {
          StepRecords(w, e, e.at, l);
        } else {
          CreateRecords(w, e);
        }
        RecordsLater(After(run), l, e.at, now);
      }
    }
  }

  /** Closing a lead as won or lost ends its journey: no entry stays open, and none is added,
      lost or renamed. By the theorem above every lead of every run is in order. */
  lemma CloseEndsJourney(w: World, l: nat, status: Status, wonValue: bool, ts: int)
    requires l < |w.leads| && Records(w, l, ts) && status in {Won, Lost}
    ensures var lead' := CloseLead(w, l, status, true, wonValue, ts).leads[l];
            && (forall i | 0 <= i < |lead'.journey| :: lead'.journey[i].exitedAt.Some?)
            && Stages(lead'.journey) == Stages(w.leads[l].journey)
            && lead'.status == status && lead'.stage == w.leads[l].stage
  {
    CloseOpenIsLast(w.leads[l].journey, ts, ts);
  }

  /** Whether a booking ever moved this lead. */
  predicate MovedByBooking(history: seq<Moved>, l: nat) {
    exists i :: 0 <= i < |history| && history[i].lead == l && history[i].byBooking
  }

  lemma {:induction false} TargetsDiffer(history: seq<Moved>, l: nat)
    ensures |Targets(history, l, false)| <= |Targets(history, l, true)|
    ensures MovedByBooking(history, l) <==> Targets(history, l, false) != Targets(history, l, true)
    ensures MovedByBooking(history, l) <==> |Targets(history, l, false)| < |Targets(history, l, true)|
  {
    if history != [] {
      var n := |history| - 1;
      TargetsDiffer(history[..n], l);
      assert MovedByBooking(history, l) <==>
             MovedByBooking(history[..n], l) || (history[n].lead == l && history[n].byBooking) by {
        assert forall i | 0 <= i < n :: history[..n][i] == history[i];
      }
    }
  }

  /**
   * Where journey and history part: in every run the journey is the whole history of the lead,
   * 1 and then every stage it was sent to, exactly when no booking moved it.
   */
  lemma JourneyCompleteExact(run: seq<Timed>, l: nat)
    requires InOrder(run) && l < |After(run).leads|
    ensures var w := After(run);
            Stages(w.leads[l].journey) == [1] + Targets(w.history, l, true) <==> !MovedByBooking(w.history, l)
  {
    hide After, Ordered, MovedByBooking, Targets, Stages;
    JourneyRefinesHistory(run, if run == [] then 0 else run[|run| - 1].at);
    var w := After(run);
    TargetsDiffer(w.history, l);
    assert Records(w, l, if run == [] then 0 else run[|run| - 1].at);
    var moves, all := Targets(w.history, l, false), Targets(w.history, l, true);
    assert ([1] + moves)[1..] == moves && ([1] + all)[1..] == all;
  }

  /** The shortest run that shows it: a booking sends a new lead to stage 4 unrecorded. */
  lemma BookingSkipsJourney(ts: int)
    ensures var run := [Timed(Create, ts), Timed(Office([], [], [], map[0 := 100.0]), ts), Timed(Book(0, None), ts)];
            var w := After(run);
            |w.leads| == 1 && w.leads[0].stage == 4 && Stages(w.leads[0].journey) == [1] && MovedByBooking(w.history, 0)
  {
    var run := [Timed(Create, ts), Timed(Office([], [], [], map[0 := 100.0]), ts), Timed(Book(0, None), ts)];
    assert run[..2][..1] == run[..1] && run[..1][..0] == [];
    var w1 := Step(EMPTY, run[0]);
    assert After(run[..1]) == w1;
    var w2 := Step(w1, run[1]);
    assert After(run[..2]) == w2;
    assert BookingAllowed(w2, 0);
    var w := After(run);
    assert w == Step(w2, run[2]) && w.history[0] == Moved(0, 1, 4, true);
    var v := Visit(1, ts, None);
    assert [v][..0] == [] && Stages([v]) == [1];
  }

  // -------------------------------------------------------------------- lifecycle phase

  predicate PhaseOk(lead: Lead) {
    lead.phase == Derive(lead.stage, lead.status)
  }

  predicate NoStatusPatch(run: seq<Timed>) {
    forall i | 0 <= i < |run| :: run[i].event.Patch? ==> run[i].event.patched == None
  }

  /** The stored phase is always the derived one, bookings and overrides included, as long as
      nobody edits the status directly. */
  lemma {:induction false} PhaseStaysDerived(run: seq<Timed>)
    requires NoStatusPatch(run)
    ensures forall l | 0 <= l < |After(run).leads| :: PhaseOk(After(run).leads[l])
  {
    if run != [] {
      PhaseStaysDerived(run[..|run| - 1]);
    }
  }

  /** Statuses a lead at this stage may be switched between without touching its phase. */
  predicate Interchangeable(stage: int, a: Status, b: Status) {
    || a == b
    || (a.Other? && b.Other?)
    || (stage < DELIVERED && (a == Active || a.Other?) && (b == Active || b.Other?))
    || (stage >= DELIVERED && a in {Active, Won} && b in {Active, Won})
  }

  /**
   * A direct edit of the status, at any point of any run at which the phase is right, leaves it
   * right exactly when the two statuses are interchangeable at the lead's stage. Before delivery
   * Active and free-text statuses are, from delivery on Active and Won.
   */
  lemma PatchedPhaseExact(run: seq<Timed>, l: nat, status: Status, ts: int)
    requires l < |After(run).leads| && PhaseOk(After(run).leads[l])
    ensures var lead := After(run).leads[l];
            PhaseOk(After(run + [Timed(Patch(l, Some(status)), ts)]).leads[l]) <==>
            Interchangeable(lead.stage, lead.status, status)
  {
    var patched := run + [Timed(Patch(l, Some(status)), ts)];
    var lead := After(run).leads[l];
    assert patched[..|run|] == run;
    assert After(patched) == Step(After(run), patched[|run|]);
    hide After, Derive, Interchangeable;
    SamePhase(lead.stage, lead.status, status);
  }

  lemma SamePhase(stage: int, a: Status, b: Status)
    ensures Derive(stage, a) == Derive(stage, b) <==> Interchangeable(stage, a, b)
  {
  }
}
