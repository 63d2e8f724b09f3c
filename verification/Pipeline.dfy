/** The lead pipeline: create, move, close, book, and what holds over every run of them. */
module Pipeline {
  import opened Values
  import Totals

  const DELIVERED := 9

  /** A status outside the list the CRM knows, as a direct edit may set it. */
  type FreeText = t: string | t !in {"Active", "Won", "Lost", "On-hold"} witness ""

  datatype Status = Active | Won | Lost | OnHold | Other(text: FreeText)

  datatype Phase = Enquiry | InProgress | Completed | Dropped | Paused

  datatype Visit = Visit(stage: int, enteredAt: int, exitedAt: Option<int>)

  datatype Lead = Lead(
    stage: int, status: Status, projectId: Option<nat>, furthest: int, phase: Phase,
    journey: seq<Visit>, deliveredAt: Option<int>)

  datatype Project = Project(leadId: nat, signedOff: bool, sentToFactory: bool)

  /** A stage_history row; booking writes its own. */
  datatype Moved = Moved(lead: nat, from: int, to: int, byBooking: bool)

  datatype Measurement = Measurement(projectId: nat, status: string)
  datatype Revision = Revision(projectId: nat, status: string)
  datatype Payment = Payment(projectId: Option<nat>, leadId: Option<nat>, booking: bool, status: string, amount: real)

  /** The tables; ids of leads and projects are positions, and no row is ever deleted. */
  datatype World = World(
    leads: seq<Lead>, projects: seq<Project>, history: seq<Moved>,
    measurements: seq<Measurement>, revisions: seq<Revision>, payments: seq<Payment>, accepted: map<nat, real>)

  const EMPTY := World([], [], [], [], [], [], map[])

  datatype Event =
    | Create
    | Move(lead: nat, to: int, override: bool)
    | Close(lead: nat, status: Status, reason: bool, wonValue: bool)
    | Book(lead: nat, amount: Option<real>)
    | Patch(lead: nat, patched: Option<Status>)
    | Office(measurements: seq<Measurement>, revisions: seq<Revision>, payments: seq<Payment>, accepted: map<nat, real>)

  datatype Timed = Timed(event: Event, at: int)

  // ------------------------------------------------------------------------- the gates

  /** `GROUP BY status` with `SUM(amount)`, groups in order of first appearance. */
  function GroupSums(payments: seq<Payment>, projectId: nat): seq<(string, real)> {
    if payments == [] then []
    else
      var groups := GroupSums(payments[..|payments| - 1], projectId);
      var p := payments[|payments| - 1];
      if p.projectId == Some(projectId) then AddToGroup(groups, p.status, p.amount) else groups
  }

  function AddToGroup(groups: seq<(string, real)>, status: string, amount: real): seq<(string, real)> {
    if groups == [] then [(status, amount)]
    else if groups[0].0 == status then [(status, groups[0].1 + amount)] + groups[1..]
    else [groups[0]] + AddToGroup(groups[1..], status, amount)
  }

  function GroupOf(groups: seq<(string, real)>, status: string): real {
    if groups == [] then 0.0
    else if groups[0].0 == status then groups[0].1
    else GroupOf(groups[1..], status)
  }

  function SumOfGroups(groups: seq<(string, real)>): real {
    if groups == [] then 0.0 else groups[0].1 + SumOfGroups(groups[1..])
  }

  /** Money recorded for a project, all of it or what is in one status. */
  function Total(payments: seq<Payment>, projectId: nat): real {
    if payments == [] then 0.0
    else
      var p := payments[|payments| - 1];
      Total(payments[..|payments| - 1], projectId) + if p.projectId == Some(projectId) then p.amount else 0.0
  }

  function TotalIn(payments: seq<Payment>, projectId: nat, status: string): real {
    if payments == [] then 0.0
    else
      var p := payments[|payments| - 1];
      TotalIn(payments[..|payments| - 1], projectId, status) +
      if p.projectId == Some(projectId) && p.status == status then p.amount else 0.0
  }

  predicate HalfPaid(paid: real, total: real) {
    total != 0.0 && paid / total >= 0.5
  }

  predicate MeasurementDone(w: World, p: nat) {
    exists i :: 0 <= i < |w.measurements| && w.measurements[i] == Measurement(p, "Completed")
  }

  predicate RevisionApproved(w: World, p: nat) {
    exists i :: 0 <= i < |w.revisions| && w.revisions[i] == Revision(p, "Approved")
  }

  predicate GateOpen(w: World, l: nat, to: int)
    requires l < |w.leads|
  {
    var lead := w.leads[l];
    var p := lead.projectId;
    && (to >= 6 && lead.stage < 6 ==> p.Some? && MeasurementDone(w, p.value))
    && (to >= 7 && lead.stage < 7 ==> p.Some? && RevisionApproved(w, p.value))
    && (to >= 9 && lead.stage < 9 ==>
          && p.Some? && p.value < |w.projects| && w.projects[p.value].signedOff
          && var sums := GroupSums(w.payments, p.value); HalfPaid(GroupOf(sums, "Paid"), SumOfGroups(sums)))
  }

  lemma {:induction false} AddToGroupSums(groups: seq<(string, real)>, status: string, amount: real, other: string)
    ensures SumOfGroups(AddToGroup(groups, status, amount)) == SumOfGroups(groups) + amount
    ensures GroupOf(AddToGroup(groups, status, amount), other) ==
            GroupOf(groups, other) + if other == status then amount else 0.0
  {
    if groups != [] && groups[0].0 != status {
      AddToGroupSums(groups[1..], status, amount, other);
    }
  }

  /** Grouping conserves money: the groups add up to the total, and each is the sum of its rows. */
  lemma {:induction false} GroupingConserves(payments: seq<Payment>, projectId: nat, status: string)
    ensures SumOfGroups(GroupSums(payments, projectId)) == Total(payments, projectId)
    ensures GroupOf(GroupSums(payments, projectId), status) == TotalIn(payments, projectId, status)
  {
    if payments != [] {
      var init, p := payments[..|payments| - 1], payments[|payments| - 1];
      GroupingConserves(init, projectId, status);
      AddToGroupSums(GroupSums(init, projectId), p.status, p.amount, status);
    }
  }

  /** Half paid of a positive total. Or of a negative one, where the division turns the test round. */
  lemma HalfPaidMeans(paid: real, total: real)
    ensures HalfPaid(paid, total) <==> (total > 0.0 && 2.0 * paid >= total) || (total < 0.0 && 2.0 * paid <= total)
  {
    if total != 0.0 {
      var share := paid / total;
      assert paid == share * total;
      if share >= 0.5 {
        assert total > 0.0 ==> (share - 0.5) * total >= 0.0;
        assert total < 0.0 ==> (share - 0.5) * total <= 0.0;
      } else {
        assert total > 0.0 ==> (share - 0.5) * total < 0.0;
        assert total < 0.0 ==> (share - 0.5) * total > 0.0;
      }
    }
  }

  // -------------------------------------------------------------------------- one step

  function Derive(stage: int, status: Status): Phase {
    if status == Won || (status == Active && stage >= DELIVERED) then Completed
    else if status == Lost then Dropped
    else if status == OnHold then Paused
    else if stage <= 1 then Enquiry
    else InProgress
  }

  /** The phase of every kind of lead. */
  lemma PhasesMean(stage: int, status: Status)
    ensures Derive(stage, status) == Completed <==> status == Won || (status == Active && stage >= 9)
    ensures Derive(stage, status) == Dropped <==> status == Lost
    ensures Derive(stage, status) == Paused <==> status == OnHold
    ensures Derive(stage, status) == Enquiry <==> stage <= 1 && (status == Active || status.Other?)
    ensures Derive(stage, status) == InProgress <==> stage >= 2 && (status.Other? || (status == Active && stage <= 8))
  {
  }

  /** Stamp the last entry that is still open. */
  function CloseOpen(journey: seq<Visit>, ts: int): seq<Visit> {
    if journey == [] then []
    else
      var n := |journey| - 1;
      if journey[n].exitedAt == None then journey[..n] + [journey[n].(exitedAt := Some(ts))]
      else CloseOpen(journey[..n], ts) + [journey[n]]
  }

  function Transition(journey: seq<Visit>, to: int, ts: int): seq<Visit> {
    CloseOpen(journey, ts) + [Visit(to, ts, None)]
  }

  function Max(a: int, b: int): int {
    if a >= b then a else b
  }

  function SignOff(projects: seq<Project>, p: nat): seq<Project> {
    if p < |projects| then projects[p := projects[p].(signedOff := true)] else projects
  }

  function SendToFactory(projects: seq<Project>, p: nat): seq<Project> {
    if p < |projects| then projects[p := projects[p].(sentToFactory := true)] else projects
  }

  predicate MoveAllowed(w: World, l: nat, to: int, override: bool) {
    l < |w.leads| && 1 <= to <= 9 && to != w.leads[l].stage && (GateOpen(w, l, to) || override)
  }

  /** The project a moved lead has: a new one when it reaches Booking without any. */
  function ProjectOfMove(projects: seq<Project>, lead: Lead, to: int): Option<nat> {
    if to >= 4 && lead.projectId == None then Some(|projects|) else lead.projectId
  }

  function ProjectsAfterMove(projects: seq<Project>, l: nat, lead: Lead, to: int): seq<Project> {
    var pid := ProjectOfMove(projects, lead, to);
    var present := if to >= 4 && lead.projectId == None then projects + [Project(l, false, false)] else projects;
    var signed := if to >= 4 && lead.stage < 4 && pid.Some? then SignOff(present, pid.value) else present;
    if to >= 9 && lead.stage < 9 && lead.projectId.Some? then SendToFactory(signed, lead.projectId.value) else signed
  }

  function LeadAfterMove(lead: Lead, to: int, pid: Option<nat>, ts: int): Lead {
    lead.(stage := to, projectId := pid, furthest := Max(lead.furthest, to), phase := Derive(to, lead.status),
          journey := Transition(lead.journey, to, ts),
          deliveredAt := if to >= DELIVERED && lead.deliveredAt == None then Some(ts) else lead.deliveredAt)
  }

  function MoveLead(w: World, l: nat, to: int, override: bool, ts: int): World {
    if !MoveAllowed(w, l, to, override) then w
    else
      var lead := w.leads[l];
      w.(leads := w.leads[l := LeadAfterMove(lead, to, ProjectOfMove(w.projects, lead, to), ts)],
         projects := ProjectsAfterMove(w.projects, l, lead, to),
         history := w.history + [Moved(l, lead.stage, to, false)])
  }

  function CloseLead(w: World, l: nat, status: Status, reason: bool, wonValue: bool, ts: int): World {
    if l >= |w.leads| || status.Other? || (status == Lost && !reason) then w
    else
      var lead := w.leads[l];
      var journey := if status == Lost || status == Won then CloseOpen(lead.journey, ts) else lead.journey;
      var phase := match status
        case Lost => Dropped
        case Won => Completed
        case OnHold => Paused
        case _ => Derive(lead.stage, Active);
      var projects := if status == Won && wonValue && lead.projectId.Some?
                      then SignOff(w.projects, lead.projectId.value) else w.projects;
      w.(leads := w.leads[l := lead.(status := status, phase := phase, journey := journey)], projects := projects)
  }

  predicate BookingAllowed(w: World, l: nat) {
    && l < |w.leads| && l in w.accepted
    && forall i | 0 <= i < |w.payments| :: !(w.payments[i].booking && w.payments[i].leadId == Some(l))
  }

  /** What the booking payment records: the caller's amount, else a tenth of the accepted total. */
  function BookingAmount(total: real, amount: Option<real>): real {
    Totals.Round2(if amount.Some? then amount.value else total * 0.1)
  }

  function BookLead(w: World, l: nat, amount: Option<real>): World {
    if !BookingAllowed(w, l) then w
    else
      var lead := w.leads[l];
      var opens := lead.projectId == None;
      var pid := if opens then |w.projects| else lead.projectId.value;
      var lead1 := if lead.stage < 4
                   then lead.(stage := 4, furthest := Max(lead.furthest, 4), phase := Derive(4, lead.status))
                   else lead;
      w.(leads := w.leads[l := lead1.(projectId := Some(pid))],
         projects := if opens then w.projects + [Project(l, true, false)] else SignOff(w.projects, pid),
         history := if lead.stage < 4 then w.history + [Moved(l, lead.stage, 4, true)] else w.history,
         payments := w.payments + [Payment(Some(pid), Some(l), true, "verified", BookingAmount(w.accepted[l], amount))])
  }

  function Step(w: World, e: Timed): World {
    match e.event
    case Create =>
      w.(leads := w.leads + [Lead(1, Active, None, 1, Enquiry, [Visit(1, e.at, None)], None)])
    case Move(l, to, override) => MoveLead(w, l, to, override, e.at)
    case Close(l, status, reason, wonValue) => CloseLead(w, l, status, reason, wonValue, e.at)
    case Book(l, amount) => BookLead(w, l, amount)
    case Patch(l, status) =>
      if l < |w.leads| && status.Some? then w.(leads := w.leads[l := w.leads[l].(status := status.value)]) else w
    case Office(ms, rs, ps, acc) => w.(measurements := ms, revisions := rs, payments := ps, accepted := acc)
  }

  function After(run: seq<Timed>): World {
    if run == [] then EMPTY else Step(After(run[..|run| - 1]), run[|run| - 1])
  }

  // ----------------------------------------------------------------------- gate safety

  predicate NoOverride(run: seq<Timed>) {
    forall i | 0 <= i < |run| :: run[i].event.Move? ==> !run[i].event.override
  }

  predicate LeadOk(w: World, l: nat)
    requires l < |w.leads|
  {
    var lead := w.leads[l];
    && 1 <= lead.stage <= 9
    && (lead.stage >= 4 ==> lead.projectId.Some?)
    && (lead.projectId.Some? ==> lead.projectId.value < |w.projects| && w.projects[lead.projectId.value].leadId == l)
    && (lead.stage >= 9 ==> w.projects[lead.projectId.value].sentToFactory)
  }

  /** Every project is signed off and belongs to the lead that points at it. */
  predicate ProjectOk(w: World, p: nat)
    requires p < |w.projects|
  {
    && w.projects[p].signedOff
    && w.projects[p].leadId < |w.leads| && w.leads[w.projects[p].leadId].projectId == Some(p)
  }

  predicate Safe(w: World) {
    && (forall l | 0 <= l < |w.leads| :: LeadOk(w, l))
    && (forall p | 0 <= p < |w.projects| :: ProjectOk(w, p))
  }

  /** A move keeps the tables safe, overridden or not, exactly unless it puts a lead without a
      project straight at the last stage. */
  lemma MoveKeepsSafe(w: World, l: nat, to: int, override: bool, ts: int)
    requires Safe(w) && MoveAllowed(w, l, to, override)
    ensures Safe(MoveLead(w, l, to, override, ts)) <==> !(to == 9 && w.leads[l].projectId == None)
  {
    var w' := MoveLead(w, l, to, override, ts);
    assert LeadOk(w, l);
    if to == 9 && w.leads[l].projectId == None {
      assert !LeadOk(w', l);
    } else {
      if w.leads[l].projectId.Some? { assert ProjectOk(w, w.leads[l].projectId.value); }
      forall k | 0 <= k < |w'.leads|
        ensures LeadOk(w', k)
      {
        assert LeadOk(w, k);
      }
      forall p | 0 <= p < |w'.projects|
        ensures ProjectOk(w', p)
      {
        if p < |w.projects| { assert ProjectOk(w, p); }
      }
    }
  }

  lemma BookKeepsSafe(w: World, l: nat, amount: Option<real>)
    requires Safe(w)
    ensures Safe(BookLead(w, l, amount))
  {
    if BookingAllowed(w, l) {
      var w' := BookLead(w, l, amount);
      assert LeadOk(w, l);
      forall k | 0 <= k < |w'.leads|
        ensures LeadOk(w', k)
      {
        assert LeadOk(w, k);
      }
      forall p | 0 <= p < |w'.projects|
        ensures ProjectOk(w', p)
      {
        if p < |w.projects| { assert ProjectOk(w, p); }
      }
    }
  }

  /** A move that takes a lead without a project straight to the last stage. */
  predicate BareJump(w: World, e: Event) {
    e.Move? && MoveAllowed(w, e.lead, e.to, e.override) && e.to == 9 && w.leads[e.lead].projectId == None
  }

  lemma StepKeepsSafe(w: World, e: Timed)
    requires Safe(w)
    ensures Safe(Step(w, e)) <==> !BareJump(w, e.event)
  {
    match e.event
    case Move(l, to, override) =>
      if MoveAllowed(w, l, to, override) { MoveKeepsSafe(w, l, to, override, e.at); }
    case Book(l, amount) => BookKeepsSafe(w, l, amount);
    case _ =>
      var w' := Step(w, e);
      forall k | 0 <= k < |w'.leads|
        ensures LeadOk(w', k)
      {
        if k < |w.leads| { assert LeadOk(w, k); }
      }
      forall p | 0 <= p < |w'.projects|
        ensures ProjectOk(w', p)
      {
        assert ProjectOk(w, p);
      }
  }

  predicate NoBareJump(run: seq<Timed>) {
    forall k | 0 <= k < |run| :: !BareJump(After(run[..k]), run[k].event)
  }

  predicate AlwaysSafe(run: seq<Timed>) {
    forall k | 0 <= k <= |run| :: Safe(After(run[..k]))
  }

  /**
   * What overrides may do, over every run: the tables are safe at every point exactly when no
   * move ever takes a lead that still has no project straight to the last stage.
   */
  lemma {:induction false} SafeThroughoutExact(run: seq<Timed>)
    ensures AlwaysSafe(run) <==> NoBareJump(run)
  {
    if run == [] {
      assert run[..0] == [];
    } else {
      hide AlwaysSafe, NoBareJump, Safe, BareJump, Step;
      var n := |run| - 1;
      SafeThroughoutExact(run[..n]);
      SafeSplits(run, n);
      JumpSplits(run, n);
      if Safe(After(run[..n])) { StepKeepsSafe(After(run[..n]), run[n]); }
    }
  }

  lemma SafeSplits(run: seq<Timed>, n: nat)
    requires |run| == n + 1
    ensures AlwaysSafe(run) <==> AlwaysSafe(run[..n]) && Safe(After(run))
    ensures AlwaysSafe(run[..n]) ==> Safe(After(run[..n]))
  {
    hide Safe, After;
    assert forall k | 0 <= k <= n :: run[..n][..k] == run[..k];
    assert run[..n + 1] == run && run[..n][..n] == run[..n];
    if AlwaysSafe(run) {
      forall k | 0 <= k <= n
        ensures Safe(After(run[..n][..k]))
      {
        assert Safe(After(run[..k]));
      }
      assert Safe(After(run[..n + 1]));
    }
    if AlwaysSafe(run[..n]) && Safe(After(run)) {
      forall k | 0 <= k <= n + 1
        ensures Safe(After(run[..k]))
      {
        if k <= n { assert Safe(After(run[..n][..k])); }
      }
    }
  }

  lemma JumpSplits(run: seq<Timed>, n: nat)
    requires |run| == n + 1
    ensures NoBareJump(run) <==> NoBareJump(run[..n]) && !BareJump(After(run[..n]), run[n].event)
  {
    hide After, BareJump;
    assert forall k | 0 <= k < n :: run[..n][k] == run[k] && run[..n][..k] == run[..k];
    if NoBareJump(run[..n]) && !BareJump(After(run[..n]), run[n].event) {
      forall k | 0 <= k < |run|
        ensures !BareJump(After(run[..k]), run[k].event)
      {
        if k < n { assert !BareJump(After(run[..n][..k]), run[..n][k].event); }
      }
    }
    if NoBareJump(run) {
      forall k | 0 <= k < n
        ensures !BareJump(After(run[..n][..k]), run[..n][k].event)
      {
        assert !BareJump(After(run[..k]), run[k].event);
      }
    }
  }

  /** In every run without admin overrides each project is signed off, a lead at Booking or
      beyond has its own project, and a lead at the last stage has gone to the factory. */
  lemma {:induction false} RunsAreSafe(run: seq<Timed>)
    requires NoOverride(run)
    ensures Safe(After(run))
  {
    if run != [] {
      var w, e := After(run[..|run| - 1]), run[|run| - 1];
      RunsAreSafe(run[..|run| - 1]);
      NeedsOverride(w, e.event);
      StepKeepsSafe(w, e);
    }
  }

  lemma NeedsOverride(w: World, e: Event)
    requires Safe(w) && (e.Move? ==> !e.override)
    ensures !BareJump(w, e)
  {
    if e.Move? && e.lead < |w.leads| { assert LeadOk(w, e.lead); }
  }

  /** What the gate into a stage asks for, in terms of the tables' rows. */
  predicate GateCondition(w: World, l: nat, gate: int)
    requires l < |w.leads|
  {
    w.leads[l].projectId.Some? &&
    var p := w.leads[l].projectId.value;
    if gate == 6 then
      exists i :: 0 <= i < |w.measurements| &&
                  w.measurements[i].projectId == p && w.measurements[i].status == "Completed"
    else if gate == 7 then
      exists i :: 0 <= i < |w.revisions| &&
                  w.revisions[i].projectId == p && w.revisions[i].status == "Approved"
    else
      p < |w.projects| && w.projects[p].signedOff &&
      HalfPaid(TotalIn(w.payments, p, "Paid"), Total(w.payments, p))
  }

  /** The gate, if a move to stage `to` crosses it, is satisfied. */
  predicate Met(w: World, l: nat, to: int, gate: int)
    requires l < |w.leads|
  {
    w.leads[l].stage < gate <= to ==> GateCondition(w, l, gate)
  }

  /**
   * Who may move where: any lead to any other of the nine stages, backwards and over several
   * stages too, exactly if every gate crossed on the way is satisfied, or an admin overrides.
   */
  lemma MoveAllowedExact(w: World, l: nat, to: int, override: bool)
    ensures MoveAllowed(w, l, to, override) <==>
            && l < |w.leads| && 1 <= to <= 9 && to != w.leads[l].stage
            && (override || (Met(w, l, to, 6) && Met(w, l, to, 7) && Met(w, l, to, 9)))
  {
    if l < |w.leads| && w.leads[l].projectId.Some? {
      var p := w.leads[l].projectId.value;
      GroupingConserves(w.payments, p, "Paid");
      if i :| 0 <= i < |w.measurements| && w.measurements[i].projectId == p && w.measurements[i].status == "Completed" {
        assert w.measurements[i] == Measurement(p, "Completed");
      }
      if i :| 0 <= i < |w.revisions| && w.revisions[i].projectId == p && w.revisions[i].status == "Approved" {
        assert w.revisions[i] == Revision(p, "Approved");
      }
    }
  }

  /** What a move does: the lead stands at the new stage and history says so, its project is opened
      if it reaches Booking without one, signed off as it crosses Booking and sent to the factory as
      it crosses into the last stage; every other lead, project and table, and the lead's status,
      stays as it was. */
  lemma MoveFrame(w: World, l: nat, to: int, override: bool, ts: int)
    requires MoveAllowed(w, l, to, override)
    ensures var w' := MoveLead(w, l, to, override, ts);
            && |w'.leads| == |w.leads| && (forall k | 0 <= k < |w.leads| && k != l :: w'.leads[k] == w.leads[k])
            && w'.leads[l].stage == to && w'.leads[l].status == w.leads[l].status
            && w' == w.(leads := w'.leads, projects := w'.projects, history := w'.history)
            && w'.history == w.history + [Moved(l, w.leads[l].stage, to, false)]
    ensures var w', lead, n := MoveLead(w, l, to, override, ts), w.leads[l], |w.projects|;
            var opens := to >= 4 && lead.projectId == None;
            && w'.leads[l].projectId == (if opens then Some(n) else lead.projectId)
            && |w'.projects| == (if opens then n + 1 else n)
            && (opens ==> w'.projects[n] == Project(l, lead.stage < 4, false))
            && forall p: nat | p < n ::
                 w'.projects[p] == if lead.projectId != Some(p) then w.projects[p]
                                   else Project(w.projects[p].leadId,
                                                w.projects[p].signedOff || lead.stage < 4 <= to,
                                                w.projects[p].sentToFactory || lead.stage < 9 <= to)
  {
  }

  /**
   * Closing: refused exactly for a lead that does not exist, a status off the list, and a loss
   * without a reason. Otherwise it sets the status, ends the journey of a won or lost lead and
   * leaves that of any other as it is, and touches no stage, no other lead, no history.
   */
  lemma CloseExact(w: World, l: nat, status: Status, reason: bool, wonValue: bool, ts: int)
    ensures var w' := CloseLead(w, l, status, reason, wonValue, ts);
            if l >= |w.leads| || status.Other? || (status == Lost && !reason) then w' == w
            else
              && |w'.leads| == |w.leads| && (forall k | 0 <= k < |w.leads| && k != l :: w'.leads[k] == w.leads[k])
              && w'.leads[l].status == status && w'.leads[l].phase == Derive(w.leads[l].stage, status)
              && w'.leads[l].journey ==
                 (if status in {Won, Lost} then CloseOpen(w.leads[l].journey, ts) else w.leads[l].journey)
              && (var lead := w'.leads[l];
                  lead == w.leads[l].(status := status, phase := lead.phase, journey := lead.journey))
              && w' == w.(leads := w'.leads, projects := w'.projects)
              && |w'.projects| == |w.projects|
              && forall p: nat | p < |w.projects| ::
                   w'.projects[p] == if status == Won && wonValue && w.leads[l].projectId == Some(p)
                                     then w.projects[p].(signedOff := true) else w.projects[p]
  {
  }

  predicate AlreadyBooked(w: World, l: nat) {
    exists q :: q in w.payments && q.booking && q.leadId == Some(l)
  }

  /**
   * Booking: accepted exactly for a lead with an accepted estimate and no booking payment yet.
   * It records a verified payment on the lead's project, opening one signed off if there is none,
   * and takes a lead from before Booking to stage 4 with a history row.
   */
  lemma BookExact(w: World, l: nat, amount: Option<real>)
    ensures var w' := BookLead(w, l, amount);
            if l >= |w.leads| || l !in w.accepted || AlreadyBooked(w, l) then w' == w
            else
              var lead, lead', early := w.leads[l], w'.leads[l], w.leads[l].stage < 4;
              && |w'.payments| == |w.payments| + 1 && w'.payments[..|w.payments|] == w.payments
              && var pay := w'.payments[|w.payments|];
              && pay.booking && pay.leadId == Some(l) && pay.status == "verified" && pay.projectId == lead'.projectId
              && pay.amount == Totals.Round2(if amount.Some? then amount.value else w.accepted[l] * 0.1)
              && |w'.leads| == |w.leads| && (forall k | 0 <= k < |w.leads| && k != l :: w'.leads[k] == w.leads[k])
              && lead'.projectId == (if lead.projectId.Some? then lead.projectId else Some(|w.projects|))
              && lead' == (if early then lead.(stage := 4, furthest := if lead.furthest > 4 then lead.furthest else 4,
                                               phase := Derive(4, lead.status), projectId := lead'.projectId)
                           else lead.(projectId := lead'.projectId))
              && w'.history == (if early then w.history + [Moved(l, lead.stage, 4, true)] else w.history)
              && |w'.projects| == |w.projects| + (if lead.projectId.Some? then 0 else 1)
              && (forall p: nat | p < |w'.projects| ::
                    w'.projects[p] == if p >= |w.projects| then Project(l, true, false)
                                      else if lead.projectId == Some(p) then w.projects[p].(signedOff := true)
                                      else w.projects[p])
              && w'.measurements == w.measurements && w'.revisions == w.revisions && w'.accepted == w.accepted
  {
    if q :| q in w.payments && q.booking && q.leadId == Some(l) {
      var i :| 0 <= i < |w.payments| && w.payments[i] == q;
      assert !BookingAllowed(w, l);
    }
  }

  /** Step `k` moved a lead that had this project up to the last stage. */
  predicate SentIn(run: seq<Timed>, k: nat, p: nat) {
    && k < |run| && run[k].event.Move?
    && var w, l := After(run[..k]), run[k].event.lead;
       && MoveAllowed(w, l, run[k].event.to, run[k].event.override)
       && w.leads[l].projectId == Some(p) && w.leads[l].stage < 9 <= run[k].event.to
  }

  lemma SentStep(w: World, e: Timed, p: nat)
    requires p < |Step(w, e).projects|
    ensures Step(w, e).projects[p].sentToFactory <==>
            || (p < |w.projects| && w.projects[p].sentToFactory)
            || (e.event.Move? && MoveAllowed(w, e.event.lead, e.event.to, e.event.override) && p < |w.projects| &&
                w.leads[e.event.lead].projectId == Some(p) && w.leads[e.event.lead].stage < 9 <= e.event.to)
  {
    hide GateOpen, Derive, CloseOpen;
  }

  lemma ProjectsGrow(w: World, e: Timed)
    ensures |Step(w, e).projects| >= |w.projects|
  {
    hide GateOpen, Derive, CloseOpen;
  }

  lemma SentLifts(run: seq<Timed>, n: nat, p: nat)
    requires |run| == n + 1
    ensures (exists k: nat :: SentIn(run, k, p)) <==> (exists k: nat :: SentIn(run[..n], k, p)) || SentIn(run, n, p)
  {
    hide After, MoveAllowed;
    if k: nat :| SentIn(run, k, p) && k < n {
      assert run[..n][..k] == run[..k];
      assert SentIn(run[..n], k, p);
    }
    if k: nat :| SentIn(run[..n], k, p) {
      assert run[..n][..k] == run[..k];
      assert SentIn(run, k, p);
    }
  }

  /** Leads only ever point at projects that exist. */
  predicate PointsInside(w: World) {
    forall l | 0 <= l < |w.leads| :: w.leads[l].projectId.Some? ==> w.leads[l].projectId.value < |w.projects|
  }

  lemma StaysInside(w: World, e: Timed)
    requires PointsInside(w)
    ensures PointsInside(Step(w, e))
  {
    hide GateOpen, Derive, CloseOpen;
  }

  lemma {:induction false} AlwaysInside(run: seq<Timed>)
    ensures PointsInside(After(run))
  {
    if run != [] {
      AlwaysInside(run[..|run| - 1]);
      StaysInside(After(run[..|run| - 1]), run[|run| - 1]);
    }
  }

  /** A project is in the factory, after any run, exactly if some move took a lead that had it
      across into the last stage. */
  lemma {:induction false} SentExact(run: seq<Timed>, p: nat)
    ensures p < |After(run).projects| && After(run).projects[p].sentToFactory <==> exists k: nat :: SentIn(run, k, p)
  {
    if run != [] {
      hide Step, MoveAllowed;
      var n := |run| - 1;
      var w := After(run[..n]);
      SentExact(run[..n], p);
      SentLifts(run, n, p);
      ProjectsGrow(w, run[n]);
      AlwaysInside(run[..n]);
      InsideLead(run, n, p);
      if p < |Step(w, run[n]).projects| { SentStep(w, run[n], p); }
    }
  }

  lemma InsideLead(run: seq<Timed>, n: nat, p: nat)
    requires n < |run| && PointsInside(After(run[..n]))
    ensures SentIn(run, n, p) ==> p < |After(run[..n]).projects|
  {
    hide After, GateOpen;
  }

  /** Step `k` took the lead across a gate, and the gate's condition held as it did. */
  predicate Crossed(run: seq<Timed>, k: nat, l: nat, gate: int) {
    k < |run| &&
    var before, after := After(run[..k]), After(run[..k + 1]);
    && l < |before.leads| && l < |after.leads|
    && before.leads[l].stage < gate <= after.leads[l].stage
    && GateCondition(before, l, gate)
  }

  predicate WasBooked(run: seq<Timed>, k: nat, l: nat) {
    k <= |run| && l < |After(run[..k]).leads| && After(run[..k]).leads[l].stage in {4, 5}
  }

  lemma StepAcrossGate(w: World, e: Timed, l: nat, gate: int)
    requires Safe(w) && gate in {6, 7, 9} && (e.event.Move? ==> !e.event.override)
    requires l < |Step(w, e).leads| && Step(w, e).leads[l].stage >= gate
    requires l < |w.leads| ==> w.leads[l].stage < gate
    ensures l < |w.leads| && GateCondition(w, l, gate)
  {
    if e.event.Move? && e.event.lead == l && w.leads[l].projectId.Some? {
      GroupingConserves(w.payments, w.leads[l].projectId.value, "Paid");
    }
  }

  lemma CrossedLifts(run: seq<Timed>, n: nat, k: nat, l: nat, gate: int)
    requires n <= |run| && Crossed(run[..n], k, l, gate)
    ensures Crossed(run, k, l, gate)
  {
    assert run[..n][..k] == run[..k] && run[..n][..k + 1] == run[..k + 1];
  }

  /**
   * Gate safety: in every run without overrides, a lead found at or beyond a gated stage
   * crossed into it at an earlier step while that gate's condition held.
   */
  lemma {:induction false} GateWasHonoured(run: seq<Timed>, l: nat, gate: int)
    requires NoOverride(run) && gate in {6, 7, 9}
    requires l < |After(run).leads| && After(run).leads[l].stage >= gate
    ensures exists k: nat :: Crossed(run, k, l, gate)
  {
    if run != [] {
      var n := |run| - 1;
      var before := After(run[..n]);
      assert run[..n + 1] == run;
      if l < |before.leads| && before.leads[l].stage >= gate {
        GateWasHonoured(run[..n], l, gate);
        var k: nat :| Crossed(run[..n], k, l, gate);
        CrossedLifts(run, n, k, l, gate);
      } else {
        RunsAreSafe(run[..n]);
        StepAcrossGate(before, run[n], l, gate);
        assert Crossed(run, n, l, gate);
      }
    }
  }

  /** At least half of a positive total is marked "Paid". */
  predicate PaidHalf(w: World, p: nat) {
    2.0 * TotalIn(w.payments, p, "Paid") >= Total(w.payments, p) > 0.0
  }

  predicate NonNegative(payments: seq<Payment>) {
    forall i | 0 <= i < |payments| :: payments[i].amount >= 0.0
  }

  lemma {:induction false} TotalNonNegative(payments: seq<Payment>, p: nat)
    requires NonNegative(payments)
    ensures Total(payments, p) >= 0.0
  {
    if payments != [] { TotalNonNegative(payments[..|payments| - 1], p); }
  }

  /** The crossing into the last stage keeps the promise exactly when the project's total is
      positive, as it is when no amount is negative. */
  lemma HalfPaidAtDelivery(run: seq<Timed>, k: nat, l: nat)
    requires Crossed(run, k, l, 9)
    ensures var w := After(run[..k]);
            var p := w.leads[l].projectId.value;
            && (PaidHalf(w, p) <==> Total(w.payments, p) > 0.0)
            && (NonNegative(w.payments) ==> PaidHalf(w, p))
  {
    var w := After(run[..k]);
    var p := w.leads[l].projectId.value;
    HalfPaidMeans(TotalIn(w.payments, p, "Paid"), Total(w.payments, p));
    if NonNegative(w.payments) { TotalNonNegative(w.payments, p); }
  }

  /** Step `k` delivered the lead with at least half of a positive total paid. */
  predicate DeliveredPaid(run: seq<Timed>, k: nat, l: nat) {
    Crossed(run, k, l, 9) && PaidHalf(After(run[..k]), After(run[..k]).leads[l].projectId.value)
  }

  /** In every run without overrides in which no amount is ever negative, a lead at the last
      stage was delivered with at least half of a positive total paid. */
  lemma DeliveryWasHalfPaid(run: seq<Timed>, l: nat)
    requires NoOverride(run) && forall n | 0 <= n <= |run| :: NonNegative(After(run[..n]).payments)
    requires l < |After(run).leads| && After(run).leads[l].stage >= 9
    ensures exists k: nat :: DeliveredPaid(run, k, l)
  {
    GateWasHonoured(run, l, 9);
    var k: nat :| Crossed(run, k, l, 9);
    HalfPaidAtDelivery(run, k, l);
    assert DeliveredPaid(run, k, l);
  }

  /** Without that, a single negative entry opens the gate: -100 "Paid" out of a total of -100. */
  lemma NegativeTotalOpensGate(l: Lead)
    requires l.stage in {7, 8} && l.projectId == Some(0)
    ensures var w := EMPTY.(leads := [l], projects := [Project(0, true, false)],
                            payments := [Payment(Some(0), None, false, "Paid", -100.0)]);
            GateOpen(w, 0, 9) && !PaidHalf(w, 0)
  {
    var pay := Payment(Some(0), None, false, "Paid", -100.0);
    var w := EMPTY.(leads := [l], projects := [Project(0, true, false)], payments := [pay]);
    assert [pay][..0] == [];
    GroupingConserves(w.payments, 0, "Paid");
    assert Total([pay][..0], 0) == 0.0 && TotalIn([pay][..0], 0, "Paid") == 0.0;
    assert Total(w.payments, 0) == -100.0 && TotalIn(w.payments, 0, "Paid") == -100.0;
    HalfPaidMeans(-100.0, -100.0);
  }

  lemma ProjectOpensAtBooking(w: World, e: Timed, l: nat)
    requires Safe(w) && (e.event.Move? ==> !e.event.override)
    requires l < |Step(w, e).leads| && Step(w, e).leads[l].projectId.Some?
    requires l < |w.leads| ==> w.leads[l].projectId == None
    ensures Step(w, e).leads[l].stage in {4, 5}
  {
    if l < |w.leads| {
      assert LeadOk(w, l);
    }
  }

  /** A lead with a project has stood at Booking or Site Measurement. */
  lemma {:induction false} ProjectMeansBooked(run: seq<Timed>, l: nat)
    requires NoOverride(run)
    requires l < |After(run).leads| && After(run).leads[l].projectId.Some?
    ensures exists k: nat :: WasBooked(run, k, l)
  {
    if run != [] {
      var n := |run| - 1;
      var before := After(run[..n]);
      assert run[..n + 1] == run;
      if l < |before.leads| && before.leads[l].projectId.Some? {
        ProjectMeansBooked(run[..n], l);
        var k: nat :| WasBooked(run[..n], k, l);
        assert run[..n][..k] == run[..k];
        assert WasBooked(run, k, l);
      } else {
        RunsAreSafe(run[..n]);
        ProjectOpensAtBooking(before, run[n], l);
        assert WasBooked(run, n + 1, l);
      }
    }
  }

  /** Nothing reaches Design without Booking: before any crossing into stage 6 or later the
      lead has already stood at stage 4 or 5. */
  lemma BookedBeforeDesign(run: seq<Timed>, k: nat, l: nat, gate: int)
    requires NoOverride(run) && gate in {6, 7, 9} && Crossed(run, k, l, gate)
    ensures exists j: nat :: j <= k && WasBooked(run, j, l)
  {
    ProjectMeansBooked(run[..k], l);
    var j: nat :| WasBooked(run[..k], j, l);
    assert run[..k][..j] == run[..j];
    assert WasBooked(run, j, l);
  }

  /** The shortest such run: Create, then an admin's jump to 9. */
  lemma OverrideBreaksSafety()
    ensures var run := [Timed(Create, 0), Timed(Move(0, 9, true), 1)];
            After(run).leads[0].stage == 9 && !Safe(After(run))
  {
    var run := [Timed(Create, 0), Timed(Move(0, 9, true), 1)];
    var one := run[..1];
    assert one[..0] == [] && After(one[..0]) == EMPTY;
    assert After(one) == Step(EMPTY, Timed(Create, 0));
    assert After(run) == Step(After(one), run[1]);
    assert !LeadOk(After(run), 0);
  }

  // ------------------------------------------------------------------ the running code

  /** Scan from the end for an entry still open and stamp it. */
  method CloseOpenEntry(journey: seq<Visit>, ts: int) returns (out: seq<Visit>)
    ensures out == CloseOpen(journey, ts)
  {
    out := journey;
    var i := |out|;
    assert out[..i] == journey && out[i..] == [];
    while i > 0
      invariant 0 <= i <= |out| && out == journey
      invariant CloseOpen(journey, ts) == CloseOpen(out[..i], ts) + out[i..]
    {
      i := i - 1;
      assert out[..i + 1][..i] == out[..i];
      if out[i].exitedAt == None {
        assert out[..i] + [out[i].(exitedAt := Some(ts))] + out[i + 1..] == out[i := out[i].(exitedAt := Some(ts))];
        out := out[i := out[i].(exitedAt := Some(ts))];
        return;
      }
      assert CloseOpen(out[..i], ts) + [out[i]] + out[i + 1..] == CloseOpen(out[..i], ts) + ([out[i]] + out[i + 1..]);
      assert [out[i]] + out[i + 1..] == out[i..];
    }
  }

  class Crm {
    var leads: seq<Lead>
    var projects: seq<Project>
    var history: seq<Moved>
    var measurements: seq<Measurement>
    var revisions: seq<Revision>
    var payments: seq<Payment>
    var accepted: map<nat, real>

    ghost function State(): World
      reads this
    {
      World(leads, projects, history, measurements, revisions, payments, accepted)
    }

    constructor ()
      ensures State() == EMPTY
    {
      leads, projects, history := [], [], [];
      measurements, revisions, payments, accepted := [], [], [], map[];
    }

    method CreateLead(ts: int) returns (l: nat)
      modifies this
      ensures l == |old(leads)| && State() == Step(old(State()), Timed(Create, ts))
    {
      l := |leads|;
      leads := leads + [Lead(1, Active, None, 1, Enquiry, [Visit(1, ts, None)], None)];
    }

    method EvaluateGate(lead: Lead, to: int) returns (allowed: bool)
      ensures forall l | 0 <= l < |leads| && leads[l] == lead :: allowed == GateOpen(State(), l, to)
    {
      if to >= 6 && lead.stage < 6 {
        if lead.projectId == None {
          return false;
        }
        if Measurement(lead.projectId.value, "Completed") !in measurements {
          return false;
        }
      }
      if to >= 7 && lead.stage < 7 {
        if lead.projectId == None {
          return false;
        }
        if Revision(lead.projectId.value, "Approved") !in revisions {
          return false;
        }
      }
      if to >= 9 && lead.stage < 9 {
        if lead.projectId == None {
          return false;
        }
        var p := lead.projectId.value;
        if p >= |projects| || !projects[p].signedOff {
          return false;
        }
        var sums := GroupSums(payments, p);
        var total := SumOfGroups(sums);
        if total == 0.0 || GroupOf(sums, "Paid") / total < 0.5 {
          return false;
        }
      }
      return true;
    }

    /** The part of a move that touches projects: open, sign off, send to the factory. */
    method MoveProjects(l: nat, lead: Lead, to: int) returns (pid: Option<nat>)
      modifies this`projects
      ensures pid == ProjectOfMove(old(projects), lead, to)
      ensures projects == ProjectsAfterMove(old(projects), l, lead, to)
    {
      pid := lead.projectId;
      if to >= 4 && lead.projectId == None {
        pid := Some(|projects|);
        projects := projects + [Project(l, false, false)];
      }
      if to >= 4 && lead.stage < 4 && pid.Some? && pid.value < |projects| {
        projects := projects[pid.value := projects[pid.value].(signedOff := true)];
      }
      if to >= 9 && lead.stage < 9 && lead.projectId.Some? && lead.projectId.value < |projects| {
        projects := projects[lead.projectId.value := projects[lead.projectId.value].(sentToFactory := true)];
      }
    }

    method Move(l: nat, to: int, override: bool, ts: int) returns (moved: bool)
      modifies this
      ensures moved == MoveAllowed(old(State()), l, to, override)
      ensures State() == Step(old(State()), Timed(Event.Move(l, to, override), ts))
    {
      hide GateOpen, Derive, CloseOpen, Max, ProjectOfMove, ProjectsAfterMove;
      if l >= |leads| || to < 1 || to > 9 {
        return false;
      }
      var lead := leads[l];
      if to == lead.stage {
        return false;
      }
      var allowed := EvaluateGate(lead, to);
      if !allowed && !override {
        return false;
      }
      var update := lead.(stage := to);
      var closed := CloseOpenEntry(lead.journey, ts);
      update := update.(journey := closed + [Visit(to, ts, None)]);
      update := update.(furthest := Max(lead.furthest, to));
      update := update.(phase := Derive(to, lead.status));
      if to >= DELIVERED && lead.deliveredAt == None {
        update := update.(deliveredAt := Some(ts));
      }
      var pid := MoveProjects(l, lead, to);
      update := update.(projectId := pid);
      leads := leads[l := update];
      history := history + [Moved(l, lead.stage, to, false)];
      moved := true;
    }

    method Close(l: nat, status: Status, reason: bool, wonValue: bool, ts: int)
      modifies this
      ensures State() == Step(old(State()), Timed(Event.Close(l, status, reason, wonValue), ts))
    {
      if l >= |leads| || status.Other? || (status == Lost && !reason) {
        return;
      }
      var lead := leads[l];
      var update := lead.(status := status);
      if status == Lost {
        var closed := CloseOpenEntry(lead.journey, ts);
        update := update.(phase := Dropped, journey := closed);
      } else if status == Won {
        var closed := CloseOpenEntry(lead.journey, ts);
        update := update.(phase := Completed, journey := closed);
        if wonValue && lead.projectId.Some? && lead.projectId.value < |projects| {
          projects := projects[lead.projectId.value := projects[lead.projectId.value].(signedOff := true)];
        }
      } else if status == OnHold {
        update := update.(phase := Paused);
      } else {
        update := update.(phase := Derive(lead.stage, Active));
      }
      leads := leads[l := update];
    }

    method Book(l: nat, amount: Option<real>, ts: int) returns (booked: bool)
      modifies this
      ensures booked == BookingAllowed(old(State()), l)
      ensures State() == Step(old(State()), Timed(Event.Book(l, amount), ts))
    {
      if l >= |leads| {
        return false;
      }
      var lead := leads[l];
      for i := 0 to |payments|
        invariant forall j | 0 <= j < i :: !(payments[j].booking && payments[j].leadId == Some(l))
      {
        if payments[i].booking && payments[i].leadId == Some(l) {
          return false;
        }
      }
      if l !in accepted {
        return false;
      }
      var payment := Payment(lead.projectId, Some(l), true, "verified", BookingAmount(accepted[l], amount));
      var update := lead;
      if lead.stage < 4 {
        update := update.(stage := 4, furthest := Max(lead.furthest, 4), phase := Derive(4, lead.status));
      }
      if lead.projectId == None {
        update := update.(projectId := Some(|projects|));
        projects := projects + [Project(l, true, false)];
      } else if lead.projectId.value < |projects| {
        projects := projects[lead.projectId.value := projects[lead.projectId.value].(signedOff := true)];
      }
      payments := payments + [payment.(projectId := update.projectId)];
      leads := leads[l := update];
      if lead.stage < 4 {
        history := history + [Moved(l, lead.stage, 4, true)];
      }
      booked := true;
    }
  }
}
