/** Storage limitation: the retention sweep over enquiry leads, and the anonymizer it calls. */
module Retention {
  import opened Values

  const DAY := 86400

  datatype Pii = Named(text: string) | ErasedLead | ErasedCustomer(customer: nat)

  datatype Lead = Lead(
    projectId: Option<nat>, customerId: Option<nat>, updatedAt: Option<int>, createdAt: Option<int>,
    notifiedAt: Option<int>, erasedAt: Option<int>, deliveredAt: Option<int>, pii: Pii)

  datatype Customer = Customer(active: bool, erasedAt: Option<int>, pii: Pii)

  /** Ids are positions; a lead may name a customer that does not exist. */
  datatype World = World(leads: seq<Lead>, customers: seq<Customer>)

  datatype Window = Window(enquiryDays: int, projectDays: int, noticeDays: int)

  datatype Summary = Summary(notified: nat, erased: nat, reviewDue: nat)

  // --------------------------------------------------------------------- specification

  predicate CustomerHasProject(leads: seq<Lead>, c: nat) {
    exists i :: 0 <= i < |leads| && leads[i].customerId == Some(c) && leads[i].projectId.Some?
  }

  function LastEngagement(l: Lead): Option<int> {
    if l.updatedAt.Some? then l.updatedAt else l.createdAt
  }

  predicate Candidate(l: Lead) {
    l.projectId == None && l.erasedAt == None
  }

  datatype Action = Skip | Notify | Erase

  function NoticeCutoff(now: int, win: Window): int {
    now - (if win.enquiryDays - win.noticeDays > 0 then win.enquiryDays - win.noticeDays else 0) * DAY
  }

  /** What a sweep does about one fetched lead. */
  function Decide(leads: seq<Lead>, l: Lead, now: int, win: Window): Action {
    if !Candidate(l) then Skip
    else if l.customerId.Some? && CustomerHasProject(leads, l.customerId.value) then Skip
    else if LastEngagement(l) == None then Skip
    else
      var last := LastEngagement(l).value;
      if l.notifiedAt == None then (if last < NoticeCutoff(now, win) then Notify else Skip)
      else if last < now - win.enquiryDays * DAY && l.notifiedAt.value < now - win.noticeDays * DAY then Erase
      else Skip
  }

  /** The action on lead `i` of a sweep whose query returned the leads `fetched`. */
  function ActionOn(w: World, fetched: set<nat>, i: nat, now: int, win: Window): Action
    requires i < |w.leads|
  {
    if i in fetched then Decide(w.leads, w.leads[i], now, win) else Skip
  }

  /** Some lead of this customer is erased by the sweep. */
  predicate CustomerErased(w: World, fetched: set<nat>, c: nat, now: int, win: Window) {
    c < |w.customers| &&
    exists j: nat :: j < |w.leads| && ActionOn(w, fetched, j, now, win) == Erase && w.leads[j].customerId == Some(c)
  }

  function SweptLead(w: World, fetched: set<nat>, i: nat, now: int, win: Window): Lead
    requires i < |w.leads|
  {
    var l, a := w.leads[i], ActionOn(w, fetched, i, now, win);
    l.(notifiedAt := if a == Notify then Some(now) else l.notifiedAt,
       erasedAt := if a == Erase then Some(now) else l.erasedAt,
       pii := if l.customerId.Some? && CustomerErased(w, fetched, l.customerId.value, now, win)
              then ErasedCustomer(l.customerId.value)
              else if a == Erase && l.customerId == None then ErasedLead
              else l.pii)
  }

  function SweptCustomer(w: World, fetched: set<nat>, c: nat, now: int, win: Window): Customer
    requires c < |w.customers|
  {
    if CustomerErased(w, fetched, c, now, win) then Customer(false, Some(now), ErasedCustomer(c)) else w.customers[c]
  }

  function SweptLeads(w: World, fetched: set<nat>, n: nat, now: int, win: Window): (r: seq<Lead>)
    requires n <= |w.leads|
    ensures |r| == n && forall i | 0 <= i < n :: r[i] == SweptLead(w, fetched, i, now, win)
  {
    if n == 0 then [] else SweptLeads(w, fetched, n - 1, now, win) + [SweptLead(w, fetched, n - 1, now, win)]
  }

  function SweptCustomers(w: World, fetched: set<nat>, n: nat, now: int, win: Window): (r: seq<Customer>)
    requires n <= |w.customers|
    ensures |r| == n && forall c | 0 <= c < n :: r[c] == SweptCustomer(w, fetched, c, now, win)
  {
    if n == 0 then [] else SweptCustomers(w, fetched, n - 1, now, win) + [SweptCustomer(w, fetched, n - 1, now, win)]
  }

  function Swept(w: World, fetched: set<nat>, now: int, win: Window): World {
    World(SweptLeads(w, fetched, |w.leads|, now, win), SweptCustomers(w, fetched, |w.customers|, now, win))
  }

  function CountOf(w: World, fetched: seq<nat>, a: Action, now: int, win: Window): nat {
    if fetched == [] then 0
    else
      var i := fetched[|fetched| - 1];
      CountOf(w, fetched[..|fetched| - 1], a, now, win) +
      if i < |w.leads| && Decide(w.leads, w.leads[i], now, win) == a then 1 else 0
  }

  predicate DueForReview(l: Lead, now: int, win: Window) {
    l.deliveredAt.Some? && l.deliveredAt.value < now - win.projectDays * DAY && l.erasedAt == None
  }

  function ReviewCount(leads: seq<Lead>, now: int, win: Window): nat {
    if leads == [] then 0
    else ReviewCount(leads[..|leads| - 1], now, win) + if DueForReview(leads[|leads| - 1], now, win) then 1 else 0
  }

  function Elements(s: seq<nat>): (r: set<nat>)
    ensures forall x :: x in r <==> x in s
  {
    if s == [] then {} else Elements(s[..|s| - 1]) + {s[|s| - 1]}
  }

  /** A query result: candidates of the table, each once, in table order. */
  predicate Fetch(w: World, fetched: seq<nat>) {
    && (forall k | 0 <= k < |fetched| :: fetched[k] < |w.leads| && Candidate(w.leads[fetched[k]]))
    && forall a, b | 0 <= a < b < |fetched| :: fetched[a] < fetched[b]
  }

  /** Under the row cap, the query returns every candidate. */
  predicate Complete(w: World, fetched: set<nat>) {
    forall i | 0 <= i < |w.leads| && Candidate(w.leads[i]) :: i in fetched
  }

  /** The candidates among the first `n` leads, in table order. */
  function Candidates(w: World, n: nat): seq<nat>
    requires n <= |w.leads|
  {
    if n == 0 then [] else Candidates(w, n - 1) + if Candidate(w.leads[n - 1]) then [n - 1] else []
  }

  lemma CandidatesStep(w: World, n: nat)
    requires 0 < n <= |w.leads|
    ensures Candidates(w, n) == Candidates(w, n - 1) + if Candidate(w.leads[n - 1]) then [n - 1] else []
  {
  }

  lemma {:induction false} CandidatesFetched(w: World, n: nat)
    requires n <= |w.leads|
    ensures Fetch(w, Candidates(w, n))
    ensures forall i | 0 <= i < |w.leads| ::
              i in Candidates(w, n) <==> i < n && w.leads[i].projectId == None && w.leads[i].erasedAt == None
  {
    if n > 0 {
      CandidatesFetched(w, n - 1);
      var before := Candidates(w, n - 1);
      assert forall k | 0 <= k < |before| :: before[k] in before;
      hide Candidates;
      assert Candidates(w, n) == before + if Candidate(w.leads[n - 1]) then [n - 1] else [] by { CandidatesStep(w, n); }
    }
  }

  /** A query that fetches every lead without a project and not erased is one a sweep may start from. */
  lemma FetchExists(w: World)
    ensures Fetch(w, Candidates(w, |w.leads|)) && Complete(w, Elements(Candidates(w, |w.leads|)))
  {
    CandidatesFetched(w, |w.leads|);
  }

  // ------------------------------------------------------------------- the running code

  class Engine {
    var leads: seq<Lead>
    var customers: seq<Customer>

    ghost function State(): World
      reads this
    {
      World(leads, customers)
    }

    constructor (w: World)
      ensures State() == w
    {
      leads, customers := w.leads, w.customers;
    }

    /** De-identify a customer and every linked lead; false when there is no such customer. */
    method AnonymizeCustomer(c: nat, ts: int) returns (found: bool)
      modifies this
      ensures found == (c < |old(customers)|)
      ensures !found ==> State() == old(State())
      ensures found ==> customers == old(customers)[c := Customer(false, Some(ts), ErasedCustomer(c))]
      ensures |leads| == |old(leads)|
      ensures forall i | 0 <= i < |leads| ::
                leads[i] == if found && old(leads)[i].customerId == Some(c)
                            then old(leads)[i].(pii := ErasedCustomer(c)) else old(leads)[i]
    {
      if c >= |customers| {
        return false;
      }
      customers := customers[c := Customer(false, Some(ts), ErasedCustomer(c))];
      for i := 0 to |leads|
        invariant customers == old(customers)[c := Customer(false, Some(ts), ErasedCustomer(c))]
        invariant |leads| == |old(leads)|
        invariant forall k | 0 <= k < |leads| ::
                    leads[k] == if k < i && old(leads)[k].customerId == Some(c)
                                then old(leads)[k].(pii := ErasedCustomer(c)) else old(leads)[k]
      {
        if leads[i].customerId == Some(c) {
          leads := leads[i := leads[i].(pii := ErasedCustomer(c))];
        }
      }
      found := true;
    }

    /** The erasure of one lead inside the loop. */
    method EraseLead(i: nat, now: int)
      requires i < |leads|
      modifies this
      ensures |leads| == |old(leads)| && |customers| == |old(customers)|
      ensures var cid := old(leads)[i].customerId;
              && (forall k | 0 <= k < |leads| ::
                    leads[k] == old(leads)[k].(
                      erasedAt := if k == i then Some(now) else old(leads)[k].erasedAt,
                      pii := if cid.Some? && cid.value < |old(customers)| && old(leads)[k].customerId == cid
                             then ErasedCustomer(cid.value)
                             else if k == i && cid == None then ErasedLead else old(leads)[k].pii))
              && (forall c | 0 <= c < |customers| ::
                    customers[c] == if cid == Some(c) then Customer(false, Some(now), ErasedCustomer(c))
                                    else old(customers)[c])
    {
      if leads[i].customerId.Some? {
        var _ := AnonymizeCustomer(leads[i].customerId.value, now);
        leads := leads[i := leads[i].(erasedAt := Some(now))];
      } else {
        leads := leads[i := leads[i].(pii := ErasedLead, erasedAt := Some(now))];
      }
    }

    /** One candidate, decided on its document as fetched, against the live table. */
    method Treat(i: nat, lead: Lead, now: int, win: Window, dryRun: bool, ghost w: World, ghost done: set<nat>)
      returns (a: Action)
      requires i < |w.leads| && i !in done && lead == w.leads[i] && Candidate(lead)
      requires State() == if dryRun then w else Swept(w, done, now, win)
      modifies this
      ensures a == Decide(w.leads, lead, now, win)
      ensures State() == if dryRun then w else Swept(w, done + {i}, now, win)
    {
      var cid := lead.customerId;
      SameProjects(w, leads);
      if (cid.Some? && CustomerHasProject(leads, cid.value)) || LastEngagement(lead) == None {
        SkipStep(w, done, i, now, win);
        return Skip;
      }
      var last := LastEngagement(lead).value;
      if lead.notifiedAt == None {
        if last >= NoticeCutoff(now, win) {
          SkipStep(w, done, i, now, win);
          return Skip;
        }
        if !dryRun {
          leads := leads[i := leads[i].(notifiedAt := Some(now))];
          NotifyStep(w, done, i, now, win);
        }
        return Notify;
      }
      if last < now - win.enquiryDays * DAY && lead.notifiedAt.value < now - win.noticeDays * DAY {
        if !dryRun {
          EraseLead(i, now);
          EraseStep(w, done, i, now, win);
          assert leads == Swept(w, done + {i}, now, win).leads;
          assert customers == Swept(w, done + {i}, now, win).customers;
        }
        return Erase;
      }
      SkipStep(w, done, i, now, win);
      return Skip;
    }

    /** One pass over the fetched candidates. */
    method RunSweep(fetched: seq<nat>, now: int, win: Window, dryRun: bool) returns (summary: Summary)
      requires Fetch(State(), fetched)
      modifies this
      ensures State() == if dryRun then old(State()) else Swept(old(State()), Elements(fetched), now, win)
      ensures summary.notified == CountOf(old(State()), fetched, Notify, now, win)
      ensures summary.erased == CountOf(old(State()), fetched, Erase, now, win)
      ensures summary.reviewDue == ReviewCount(leads, now, win)
    {
      hide Decide, Swept, ReviewCount;
      ghost var w := State();
      var snapshot := leads;
      var notified, erased := 0, 0;
      SweptNothing(w, now, win);
      for k := 0 to |fetched|
        invariant State() == if dryRun then w else Swept(w, Elements(fetched[..k]), now, win)
        invariant notified == CountOf(w, fetched[..k], Notify, now, win)
        invariant erased == CountOf(w, fetched[..k], Erase, now, win)
      {
        ghost var done := Elements(fetched[..k]);
        assert fetched[..k + 1][..k] == fetched[..k];
        assert Elements(fetched[..k + 1]) == done + {fetched[k]};
        var a := Treat(fetched[k], snapshot[fetched[k]], now, win, dryRun, w, done);
        if a == Notify {
          notified := notified + 1;
        } else if a == Erase {
          erased := erased + 1;
        }
      }
      assert fetched[..|fetched|] == fetched;
      summary := Summary(notified, erased, ReviewCount(leads, now, win));
    }
  }

  lemma SweptNothing(w: World, now: int, win: Window)
    ensures Swept(w, {}, now, win) == w
  {
    assert SweptLeads(w, {}, |w.leads|, now, win) == w.leads;
    assert SweptCustomers(w, {}, |w.customers|, now, win) == w.customers;
  }

  lemma SameProjects(w: World, leads: seq<Lead>)
    requires |leads| == |w.leads|
    requires forall i | 0 <= i < |leads| ::
               leads[i].customerId == w.leads[i].customerId && leads[i].projectId == w.leads[i].projectId
    ensures forall c: nat :: CustomerHasProject(leads, c) == CustomerHasProject(w.leads, c)
  {
  }

  lemma SkipStep(w: World, done: set<nat>, i: nat, now: int, win: Window)
    requires i < |w.leads| && i !in done && Decide(w.leads, w.leads[i], now, win) == Skip
    ensures Swept(w, done + {i}, now, win) == Swept(w, done, now, win)
  {
    var done' := done + {i};
    forall k: nat | k < |w.leads|
      ensures ActionOn(w, done', k, now, win) == ActionOn(w, done, k, now, win)
    {
    }
    SameActions(w, done, done', now, win);
  }

  lemma SameActions(w: World, a: set<nat>, b: set<nat>, now: int, win: Window)
    requires forall k: nat | k < |w.leads| :: ActionOn(w, a, k, now, win) == ActionOn(w, b, k, now, win)
    ensures Swept(w, a, now, win) == Swept(w, b, now, win)
  {
    forall c: nat
      ensures CustomerErased(w, a, c, now, win) == CustomerErased(w, b, c, now, win)
    {
    }
    assert SweptLeads(w, a, |w.leads|, now, win) == SweptLeads(w, b, |w.leads|, now, win);
    assert SweptCustomers(w, a, |w.customers|, now, win) == SweptCustomers(w, b, |w.customers|, now, win);
  }

  lemma NotifyStep(w: World, done: set<nat>, i: nat, now: int, win: Window)
    requires i < |w.leads| && i !in done && Decide(w.leads, w.leads[i], now, win) == Notify
    ensures var before, after := Swept(w, done, now, win), Swept(w, done + {i}, now, win);
            && after.customers == before.customers
            && after.leads == before.leads[i := before.leads[i].(notifiedAt := Some(now))]
  {
    var done' := done + {i};
    forall c: nat
      ensures CustomerErased(w, done, c, now, win) == CustomerErased(w, done', c, now, win)
    {
      if CustomerErased(w, done, c, now, win) {
        var j: nat :| j < |w.leads| && ActionOn(w, done, j, now, win) == Erase && w.leads[j].customerId == Some(c);
        assert ActionOn(w, done', j, now, win) == Erase;
      }
      if CustomerErased(w, done', c, now, win) {
        var j: nat :| j < |w.leads| && ActionOn(w, done', j, now, win) == Erase && w.leads[j].customerId == Some(c);
        assert ActionOn(w, done, j, now, win) == Erase;
      }
    }
    assert Swept(w, done, now, win).customers == Swept(w, done', now, win).customers;
  }

  lemma EraseStep(w: World, done: set<nat>, i: nat, now: int, win: Window)
    requires i < |w.leads| && i !in done && Decide(w.leads, w.leads[i], now, win) == Erase
    ensures var before, after, cid := Swept(w, done, now, win), Swept(w, done + {i}, now, win), w.leads[i].customerId;
            && (forall k | 0 <= k < |w.leads| ::
                  after.leads[k] == before.leads[k].(
                    erasedAt := if k == i then Some(now) else before.leads[k].erasedAt,
                    pii := if cid.Some? && cid.value < |w.customers| && w.leads[k].customerId == cid
                           then ErasedCustomer(cid.value)
                           else if k == i && cid == None then ErasedLead else before.leads[k].pii))
            && (forall c | 0 <= c < |w.customers| ::
                  after.customers[c] == if cid == Some(c) then Customer(false, Some(now), ErasedCustomer(c))
                                        else before.customers[c])
  {
    var done', cid := done + {i}, w.leads[i].customerId;
    assert ActionOn(w, done', i, now, win) == Erase;
    forall c: nat
      ensures CustomerErased(w, done', c, now, win) <==>
              CustomerErased(w, done, c, now, win) || (cid == Some(c) && c < |w.customers|)
    {
      if CustomerErased(w, done, c, now, win) {
        var j: nat :| j < |w.leads| && ActionOn(w, done, j, now, win) == Erase && w.leads[j].customerId == Some(c);
        assert ActionOn(w, done', j, now, win) == Erase;
      }
      if CustomerErased(w, done', c, now, win) && cid != Some(c) {
        var j: nat :| j < |w.leads| && ActionOn(w, done', j, now, win) == Erase && w.leads[j].customerId == Some(c);
        assert ActionOn(w, done, j, now, win) == Erase;
      }
    }
  }

  // ------------------------------------------------------------------- single sweeps

  /** The leads a sweep erases. */
  function ErasedBy(w: World, fetched: set<nat>, now: int, win: Window): set<nat> {
    set i: nat | i < |w.leads| && ActionOn(w, fetched, i, now, win) == Erase
  }

  /** How many of the leads `gone` were due for review. */
  function DueAmong(leads: seq<Lead>, gone: set<nat>, now: int, win: Window): nat {
    if leads == [] then 0
    else
      var n := |leads| - 1;
      DueAmong(leads[..n], gone, now, win) + if n in gone && DueForReview(leads[n], now, win) then 1 else 0
  }

  lemma {:induction false} ReviewSplits(before: seq<Lead>, after: seq<Lead>, gone: set<nat>, now: int, win: Window)
    requires |before| == |after|
    requires forall i | 0 <= i < |before| ::
               DueForReview(after[i], now, win) <==> DueForReview(before[i], now, win) && i !in gone
    ensures ReviewCount(before, now, win) == ReviewCount(after, now, win) + DueAmong(before, gone, now, win)
  {
    if before != [] {
      var n := |before| - 1;
      ReviewSplits(before[..n], after[..n], gone, now, win);
    }
  }

  /** A dry run reports the real run's notices and erasures; its review count exceeds the real
      one by exactly the erased leads that were due, so they agree when only leads with a
      project can have been delivered. */
  lemma DryRunReviewExact(w: World, fetched: set<nat>, now: int, win: Window)
    ensures var after, gone := Swept(w, fetched, now, win).leads, ErasedBy(w, fetched, now, win);
            ReviewCount(w.leads, now, win) == ReviewCount(after, now, win) + DueAmong(w.leads, gone, now, win)
    ensures (forall i | 0 <= i < |w.leads| :: w.leads[i].deliveredAt.Some? ==> w.leads[i].projectId.Some?) ==>
            ReviewCount(w.leads, now, win) == ReviewCount(Swept(w, fetched, now, win).leads, now, win)
  {
    var after, gone := Swept(w, fetched, now, win).leads, ErasedBy(w, fetched, now, win);
    forall i: nat | i < |w.leads|
      ensures DueForReview(after[i], now, win) <==> DueForReview(w.leads[i], now, win) && i !in gone
    {
      assert after[i] == SweptLead(w, fetched, i, now, win);
    }
    ReviewSplits(w.leads, after, gone, now, win);
    if forall i | 0 <= i < |w.leads| :: w.leads[i].deliveredAt.Some? ==> w.leads[i].projectId.Some? {
      ReviewSplits(w.leads, after, {}, now, win);
      NoneAmong(w.leads, now, win);
    }
  }

  lemma {:induction false} NoneAmong(leads: seq<Lead>, now: int, win: Window)
    ensures DueAmong(leads, {}, now, win) == 0
  {
    if leads != [] { NoneAmong(leads[..|leads| - 1], now, win); }
  }

  /** A lead this sweep has just warned that is already old enough to be erased at once. */
  predicate Hasty(w: World, fetched: set<nat>, i: nat, now: int, win: Window)
    requires i < |w.leads|
  {
    && ActionOn(w, fetched, i, now, win) == Notify
    && win.noticeDays < 0
    && LastEngagement(w.leads[i]).value < now - win.enquiryDays * DAY
  }

  lemma SecondDecision(w: World, fetched: set<nat>, i: nat, now: int, win: Window)
    requires i < |w.leads| && Complete(w, fetched)
    ensures var w' := Swept(w, fetched, now, win);
            Decide(w'.leads, w'.leads[i], now, win) == if Hasty(w, fetched, i, now, win) then Erase else Skip
  {
    SameProjects(w, Swept(w, fetched, now, win).leads);
  }

  /**
   * Re-running converges: with every candidate fetched, a second sweep at the same instant
   * changes nothing exactly when no lead was both just warned and, the notice period being
   * configured negative, already past the window. With a non-negative notice period it never does.
   */
  lemma SecondSweepExact(w: World, fetched: set<nat>, again: set<nat>, now: int, win: Window)
    requires Complete(w, fetched) && Complete(Swept(w, fetched, now, win), again)
    ensures Swept(Swept(w, fetched, now, win), again, now, win) == Swept(w, fetched, now, win) <==>
            !exists i: nat :: i < |w.leads| && Hasty(w, fetched, i, now, win)
  {
    var w' := Swept(w, fetched, now, win);
    var w'' := Swept(w', again, now, win);
    forall i: nat | i < |w.leads|
      ensures ActionOn(w', again, i, now, win) == if Hasty(w, fetched, i, now, win) then Erase else Skip
    {
      SecondDecision(w, fetched, i, now, win);
    }
    if i: nat :| i < |w.leads| && Hasty(w, fetched, i, now, win) {
      assert w''.leads[i].erasedAt == Some(now) && w'.leads[i].erasedAt == None;
    } else {
      SameActions(w', again, {}, now, win);
      SweptNothing(w', now, win);
    }
  }

  /**
   * The cascade: erasing one lead of an existing customer strips the personal data of every
   * lead of that customer, however recently touched; no other lead loses any.
   */
  lemma CascadeExact(w: World, fetched: set<nat>, i: nat, now: int, win: Window)
    requires i < |w.leads| && w.leads[i].pii.Named?
    ensures !Swept(w, fetched, now, win).leads[i].pii.Named? <==>
            exists j: nat :: j < |w.leads| && ActionOn(w, fetched, j, now, win) == Erase &&
              if w.leads[j].customerId == None then j == i
              else w.leads[i].customerId == w.leads[j].customerId && w.leads[j].customerId.value < |w.customers|
  {
  }

  /** A lead the sweep erases, as the table then says, keeps its data in one case: its customer
      id names no customer. */
  lemma ErasedLosesData(w: World, fetched: set<nat>, i: nat, now: int, win: Window)
    requires i < |w.leads| && w.leads[i].pii.Named? && ActionOn(w, fetched, i, now, win) == Erase
    ensures var after, cid := Swept(w, fetched, now, win).leads[i], w.leads[i].customerId;
            && after.erasedAt == Some(now)
            && (!after.pii.Named? <==> cid == None || cid.value < |w.customers|)
  {
    CascadeExact(w, fetched, i, now, win);
  }

  /**
   * What a sweep does about a lead, in terms of its row and the table. It acts on a lead it
   * fetched that has no project and is not erased, whose customer has no project either, and that
   * has some date of engagement. It warns one never warned that has been idle longer than the
   * window less the notice period; it erases one warned longer ago than the notice period that
   * has been idle longer than the window; it does nothing else.
   */
  lemma ActsExactly(w: World, fetched: set<nat>, i: nat, now: int, win: Window)
    requires i < |w.leads|
    ensures var l, a := w.leads[i], ActionOn(w, fetched, i, now, win);
            var open := && i in fetched && l.projectId == None && l.erasedAt == None
                        && (l.customerId.Some? ==>
                              forall k | 0 <= k < |w.leads| && w.leads[k].customerId == l.customerId ::
                                w.leads[k].projectId == None)
                        && (l.updatedAt.Some? || l.createdAt.Some?);
            && (a == Notify <==>
                  open && l.notifiedAt == None && IdleSince(l) < now &&
                  IdleSince(l) < now - (win.enquiryDays - win.noticeDays) * 86400)
            && (a == Erase <==>
                  open && l.notifiedAt.Some? && l.notifiedAt.value < now - win.noticeDays * 86400 &&
                  IdleSince(l) < now - win.enquiryDays * 86400)
  {
  }

  /** When a lead was last engaged: its update, else its creation. */
  function IdleSince(l: Lead): int {
    match (l.updatedAt, l.createdAt)
    case (Some(t), _) => t
    case (None, Some(t)) => t
    case (None, None) => 0
  }

  /** Leads under review: delivered longer ago than the project window and not erased. */
  function UnderReview(leads: seq<Lead>, now: int, win: Window): set<nat> {
    set i: nat | i < |leads| && leads[i].deliveredAt.Some? && leads[i].erasedAt == None &&
                 leads[i].deliveredAt.value < now - win.projectDays * 86400
  }

  lemma {:induction false} ReviewIsCardinality(leads: seq<Lead>, now: int, win: Window)
    ensures ReviewCount(leads, now, win) == |UnderReview(leads, now, win)|
  {
    if leads == [] {
      assert UnderReview(leads, now, win) == {};
    } else {
      var n := |leads| - 1;
      ReviewIsCardinality(leads[..n], now, win);
      var before := UnderReview(leads[..n], now, win);
      assert UnderReview(leads, now, win) == if DueForReview(leads[n], now, win) then before + {n} else before;
    }
  }

  /** The leads among the fetched on which the sweep takes this action. */
  function Taken(w: World, fetched: seq<nat>, a: Action, now: int, win: Window): set<nat> {
    set i | i in fetched && i < |w.leads| && ActionOn(w, Elements(fetched), i, now, win) == a
  }

  /** The counters are the numbers of leads acted on. */
  lemma CountsAreCardinalities(w: World, fetched: seq<nat>, a: Action, now: int, win: Window)
    requires Fetch(w, fetched)
    ensures CountOf(w, fetched, a, now, win) == |Taken(w, fetched, a, now, win)|
  {
    CountsDecided(w, fetched, a, now, win);
    assert Taken(w, fetched, a, now, win) == Decided(w, fetched, a, now, win);
  }

  function Decided(w: World, fetched: seq<nat>, a: Action, now: int, win: Window): set<nat> {
    set i | i in fetched && i < |w.leads| && Decide(w.leads, w.leads[i], now, win) == a
  }

  lemma {:induction false} CountsDecided(w: World, fetched: seq<nat>, a: Action, now: int, win: Window)
    requires Fetch(w, fetched)
    ensures CountOf(w, fetched, a, now, win) == |Decided(w, fetched, a, now, win)|
  {
    hide Decide, Fetch, Decided;
    if fetched == [] {
      NothingDecided(w, a, now, win);
    } else {
      var n := |fetched| - 1;
      FetchPrefix(w, fetched);
      CountsDecided(w, fetched[..n], a, now, win);
      assert fetched == fetched[..n] + [fetched[n]];
      OneMoreDecided(w, fetched[..n], fetched[n], a, now, win);
    }
  }

  lemma NothingDecided(w: World, a: Action, now: int, win: Window)
    ensures Decided(w, [], a, now, win) == {}
  {
  }

  lemma OneMoreDecided(w: World, fetched: seq<nat>, i: nat, a: Action, now: int, win: Window)
    requires i !in fetched
    ensures |Decided(w, fetched + [i], a, now, win)| == |Decided(w, fetched, a, now, win)| +
            if i < |w.leads| && Decide(w.leads, w.leads[i], now, win) == a then 1 else 0
  {
    hide Decide;
    var before := Decided(w, fetched, a, now, win);
    assert Decided(w, fetched + [i], a, now, win) ==
           if i < |w.leads| && Decide(w.leads, w.leads[i], now, win) == a then before + {i} else before;
  }

  lemma FetchPrefix(w: World, fetched: seq<nat>)
    requires Fetch(w, fetched) && fetched != []
    ensures Fetch(w, fetched[..|fetched| - 1]) && fetched[|fetched| - 1] !in fetched[..|fetched| - 1]
  {
  }

  // ------------------------------------------------------------------------ whole runs

  /** `Office` is everything else the CRM does: any change that leaves the retention marks
      alone, new leads starting unmarked. */
  datatype Event = Sweep(fetched: set<nat>, now: int, win: Window) | Office(world: World)

  predicate Unmarked(l: Lead) {
    l.notifiedAt == None && l.erasedAt == None
  }

  predicate OfficeOk(w: World, w': World) {
    && |w.leads| <= |w'.leads|
    && (forall i | 0 <= i < |w.leads| ::
          w'.leads[i].notifiedAt == w.leads[i].notifiedAt && w'.leads[i].erasedAt == w.leads[i].erasedAt)
    && forall i | |w.leads| <= i < |w'.leads| :: Unmarked(w'.leads[i])
  }

  function Step(w: World, e: Event): World {
    match e
    case Sweep(fetched, now, win) => Swept(w, fetched, now, win)
    case Office(w') => if OfficeOk(w, w') then w' else w
  }

  function After(run: seq<Event>): World {
    if run == [] then World([], []) else Step(After(run[..|run| - 1]), run[|run| - 1])
  }

  /** Sweep `k` took this action on the lead. */
  predicate Did(run: seq<Event>, k: nat, i: nat, a: Action) {
    && k < |run| && run[k].Sweep?
    && i < |After(run[..k]).leads|
    && ActionOn(After(run[..k]), run[k].fetched, i, run[k].now, run[k].win) == a
  }

  lemma DidLifts(run: seq<Event>, n: nat, k: nat, i: nat, a: Action)
    requires n <= |run| && Did(run[..n], k, i, a)
    ensures Did(run, k, i, a) && k < n
  {
    assert run[..n][..k] == run[..k];
  }

  lemma {:induction false} NoticeHasSweep(run: seq<Event>, i: nat)
    requires i < |After(run).leads| && After(run).leads[i].notifiedAt.Some?
    ensures exists k: nat :: Did(run, k, i, Notify) && After(run).leads[i].notifiedAt == Some(run[k].now)
  {
    if run != [] {
      var n := |run| - 1;
      var w := After(run[..n]);
      if i < |w.leads| && w.leads[i].notifiedAt.Some? {
        NoticeHasSweep(run[..n], i);
        var k: nat :| Did(run[..n], k, i, Notify) && w.leads[i].notifiedAt == Some(run[..n][k].now);
        DidLifts(run, n, k, i, Notify);
      } else {
        assert Did(run, n, i, Notify);
      }
    }
  }

  /** Why an erasure was allowed: no project, none for the customer, idle past the window, and
      warned by an earlier sweep longer ago than the notice period. */
  ghost predicate Justified(run: seq<Event>, k: nat, i: nat)
    requires Did(run, k, i, Erase)
  {
    var w, l, now, win := After(run[..k]), After(run[..k]).leads[i], run[k].now, run[k].win;
    && l.projectId == None
    && (l.customerId.Some? ==> !CustomerHasProject(w.leads, l.customerId.value))
    && LastEngagement(l).Some? && LastEngagement(l).value < now - win.enquiryDays * DAY
    && exists j: nat :: j < k && Did(run, j, i, Notify) && run[j].now < now - win.noticeDays * DAY
  }

  /**
   * Retention safety: over any interleaving of sweeps, with any windows and any subset of the
   * candidates fetched, and of other work, a lead marked erased was erased by a sweep that
   * had every reason to, after an earlier sweep had warned it.
   */
  lemma {:induction false} ErasureWasJustified(run: seq<Event>, i: nat)
    requires i < |After(run).leads| && After(run).leads[i].erasedAt.Some?
    ensures exists k: nat ::
              Did(run, k, i, Erase) && Justified(run, k, i) && After(run).leads[i].erasedAt == Some(run[k].now)
  {
    if run != [] {
      hide Step, Justified, Decide;
      var n := |run| - 1;
      var w := After(run[..n]);
      ErasureStep(w, run[n], i);
      if i < |w.leads| && w.leads[i].erasedAt.Some? {
        ErasureWasJustified(run[..n], i);
        var k: nat :| Did(run[..n], k, i, Erase) && Justified(run[..n], k, i) &&
                      w.leads[i].erasedAt == Some(run[..n][k].now);
        JustifiedLifts(run, n, k, i);
      } else {
        JustifiedNow(run, n, i);
      }
    }
  }

  /** What one event does to the mark of erasure. */
  lemma ErasureStep(w: World, e: Event, i: nat)
    requires i < |Step(w, e).leads| && Step(w, e).leads[i].erasedAt.Some?
    ensures i < |w.leads|
    ensures w.leads[i].erasedAt.Some? ==> Step(w, e).leads[i].erasedAt == w.leads[i].erasedAt
    ensures w.leads[i].erasedAt == None ==>
              && e.Sweep? && ActionOn(w, e.fetched, i, e.now, e.win) == Erase
              && Step(w, e).leads[i].erasedAt == Some(e.now)
  {
  }

  lemma JustifiedLifts(run: seq<Event>, n: nat, k: nat, i: nat)
    requires n <= |run| && Did(run[..n], k, i, Erase) && Justified(run[..n], k, i)
    ensures Did(run, k, i, Erase) && Justified(run, k, i) && k < n
  {
    DidLifts(run, n, k, i, Erase);
    hide After, ActionOn;
    assert run[..n][..k] == run[..k] && run[..n][k] == run[k];
    var j: nat :| j < k && Did(run[..n], j, i, Notify) && run[..n][j].now < run[k].now - run[k].win.noticeDays * DAY;
    DidLifts(run, n, j, i, Notify);
  }

  lemma JustifiedNow(run: seq<Event>, n: nat, i: nat)
    requires n < |run| && Did(run, n, i, Erase)
    ensures Justified(run, n, i)
  {
    NoticeHasSweep(run[..n], i);
    var w := After(run[..n]);
    var j: nat :| Did(run[..n], j, i, Notify) && w.leads[i].notifiedAt == Some(run[..n][j].now);
    DidLifts(run, n, j, i, Notify);
  }

  lemma {:induction false} NoticeStays(run: seq<Event>, k: nat, n: nat, i: nat)
    requires k <= n <= |run| && i < |After(run[..k]).leads| && After(run[..k]).leads[i].notifiedAt.Some?
    ensures i < |After(run[..n]).leads| && After(run[..n]).leads[i].notifiedAt == After(run[..k]).leads[i].notifiedAt
    decreases n
  {
    hide Step;
    if n > k {
      NoticeStays(run, k, n - 1, i);
      assert run[..n][..n - 1] == run[..n - 1] && run[..n][n - 1] == run[n - 1];
      MarkStays(After(run[..n - 1]), run[n - 1], i);
    }
  }

  lemma MarkStays(w: World, e: Event, i: nat)
    requires i < |w.leads| && w.leads[i].notifiedAt.Some?
    ensures i < |Step(w, e).leads| && Step(w, e).leads[i].notifiedAt == w.leads[i].notifiedAt
  {
  }

  /**
   * But the warning is given once: in no run do two sweeps notify the same lead. A lead that
   * re-engages after its notice is later erased on the strength of the old one.
   */
  lemma WarnedAtMostOnce(run: seq<Event>, a: nat, b: nat, i: nat)
    requires a < b && Did(run, a, i, Notify)
    ensures !Did(run, b, i, Notify)
  {
    if b < |run| {
      assert run[..a + 1][..a] == run[..a];
      NoticeStays(run, a + 1, b, i);
    }
  }

  /** Nothing of the lead's own keeps a sweep from it: no project, its own or its customer's,
      not erased yet, and some engagement on record. */
  predicate Reachable(w: World, i: nat)
    requires i < |w.leads|
  {
    var l := w.leads[i];
    && Candidate(l) && LastEngagement(l).Some?
    && (l.customerId.Some? ==> !CustomerHasProject(w.leads, l.customerId.value))
  }

  /**
   * What becomes of a lead after its one warning, over every run. A later sweep erases it
   * exactly when it fetched it, nothing protects it, it has been idle for the enquiry window and
   * the old notice has aged. If it engaged again since the warning and the notice period is no
   * longer than the window, the age of the notice no longer matters: the idle window is all it
   * gets, without a new warning.
   */
  lemma StaleNoticeSuffices(run: seq<Event>, a: nat, k: nat, i: nat)
    requires a < k < |run| && Did(run, a, i, Notify) && run[k].Sweep?
    ensures i < |After(run[..k]).leads|
    ensures var w, now, win := After(run[..k]), run[k].now, run[k].win;
            var last := LastEngagement(w.leads[i]);
            var idle := i in run[k].fetched && Reachable(w, i) && last.value < now - win.enquiryDays * DAY;
            && (Did(run, k, i, Erase) <==> idle && run[a].now < now - win.noticeDays * DAY)
            && (last.Some? && run[a].now <= last.value && win.noticeDays <= win.enquiryDays ==>
                  (Did(run, k, i, Erase) <==> idle))
            && !Did(run, k, i, Notify)
  {
    assert run[..a + 1][..a] == run[..a];
    NoticeStays(run, a + 1, k, i);
    assert After(run[..k]).leads[i].notifiedAt == Some(run[a].now);
  }
}
