/** Upsert import of ad leads: two match keys, Meta id first, then phone. */
module Imports {
  import opened Values

  /** The refreshable fields other than the phone; "" stands for None or "". */
  type Brief = map<string, string>

  /** A spreadsheet row already mapped to lead fields; "" stands for a missing Meta id or phone. */
  datatype Record = Record(metaId: string, phone: string, usable: bool, brief: Brief)

  /** A stored lead. `progress` is everything an import may never touch: stage, status,
      lifecycle phase, journey, owner. The lead's id is its position in the table. */
  datatype Lead = Lead(metaId: string, phone: string, brief: Brief, progress: string, touchedAt: int, batch: string)

  const FRESH := "stage 1, Active, Enquiry"

  function Field(b: Brief, k: string): string {
    if k in b then b[k] else ""
  }

  // -------------------------------------------------------------- specification

  function FindMeta(leads: seq<Lead>, metaId: string): (r: Option<nat>)
    ensures r.Some? ==> r.value < |leads| && leads[r.value].metaId == metaId
    ensures r.None? ==> forall i | 0 <= i < |leads| :: leads[i].metaId != metaId
  {
    if leads == [] then None
    else if leads[|leads| - 1].metaId == metaId then Some(|leads| - 1)
    else FindMeta(leads[..|leads| - 1], metaId)
  }

  function FindPhone(leads: seq<Lead>, phone: string): (r: Option<nat>)
    ensures r.Some? ==> r.value < |leads| && leads[r.value].phone == phone
    ensures r.None? ==> forall i | 0 <= i < |leads| :: leads[i].phone != phone
  {
    if leads == [] then None
    else if leads[|leads| - 1].phone == phone then Some(|leads| - 1)
    else FindPhone(leads[..|leads| - 1], phone)
  }

  /** The lead a record belongs to: by Meta id, else by phone. */
  function Resolve(leads: seq<Lead>, r: Record): (i: Option<nat>)
    ensures i.Some? ==> i.value < |leads|
  {
    var byMeta := if r.metaId != "" then FindMeta(leads, r.metaId) else None;
    if byMeta.Some? then byMeta
    else if r.phone != "" then FindPhone(leads, r.phone)
    else None
  }

  function Refreshed(held: Brief, given: Brief): Brief {
    map k | k in held.Keys + given.Keys :: if Field(given, k) != "" then given[k] else Field(held, k)
  }

  function Updated(l: Lead, r: Record, now: int, batch: string): Lead {
    Lead(if r.metaId != "" && l.metaId == "" then r.metaId else l.metaId,
         if r.phone != "" then r.phone else l.phone,
         Refreshed(l.brief, r.brief), l.progress, now, batch)
  }

  function Created(r: Record, now: int, batch: string): Lead {
    Lead(r.metaId, r.phone, r.brief, FRESH, now, batch)
  }

  /** Rows before row `i` that carry its Meta id make it a duplicate within the file. */
  predicate Skipped(rows: seq<Record>, i: nat)
    requires i < |rows|
  {
    || !rows[i].usable
    || (rows[i].metaId != "" && exists j :: 0 <= j < i && rows[j].usable && rows[j].metaId == rows[i].metaId)
  }

  function Upsert(leads: seq<Lead>, r: Record, now: int, batch: string): seq<Lead> {
    match Resolve(leads, r)
    case Some(i) => leads[i := Updated(leads[i], r, now, batch)]
    case None => leads + [Created(r, now, batch)]
  }

  /** The table after the first `n` rows of the file. */
  function After(leads: seq<Lead>, rows: seq<Record>, n: nat, now: int, batch: string): seq<Lead>
    requires n <= |rows|
  {
    if n == 0 then leads
    else
      var before := After(leads, rows, n - 1, now, batch);
      if Skipped(rows, n - 1) then before else Upsert(before, rows[n - 1], now, batch)
  }

  function CreatedCount(leads: seq<Lead>, rows: seq<Record>, n: nat, now: int, batch: string): nat
    requires n <= |rows|
  {
    if n == 0 then 0
    else
      CreatedCount(leads, rows, n - 1, now, batch) +
      if !Skipped(rows, n - 1) && Resolve(After(leads, rows, n - 1, now, batch), rows[n - 1]).None? then 1 else 0
  }

  function SkippedCount(rows: seq<Record>, n: nat): nat
    requires n <= |rows|
  {
    if n == 0 then 0 else SkippedCount(rows, n - 1) + if Skipped(rows, n - 1) then 1 else 0
  }

  // -------------------------------------------------------------------- the running code

  class Crm {
    var leads: seq<Lead>

    constructor (leads: seq<Lead>)
      ensures this.leads == leads
    {
      this.leads := leads;
    }

    method ImportLeads(rows: seq<Record>, now: int, batch: string) returns (created: nat, updated: nat, skipped: nat)
      modifies this
      ensures leads == After(old(leads), rows, |rows|, now, batch)
      ensures created == CreatedCount(old(leads), rows, |rows|, now, batch)
      ensures skipped == |Passed(rows, |rows|)|
      ensures created + updated + skipped == |rows|
      ensures |leads| == |old(leads)| + created
      ensures forall i | 0 <= i < |old(leads)| :: leads[i].progress == old(leads)[i].progress
    {
      hide Updated, Created, Passed, FindMeta, FindPhone;
      created, updated, skipped := 0, 0, 0;
      var seen: set<string> := {};
      for i := 0 to |rows|
        invariant leads == After(old(leads), rows, i, now, batch)
        invariant created == CreatedCount(old(leads), rows, i, now, batch)
        invariant skipped == SkippedCount(rows, i)
        invariant created + updated + skipped == i
        invariant forall m :: m in seen <==> m != "" && exists j :: 0 <= j < i && rows[j].usable && rows[j].metaId == m
      {
        var lead := rows[i];
        if !lead.usable {
          skipped := skipped + 1;
          continue;
        }
        if lead.metaId != "" && lead.metaId in seen {
          skipped := skipped + 1;
          continue;
        }
        if lead.metaId != "" {
          seen := seen + {lead.metaId};
        }
        var existing: Option<nat> := None;
        if lead.metaId != "" {
          existing := FindMeta(leads, lead.metaId);
        }
        if existing.None? && lead.phone != "" {
          existing := FindPhone(leads, lead.phone);
        }
        if existing.Some? {
          leads := leads[existing.value := Updated(leads[existing.value], lead, now, batch)];
          updated := updated + 1;
        } else {
          leads := leads + [Created(lead, now, batch)];
          created := created + 1;
        }
      }
      ImportKeepsProgress(old(leads), rows, |rows|, now, batch);
      SkippedIsCardinality(rows, |rows|);
    }
  }

  /** No lead is lost, and no import touches what sales made of the leads it found. */
  lemma {:induction false} ImportKeepsProgress(leads: seq<Lead>, rows: seq<Record>, n: nat, now: int, batch: string)
    requires n <= |rows|
    ensures var table := After(leads, rows, n, now, batch);
            && |table| == |leads| + CreatedCount(leads, rows, n, now, batch)
            && forall i | 0 <= i < |leads| :: table[i].progress == leads[i].progress
  {
    if n > 0 {
      ImportKeepsProgress(leads, rows, n - 1, now, batch);
      UpsertKeepsProgress(After(leads, rows, n - 1, now, batch), rows[n - 1], now, batch);
    }
  }

  lemma UpsertKeepsProgress(leads: seq<Lead>, r: Record, now: int, batch: string)
    ensures var table := Upsert(leads, r, now, batch);
            && |table| == |leads| + (if Resolve(leads, r).None? then 1 else 0)
            && forall i | 0 <= i < |leads| :: table[i].progress == leads[i].progress
  {
  }

  // --------------------------------------------------------------- which rows act, and on what

  /** Two rows of one ad lead. */
  predicate SameAd(a: Record, b: Record) {
    a.metaId != "" && a.metaId == b.metaId
  }

  lemma {:induction false} FirstOfItsAd(rows: seq<Record>, j: nat) returns (i: nat)
    requires j < |rows| && rows[j].usable && rows[j].metaId != ""
    ensures i <= j && !Skipped(rows, i) && rows[i].metaId == rows[j].metaId
    decreases j
  {
    if Skipped(rows, j) {
      var k :| 0 <= k < j && rows[k].usable && rows[k].metaId == rows[j].metaId;
      i := FirstOfItsAd(rows, k);
    } else {
      i := j;
    }
  }

  /** The rows an import acts on: usable ones, one for each ad lead, and every usable row that is
      passed over comes after the acting row of its ad lead. */
  lemma ActingRows(rows: seq<Record>)
    ensures forall j | 0 <= j < |rows| && !Skipped(rows, j) :: rows[j].usable
    ensures forall i, j | 0 <= i < j < |rows| && !Skipped(rows, i) && !Skipped(rows, j) :: !SameAd(rows[i], rows[j])
    ensures forall j | 0 <= j < |rows| && rows[j].usable && Skipped(rows, j) ::
              exists i :: 0 <= i < j && !Skipped(rows, i) && SameAd(rows[i], rows[j])
  {
    forall j | 0 <= j < |rows| && rows[j].usable && Skipped(rows, j)
      ensures exists i :: 0 <= i < j && !Skipped(rows, i) && SameAd(rows[i], rows[j])
    {
      var i := FirstOfItsAd(rows, j);
      assert i != j;
    }
  }

  /** The rows passed over, as far as the first `n`. */
  function Passed(rows: seq<Record>, n: nat): set<nat>
    requires n <= |rows|
  {
    set j: nat | j < n && Skipped(rows, j)
  }

  lemma {:induction false} SkippedIsCardinality(rows: seq<Record>, n: nat)
    requires n <= |rows|
    ensures SkippedCount(rows, n) == |Passed(rows, n)|
  {
    hide Skipped;
    if n == 0 {
      assert Passed(rows, 0) == {};
    } else {
      SkippedIsCardinality(rows, n - 1);
      assert Passed(rows, n) == if Skipped(rows, n - 1) then Passed(rows, n - 1) + {n - 1} else Passed(rows, n - 1);
    }
  }

  /** The position of the lead a row is for: found, or about to be made. */
  function Seat(leads: seq<Lead>, r: Record): nat {
    match Resolve(leads, r)
    case Some(i) => i
    case None => |leads|
  }

  /** A found lead after its row: stamped, with whatever the row says laid over it. */
  predicate Touched(l: Lead, l': Lead, r: Record, now: int, batch: string) {
    && l'.touchedAt == now && l'.batch == batch && l'.progress == l.progress
    && l'.phone == (if r.phone != "" then r.phone else l.phone)
    && l'.metaId == (if l.metaId == "" then r.metaId else l.metaId)
    && l'.brief.Keys == l.brief.Keys + r.brief.Keys
    && forall f | f in l'.brief ::
         l'.brief[f] == if Field(r.brief, f) != "" then Field(r.brief, f) else Field(l.brief, f)
  }

  /** What one acting row leaves: the lead it is for, stamped with this import and carrying whatever
      the row says, or a new one at the first stage; no other lead changes. */
  lemma RowEffect(leads: seq<Lead>, r: Record, now: int, batch: string)
    ensures forall k | 0 <= k < |leads| && k != Seat(leads, r) ::
              k < |Upsert(leads, r, now, batch)| && Upsert(leads, r, now, batch)[k] == leads[k]
    ensures if Seat(leads, r) < |leads| then
              && |Upsert(leads, r, now, batch)| == |leads|
              && Touched(leads[Seat(leads, r)], Upsert(leads, r, now, batch)[Seat(leads, r)], r, now, batch)
            else
              Upsert(leads, r, now, batch) ==
              leads + [Lead(r.metaId, r.phone, r.brief, "stage 1, Active, Enquiry", now, batch)]
  {
  }

  lemma UpsertStamps(leads: seq<Lead>, r: Record, now: int, batch: string, k: nat)
    requires k < |Upsert(leads, r, now, batch)|
    ensures var l := Upsert(leads, r, now, batch)[k];
            if k == Seat(leads, r) then l.batch == batch && l.touchedAt == now else k < |leads| && l == leads[k]
  {
    hide Upsert;
    RowEffect(leads, r, now, batch);
  }

  lemma SeatWithin(leads: seq<Lead>, r: Record, now: int, batch: string)
    ensures |leads| <= |Upsert(leads, r, now, batch)| && Seat(leads, r) < |Upsert(leads, r, now, batch)|
  {
  }

  /** Some acting row among the first `n` was for lead `k`. */
  predicate Aimed(leads: seq<Lead>, rows: seq<Record>, n: nat, now: int, batch: string, k: nat)
    requires n <= |rows|
  {
    exists j :: 0 <= j < n && !Skipped(rows, j) && Target(leads, rows, j, now, batch) == k
  }

  lemma AimedStep(leads: seq<Lead>, rows: seq<Record>, n: nat, now: int, batch: string, k: nat)
    requires 0 < n <= |rows|
    ensures Aimed(leads, rows, n, now, batch, k) <==>
            || Aimed(leads, rows, n - 1, now, batch, k)
            || (!Skipped(rows, n - 1) && Target(leads, rows, n - 1, now, batch) == k)
  {
    hide Skipped, Target;
  }

  lemma {:induction false} NoneAimedBeyond(leads: seq<Lead>, rows: seq<Record>, n: nat, now: int, batch: string, k: nat)
    requires n <= |rows| && k >= |After(leads, rows, n, now, batch)|
    ensures !Aimed(leads, rows, n, now, batch, k)
  {
    if n > 0 {
      hide Skipped, Aimed, Upsert, Seat;
      SeatWithin(After(leads, rows, n - 1, now, batch), rows[n - 1], now, batch);
      NoneAimedBeyond(leads, rows, n - 1, now, batch, k);
      AimedStep(leads, rows, n, now, batch, k);
    }
  }

  /**
   * The stamps of an import tell its leads: with a batch id not used before, after any part of the
   * file a lead carries it exactly if some acting row was for that lead, and then its touch time
   * is the import's.
   */
  lemma {:induction false} StampsTell(leads: seq<Lead>, rows: seq<Record>, n: nat, now: int, batch: string, k: nat)
    requires n <= |rows| && k < |After(leads, rows, n, now, batch)|
    requires forall i | 0 <= i < |leads| :: leads[i].batch != batch
    ensures var l := After(leads, rows, n, now, batch)[k];
            && (l.batch == batch <==> Aimed(leads, rows, n, now, batch, k))
            && (l.batch == batch ==> l.touchedAt == now)
            && (l.batch != batch ==> k < |leads| && l == leads[k])
  {
    if n > 0 {
      hide Upsert, Skipped, Resolve, Aimed, Seat;
      var before := After(leads, rows, n - 1, now, batch);
      if k < |before| {
        StampsTell(leads, rows, n - 1, now, batch, k);
      } else {
        NoneAimedBeyond(leads, rows, n - 1, now, batch, k);
      }
      AimedStep(leads, rows, n, now, batch, k);
      if !Skipped(rows, n - 1) { UpsertStamps(before, rows[n - 1], now, batch, k); }
    }
  }

  // ------------------------------------------------------------------ the store's shape

  /** Meta ids and non-empty phones identify at most one lead. */
  predicate Distinct(leads: seq<Lead>) {
    forall i, j | 0 <= i < j < |leads| ::
      && (leads[i].metaId != "" ==> leads[i].metaId != leads[j].metaId)
      && (leads[i].phone != "" ==> leads[i].phone != leads[j].phone)
  }

  /** No row would overwrite the phone of the lead its Meta id already names. */
  predicate NoRewrite(leads: seq<Lead>, rows: seq<Record>) {
    forall i, k | 0 <= i < |rows| && 0 <= k < |leads| ::
      rows[i].metaId != "" && rows[i].phone != "" && leads[k].metaId == rows[i].metaId ==>
        leads[k].phone == rows[i].phone
  }

  predicate Keyed(r: Record) {
    r.metaId != "" || r.phone != ""
  }

  /** `r` leads to `leads[t]` now and after any further rows with other Meta ids. */
  predicate Anchored(leads: seq<Lead>, r: Record, t: nat) {
    && t < |leads|
    && if r.metaId != "" && leads[t].metaId == r.metaId then r.phone == "" || leads[t].phone == r.phone
       else
         && r.phone != "" && leads[t].phone == r.phone
         && (r.metaId != "" ==> leads[t].metaId != "" && forall k | 0 <= k < |leads| :: leads[k].metaId != r.metaId)
  }

  lemma AnchoredResolves(leads: seq<Lead>, r: Record, t: nat)
    requires Distinct(leads) && Anchored(leads, r, t)
    ensures Resolve(leads, r) == Some(t)
  {
  }

  /** What resolving and upserting one record keeps, and where the record ends up. */
  lemma UpsertAnchors(leads: seq<Lead>, r: Record, now: int, batch: string)
    requires Distinct(leads) && NoRewrite(leads, [r])
    ensures Distinct(Upsert(leads, r, now, batch))
    ensures Keyed(r) ==>
              Anchored(Upsert(leads, r, now, batch), r,
                       if Resolve(leads, r).Some? then Resolve(leads, r).value else |leads|)
    ensures |leads| <= |Upsert(leads, r, now, batch)|
  {
    assert [r][0] == r;
  }

  /** Keys of the leads already there: a phone never changes, a Meta id only fills a gap. */
  lemma UpsertKeeps(leads: seq<Lead>, r: Record, now: int, batch: string, k: nat)
    requires Distinct(leads) && NoRewrite(leads, [r]) && k < |leads|
    ensures var l' := Upsert(leads, r, now, batch)[k];
            && l'.phone == leads[k].phone
            && (l'.metaId == leads[k].metaId || (leads[k].metaId == "" && l'.metaId == r.metaId))
  {
    assert [r][0] == r;
  }

  /** An anchored record stays anchored while records with other Meta ids come in. */
  lemma AnchorSurvives(leads: seq<Lead>, r: Record, t: nat, other: Record, now: int, batch: string)
    requires Distinct(leads) && NoRewrite(leads, [other]) && Anchored(leads, r, t)
    requires r.metaId != "" ==> other.metaId != r.metaId
    ensures Anchored(Upsert(leads, other, now, batch), r, t)
  {
    UpsertKeeps(leads, other, now, batch, t);
    var after := Upsert(leads, other, now, batch);
    forall k | 0 <= k < |after| && r.metaId != "" && leads[t].metaId != r.metaId
      ensures after[k].metaId != r.metaId
    {
      if k < |leads| { UpsertKeeps(leads, other, now, batch, k); }
    }
  }

  // --------------------------------------------------------------------- the first pass

  predicate ConflictFree(l: Lead, r: Record) {
    r.metaId != "" && r.phone != "" && l.metaId == r.metaId ==> l.phone == r.phone
  }

  /** Where row `j` of the file ends up. */
  function Target(leads: seq<Lead>, rows: seq<Record>, j: nat, now: int, batch: string): nat
    requires j < |rows|
  {
    Seat(After(leads, rows, j, now, batch), rows[j])
  }

  /** A row the import acts on and can find again. */
  predicate Live(rows: seq<Record>, j: nat)
    requires j < |rows|
  {
    !Skipped(rows, j) && Keyed(rows[j])
  }

  ghost predicate FirstPassOk(leads: seq<Lead>, rows: seq<Record>, n: nat, now: int, batch: string)
    requires n <= |rows|
  {
    var table := After(leads, rows, n, now, batch);
    && Distinct(table) && |leads| <= |table|
    && (forall k | 0 <= k < |leads| :: table[k].phone == leads[k].phone)
    && (forall j, k | n <= j < |rows| && !Skipped(rows, j) && 0 <= k < |table| :: ConflictFree(table[k], rows[j]))
    && forall j | 0 <= j < n && Live(rows, j) :: Anchored(table, rows[j], Target(leads, rows, j, now, batch))
  }

  lemma StepConflictFree(before: seq<Lead>, rows: seq<Record>, i: nat, now: int, batch: string)
    requires i < |rows| && !Skipped(rows, i) && Distinct(before) && NoRewrite(before, [rows[i]])
    requires forall j, k | i < j < |rows| && !Skipped(rows, j) && 0 <= k < |before| :: ConflictFree(before[k], rows[j])
    ensures var after := Upsert(before, rows[i], now, batch);
            forall j, k | i < j < |rows| && !Skipped(rows, j) && 0 <= k < |after| :: ConflictFree(after[k], rows[j])
  {
    var after := Upsert(before, rows[i], now, batch);
    forall j, k | i < j < |rows| && !Skipped(rows, j) && 0 <= k < |after|
      ensures ConflictFree(after[k], rows[j])
    {
      if k < |before| {
        assert ConflictFree(before[k], rows[j]);
        UpsertKeeps(before, rows[i], now, batch, k);
      }
    }
  }

  lemma {:induction false} FirstPass(leads: seq<Lead>, rows: seq<Record>, n: nat, now: int, batch: string)
    requires Distinct(leads) && NoRewrite(leads, rows) && n <= |rows|
    ensures FirstPassOk(leads, rows, n, now, batch)
  {
    hide FirstPassOk, Distinct, NoRewrite;
    if n > 0 {
      FirstPass(leads, rows, n - 1, now, batch);
      FirstPassStep(leads, rows, n - 1, now, batch);
    } else {
      FirstPassStart(leads, rows, now, batch);
    }
  }

  lemma FirstPassStart(leads: seq<Lead>, rows: seq<Record>, now: int, batch: string)
    requires Distinct(leads) && NoRewrite(leads, rows)
    ensures FirstPassOk(leads, rows, 0, now, batch)
  {
    hide Skipped, Anchored;
    forall j, k | 0 <= j < |rows| && 0 <= k < |leads|
      ensures ConflictFree(leads[k], rows[j])
    {
    }
  }

  lemma FirstPassStep(leads: seq<Lead>, rows: seq<Record>, i: nat, now: int, batch: string)
    requires i < |rows| && FirstPassOk(leads, rows, i, now, batch)
    ensures FirstPassOk(leads, rows, i + 1, now, batch)
  {
    hide Upsert, Resolve, Skipped, Anchored;
    var before := After(leads, rows, i, now, batch);
    if !Skipped(rows, i) {
      var after := Upsert(before, rows[i], now, batch);
      assert NoRewrite(before, [rows[i]]) by {
        assert forall k | 0 <= k < |before| :: ConflictFree(before[k], rows[i]);
      }
      UpsertAnchors(before, rows[i], now, batch);
      StepConflictFree(before, rows, i, now, batch);
      forall k | 0 <= k < |leads|
        ensures after[k].phone == leads[k].phone
      {
        UpsertKeeps(before, rows[i], now, batch, k);
      }
      forall j | 0 <= j < i + 1 && Live(rows, j)
        ensures Anchored(after, rows[j], Target(leads, rows, j, now, batch))
      {
        if j < i {
          OtherIds(rows, j, i);
          AnchorSurvives(before, rows[j], Target(leads, rows, j, now, batch), rows[i], now, batch);
        }
      }
    }
  }

  lemma OtherIds(rows: seq<Record>, j: nat, i: nat)
    requires j < i < |rows| && !Skipped(rows, j) && !Skipped(rows, i)
    ensures rows[j].metaId != "" ==> rows[i].metaId != rows[j].metaId
  {
  }

  /** The last value the first `n` rows gave to a field of lead `t`, "" if none did. */
  function LastField(leads: seq<Lead>, rows: seq<Record>, n: nat, t: nat, f: string, now: int, batch: string): string
    requires n <= |rows|
  {
    if n == 0 then ""
    else if Live(rows, n - 1) && Target(leads, rows, n - 1, now, batch) == t && Field(rows[n - 1].brief, f) != "" then
      Field(rows[n - 1].brief, f)
    else LastField(leads, rows, n - 1, t, f, now, batch)
  }

  lemma SeatIs(leads: seq<Lead>, r: Record, t: nat)
    requires t < |leads|
    ensures Seat(leads, r) == t <==> Resolve(leads, r) == Some(t)
  {
  }

  lemma {:induction false} FirstPassFields(leads: seq<Lead>, rows: seq<Record>, n: nat, t: nat, f: string, now: int,
                                           batch: string)
    requires n <= |rows|
    ensures var table := After(leads, rows, n, now, batch);
            var last := LastField(leads, rows, n, t, f, now, batch);
            last != "" ==> t < |table| && Field(table[t].brief, f) == last
  {
    if n > 0 {
      hide Upsert, Skipped, Seat, Field, Resolve;
      FirstPassFields(leads, rows, n - 1, t, f, now, batch);
      var before := After(leads, rows, n - 1, now, batch);
      SeatWithin(before, rows[n - 1], now, batch);
      if t < |before| {
        UpsertField(before, rows[n - 1], t, f, now, batch);
        SeatIs(before, rows[n - 1], t);
      } else if t == Seat(before, rows[n - 1]) {
        RowEffect(before, rows[n - 1], now, batch);
      }
    }
  }

  // -------------------------------------------------------------------- the second pass

  /** `after` has the keys of `before`, and beyond it only leads nobody can match. */
  predicate SameKeys(before: seq<Lead>, after: seq<Lead>) {
    && |before| <= |after|
    && (forall k | 0 <= k < |before| :: after[k].metaId == before[k].metaId && after[k].phone == before[k].phone)
    && forall k | |before| <= k < |after| :: after[k].metaId == "" && after[k].phone == ""
  }

  lemma AnchorSameKeys(before: seq<Lead>, after: seq<Lead>, r: Record, t: nat)
    requires SameKeys(before, after) && Distinct(before) && Anchored(before, r, t)
    ensures Distinct(after) && Anchored(after, r, t) && Resolve(after, r) == Some(t)
  {
    AnchoredResolves(after, r, t);
  }

  lemma UnkeyedCreates(leads: seq<Lead>, r: Record)
    requires !Keyed(r)
    ensures Resolve(leads, r) == None
  {
  }

  /** Rows neither skipped nor findable again. */
  function UnkeyedCount(rows: seq<Record>, n: nat): nat
    requires n <= |rows|
  {
    if n == 0 then 0
    else UnkeyedCount(rows, n - 1) + if !Skipped(rows, n - 1) && !Keyed(rows[n - 1]) then 1 else 0
  }

  lemma SameKeysUpsert(before: seq<Lead>, after: seq<Lead>, r: Record, t: nat, now: int, batch: string)
    requires SameKeys(before, after) && Distinct(before) && Anchored(before, r, t)
    ensures SameKeys(before, Upsert(after, r, now, batch)) && |Upsert(after, r, now, batch)| == |after|
    ensures Resolve(after, r) == Some(t)
  {
    AnchorSameKeys(before, after, r, t);
  }

  lemma {:induction false} SecondPassKeys(leads: seq<Lead>, rows: seq<Record>, n: nat,
                                          now: int, batch: string, now': int, batch': string)
    requires n <= |rows| && FirstPassOk(leads, rows, |rows|, now, batch)
    ensures var first := After(leads, rows, |rows|, now, batch);
            var second := After(first, rows, n, now', batch');
            && SameKeys(first, second)
            && |second| == |first| + UnkeyedCount(rows, n)
            && CreatedCount(first, rows, n, now', batch') == UnkeyedCount(rows, n)
  {
    if n > 0 {
      var i := n - 1;
      SecondPassKeys(leads, rows, i, now, batch, now', batch');
      SecondKeysStep(After(leads, rows, |rows|, now, batch), rows, i, Target(leads, rows, i, now, batch), now', batch');
    }
  }

  lemma SecondKeysStep(first: seq<Lead>, rows: seq<Record>, i: nat, t: nat, now: int, batch: string)
    requires i < |rows| && Distinct(first) && SameKeys(first, After(first, rows, i, now, batch))
    requires Live(rows, i) ==> Anchored(first, rows[i], t)
    ensures var second, second' := After(first, rows, i, now, batch), After(first, rows, i + 1, now, batch);
            var more := if !Skipped(rows, i) && !Keyed(rows[i]) then 1 else 0;
            && SameKeys(first, second') && |second'| == |second| + more
            && CreatedCount(first, rows, i + 1, now, batch) == CreatedCount(first, rows, i, now, batch) + more
  {
    var second := After(first, rows, i, now, batch);
    if Live(rows, i) {
      SameKeysUpsert(first, second, rows[i], t, now, batch);
    } else if !Skipped(rows, i) {
      UnkeyedCreates(second, rows[i]);
    }
  }

  lemma SecondPassTarget(leads: seq<Lead>, rows: seq<Record>, j: nat,
                         now: int, batch: string, now': int, batch': string)
    requires j < |rows| && FirstPassOk(leads, rows, |rows|, now, batch) && Live(rows, j)
    ensures var first := After(leads, rows, |rows|, now, batch);
            && Target(first, rows, j, now', batch') == Target(leads, rows, j, now, batch) < |first|
            && Resolve(After(first, rows, j, now', batch'), rows[j]) == Some(Target(leads, rows, j, now, batch))
  {
    var first := After(leads, rows, |rows|, now, batch);
    SecondPassKeys(leads, rows, j, now, batch, now', batch');
    AnchorSameKeys(first, After(first, rows, j, now', batch'), rows[j], Target(leads, rows, j, now, batch));
  }

  lemma {:induction false} SecondPassFields(leads: seq<Lead>, rows: seq<Record>, n: nat, k: nat, f: string,
                                            now: int, batch: string, now': int, batch': string)
    requires n <= |rows| && FirstPassOk(leads, rows, |rows|, now, batch)
    requires k < |After(leads, rows, |rows|, now, batch)|
    ensures var first := After(leads, rows, |rows|, now, batch);
            var second := After(first, rows, n, now', batch');
            var last := LastField(leads, rows, n, k, f, now, batch);
            && k < |second| && second[k].progress == first[k].progress
            && Field(second[k].brief, f) == if last != "" then last else Field(first[k].brief, f)
  {
    hide FirstPassOk, Upsert, Live, Target, Skipped;
    if n > 0 {
      SecondPassFields(leads, rows, n - 1, k, f, now, batch, now', batch');
      SecondFieldStep(leads, rows, n - 1, k, f, now, batch, now', batch');
    }
  }

  lemma SecondFieldStep(leads: seq<Lead>, rows: seq<Record>, i: nat, k: nat, f: string,
                        now: int, batch: string, now': int, batch': string)
    requires i < |rows| && FirstPassOk(leads, rows, |rows|, now, batch)
    requires k < |After(After(leads, rows, |rows|, now, batch), rows, i, now', batch')|
    ensures var first := After(leads, rows, |rows|, now, batch);
            var before, after := After(first, rows, i, now', batch'), After(first, rows, i + 1, now', batch');
            && k < |after| && after[k].progress == before[k].progress
            && Field(after[k].brief, f) ==
               if Live(rows, i) && Target(leads, rows, i, now, batch) == k && Field(rows[i].brief, f) != ""
               then Field(rows[i].brief, f) else Field(before[k].brief, f)
  {
    hide Resolve, Skipped, Anchored, Updated, Created;
    var second := After(After(leads, rows, |rows|, now, batch), rows, i, now', batch');
    if Live(rows, i) {
      SecondPassTarget(leads, rows, i, now, batch, now', batch');
      UpsertField(second, rows[i], k, f, now', batch');
    } else if !Skipped(rows, i) {
      UnkeyedCreates(second, rows[i]);
    }
  }

  lemma UpsertField(leads: seq<Lead>, r: Record, k: nat, f: string, now: int, batch: string)
    requires k < |leads|
    ensures var l' := Upsert(leads, r, now, batch)[k];
            && l'.progress == leads[k].progress
            && Field(l'.brief, f) == if Resolve(leads, r) == Some(k) && Field(r.brief, f) != "" then Field(r.brief, f)
                                     else Field(leads[k].brief, f)
  {
  }

  /** Equal in everything an import keeps: only the touch time and batch may differ. */
  ghost predicate SameLead(a: Lead, b: Lead) {
    a.metaId == b.metaId && a.phone == b.phone && a.progress == b.progress &&
    forall f :: Field(a.brief, f) == Field(b.brief, f)
  }

  /**
   * Re-import: on any store with distinct keys and no row that would rewrite a phone, the
   * second upload of a file sends every findable row to the same lead, leaves every lead as
   * it was, and creates exactly one lead per usable row that has neither key; so it creates
   * none exactly when every usable row has a Meta id or a phone.
   */
  lemma ReimportIsIdempotent(leads: seq<Lead>, rows: seq<Record>, now: int, batch: string, now': int, batch': string)
    requires Distinct(leads) && NoRewrite(leads, rows)
    ensures var first := After(leads, rows, |rows|, now, batch);
            var second := After(first, rows, |rows|, now', batch');
            && CreatedCount(first, rows, |rows|, now', batch') == UnkeyedCount(rows, |rows|)
            && |second| == |first| + UnkeyedCount(rows, |rows|)
            && (forall k | 0 <= k < |first| :: SameLead(second[k], first[k]))
            && (forall j | 0 <= j < |rows| && Live(rows, j) ::
                  Target(first, rows, j, now', batch') == Target(leads, rows, j, now, batch) < |first|)
    ensures CreatedCount(After(leads, rows, |rows|, now, batch), rows, |rows|, now', batch') == 0 <==>
            forall j | 0 <= j < |rows| && !Skipped(rows, j) :: Keyed(rows[j])
  {
    FirstPass(leads, rows, |rows|, now, batch);
    SecondPassKeys(leads, rows, |rows|, now, batch, now', batch');
    var first := After(leads, rows, |rows|, now, batch);
    var second := After(first, rows, |rows|, now', batch');
    forall k | 0 <= k < |first|
      ensures SameLead(second[k], first[k])
    {
      SecondPassFields(leads, rows, |rows|, k, "", now, batch, now', batch');
      forall f
        ensures Field(second[k].brief, f) == Field(first[k].brief, f)
      {
        FirstPassFields(leads, rows, |rows|, k, f, now, batch);
        SecondPassFields(leads, rows, |rows|, k, f, now, batch, now', batch');
      }
    }
    forall j | 0 <= j < |rows| && Live(rows, j)
      ensures Target(first, rows, j, now', batch') == Target(leads, rows, j, now, batch) < |first|
    {
      SecondPassTarget(leads, rows, j, now, batch, now', batch');
    }
    NoneUnkeyed(rows, |rows|);
  }

  lemma {:induction false} NoneUnkeyed(rows: seq<Record>, n: nat)
    requires n <= |rows|
    ensures UnkeyedCount(rows, n) == 0 <==> forall j | 0 <= j < n && !Skipped(rows, j) :: Keyed(rows[j])
  {
    if n > 0 { NoneUnkeyed(rows, n - 1); }
  }

  // ----------------------------------------------------- exactly when duplicates appear

  predicate HasMeta(leads: seq<Lead>, m: string) {
    m != "" && exists k :: 0 <= k < |leads| && leads[k].metaId == m
  }

  predicate HasPhone(leads: seq<Lead>, p: string) {
    p != "" && exists k :: 0 <= k < |leads| && leads[k].phone == p
  }

  /** One of the first `n` rows, not skipped, carries this Meta id. */
  predicate Named(rows: seq<Record>, n: nat, m: string)
    requires n <= |rows|
  {
    exists j :: 0 <= j < n && !Skipped(rows, j) && rows[j].metaId == m
  }

  predicate Carried(rows: seq<Record>, n: nat, p: string)
    requires n <= |rows|
  {
    exists j :: 0 <= j < n && !Skipped(rows, j) && rows[j].phone == p
  }

  /** A row carries the phone, and its Meta id names a lead of the store. */
  predicate CarriedByStored(leads: seq<Lead>, rows: seq<Record>, n: nat, p: string)
    requires n <= |rows|
  {
    exists j :: 0 <= j < n && !Skipped(rows, j) && rows[j].phone == p && HasMeta(leads, rows[j].metaId)
  }

  /** Row `x` names stored lead `t` by its Meta id and gives it another phone. */
  predicate Renames(leads: seq<Lead>, rows: seq<Record>, t: nat, x: nat) {
    && t < |leads| && leads[t].metaId != "" && leads[t].phone != ""
    && x < |rows| && !Skipped(rows, x) && rows[x].metaId == leads[t].metaId
    && rows[x].phone != "" && rows[x].phone != leads[t].phone
  }

  /** Among the first `n` rows `x` renames lead `t`, and whatever carries the lead's old phone
      comes before `x` and has no Meta id of the store. */
  predicate Overwrites(leads: seq<Lead>, rows: seq<Record>, n: nat, t: nat, x: nat)
    requires n <= |rows|
  {
    && x < n && Renames(leads, rows, t, x)
    && forall j | 0 <= j < n && !Skipped(rows, j) && rows[j].phone == leads[t].phone ::
         j < x && !HasMeta(leads, rows[j].metaId)
  }

  predicate Gone(leads: seq<Lead>, rows: seq<Record>, n: nat, p: string)
    requires n <= |rows|
  {
    exists t, x | 0 <= t < |leads| && 0 <= x < n :: Overwrites(leads, rows, n, t, x) && leads[t].phone == p
  }

  /** The file overwrites the phone by which another of its rows will look for this lead. */
  predicate LosesPhone(leads: seq<Lead>, rows: seq<Record>, t: nat) {
    && t < |leads| && Carried(rows, |rows|, leads[t].phone)
    && exists x | 0 <= x < |rows| :: Overwrites(leads, rows, |rows|, t, x)
  }

  /** The phones so lost, as far as the first `n` rows carry them. */
  function LostPhones(leads: seq<Lead>, rows: seq<Record>, n: nat): set<string>
    requires n <= |rows|
  {
    if n == 0 then {}
    else if !Skipped(rows, n - 1) && Gone(leads, rows, |rows|, rows[n - 1].phone) then
      LostPhones(leads, rows, n - 1) + {rows[n - 1].phone}
    else LostPhones(leads, rows, n - 1)
  }

  predicate OtherHas(table: seq<Lead>, t: nat, p: string) {
    exists k :: 0 <= k < |table| && k != t && table[k].phone == p
  }

  predicate MetaDistinct(table: seq<Lead>) {
    forall i, j | 0 <= i < j < |table| :: table[i].metaId != "" ==> table[i].metaId != table[j].metaId
  }

  /** Stored leads keep their Meta id, and their phone until a row names them. */
  predicate KeepsStored(leads: seq<Lead>, rows: seq<Record>, n: nat, table: seq<Lead>)
    requires n <= |rows|
  {
    && |leads| <= |table|
    && forall i | 0 <= i < |leads| ::
         && (leads[i].metaId != "" ==> table[i].metaId == leads[i].metaId)
         && (leads[i].metaId == "" || !Named(rows, n, leads[i].metaId) ==> table[i].phone == leads[i].phone)
  }

  /** Where Meta ids come from, and what the rows that carried them left behind. */
  predicate MetasOk(leads: seq<Lead>, rows: seq<Record>, n: nat, table: seq<Lead>)
    requires n <= |rows|
  {
    && MetaDistinct(table)
    && (forall k | 0 <= k < |table| && table[k].metaId != "" ::
          HasMeta(leads, table[k].metaId) || Named(rows, n, table[k].metaId))
    && (forall j, k | 0 <= j < n && !Skipped(rows, j) && 0 <= k < |table| :: ConflictFree(table[k], rows[j]))
    && forall j | 0 <= j < n && !Skipped(rows, j) && rows[j].metaId != "" && rows[j].phone == "" ::
         HasMeta(table, rows[j].metaId)
  }

  /** Which phones the table holds. */
  ghost predicate PhonesOk(leads: seq<Lead>, rows: seq<Record>, n: nat, table: seq<Lead>)
    requires n <= |rows|
  {
    forall p | p != "" ::
      HasPhone(table, p) <==> (HasPhone(leads, p) || Carried(rows, n, p)) && !Gone(leads, rows, n, p)
  }

  /** While no row has named a stored lead, its phone stands elsewhere only through a row that
      names another stored lead. */
  ghost predicate SharesOk(leads: seq<Lead>, rows: seq<Record>, n: nat, table: seq<Lead>)
    requires n <= |rows|
  {
    forall t: nat | t < |leads| && leads[t].metaId != "" && leads[t].phone != "" && !Named(rows, n, leads[t].metaId) ::
      OtherHas(table, t, leads[t].phone) <==> CarriedByStored(leads, rows, n, leads[t].phone)
  }

  ghost predicate FirstTable(leads: seq<Lead>, rows: seq<Record>, n: nat, table: seq<Lead>)
    requires n <= |rows|
  {
    && KeepsStored(leads, rows, n, table) && MetasOk(leads, rows, n, table)
    && PhonesOk(leads, rows, n, table) && SharesOk(leads, rows, n, table)
  }

  lemma NamedOnce(rows: seq<Record>, i: nat)
    requires i < |rows| && !Skipped(rows, i) && rows[i].metaId != ""
    ensures !Named(rows, i, rows[i].metaId)
  {
  }

  /** The Meta match of the first pass is the stored lead of that id, its phone untouched so far. */
  lemma FoundIsStored(leads: seq<Lead>, rows: seq<Record>, i: nat, table: seq<Lead>)
    requires i < |rows| && !Skipped(rows, i) && rows[i].metaId != "" && Distinct(leads)
    requires KeepsStored(leads, rows, i, table) && MetasOk(leads, rows, i, table)
    ensures match FindMeta(table, rows[i].metaId)
            case Some(k) => k < |leads| && leads[k].metaId == rows[i].metaId && table[k].phone == leads[k].phone
            case None => !HasMeta(leads, rows[i].metaId)
  {
    NamedOnce(rows, i);
    match FindMeta(table, rows[i].metaId)
    case Some(k) =>
      var t :| 0 <= t < |leads| && leads[t].metaId == rows[i].metaId;
      assert t == k;
    case None =>
  }

  lemma CarriedStep(leads: seq<Lead>, rows: seq<Record>, i: nat, p: string)
    requires i < |rows|
    ensures Carried(rows, i + 1, p) <==> Carried(rows, i, p) || (!Skipped(rows, i) && rows[i].phone == p)
    ensures CarriedByStored(leads, rows, i + 1, p) <==>
            CarriedByStored(leads, rows, i, p) ||
            (!Skipped(rows, i) && rows[i].phone == p && HasMeta(leads, rows[i].metaId))
  {
  }

  lemma NamedStep(rows: seq<Record>, i: nat, m: string)
    requires i < |rows|
    ensures Named(rows, i + 1, m) <==> Named(rows, i, m) || (!Skipped(rows, i) && rows[i].metaId == m)
  {
  }

  /** A phone is gone once its lead is renamed, until a row carries it again. */
  lemma GoneStep(leads: seq<Lead>, rows: seq<Record>, i: nat, p: string)
    requires i < |rows| && !Skipped(rows, i)
    ensures Gone(leads, rows, i + 1, p) <==>
            rows[i].phone != p &&
            (Gone(leads, rows, i, p) ||
             ((exists t: nat :: Renames(leads, rows, t, i) && leads[t].phone == p) &&
              !CarriedByStored(leads, rows, i, p)))
  {
    if Gone(leads, rows, i + 1, p) {
      var t, x :| 0 <= t < |leads| && 0 <= x < i + 1 && Overwrites(leads, rows, i + 1, t, x) && leads[t].phone == p;
      assert Renames(leads, rows, t, x);
      if x < i { assert Overwrites(leads, rows, i, t, x); }
    }
    if rows[i].phone != p {
      if t, x :| 0 <= t < |leads| && 0 <= x < i && Overwrites(leads, rows, i, t, x) && leads[t].phone == p {
        assert Overwrites(leads, rows, i + 1, t, x);
      }
      if t: nat :| Renames(leads, rows, t, i) && leads[t].phone == p && !CarriedByStored(leads, rows, i, p) {
        assert Overwrites(leads, rows, i + 1, t, i);
      }
    }
  }

  lemma SkippedStep(leads: seq<Lead>, rows: seq<Record>, i: nat, table: seq<Lead>)
    requires i < |rows| && Skipped(rows, i) && FirstTable(leads, rows, i, table)
    ensures FirstTable(leads, rows, i + 1, table)
  {
    forall m
      ensures Named(rows, i + 1, m) == Named(rows, i, m)
    {
      NamedStep(rows, i, m);
    }
    forall p
      ensures Carried(rows, i + 1, p) == Carried(rows, i, p)
      ensures CarriedByStored(leads, rows, i + 1, p) == CarriedByStored(leads, rows, i, p)
      ensures Gone(leads, rows, i + 1, p) == Gone(leads, rows, i, p)
    {
      CarriedStep(leads, rows, i, p);
      GoneSkip(leads, rows, i, p);
    }
  }

  lemma GoneSkip(leads: seq<Lead>, rows: seq<Record>, i: nat, p: string)
    requires i < |rows| && Skipped(rows, i)
    ensures Gone(leads, rows, i + 1, p) == Gone(leads, rows, i, p)
  {
    if Gone(leads, rows, i + 1, p) {
      var t, x :| 0 <= t < |leads| && 0 <= x < i + 1 && Overwrites(leads, rows, i + 1, t, x) && leads[t].phone == p;
      assert Renames(leads, rows, t, x) && x < i;
      assert Overwrites(leads, rows, i, t, x);
    }
    if t, x :| 0 <= t < |leads| && 0 <= x < i && Overwrites(leads, rows, i, t, x) && leads[t].phone == p {
      assert Overwrites(leads, rows, i + 1, t, x);
    }
  }

  /** What one row does to the keys of the leads. */
  lemma UpsertKeys(table: seq<Lead>, r: Record, now: int, batch: string)
    ensures var table' := Upsert(table, r, now, batch);
            && |table| <= |table'| <= |table| + 1
            && (forall k | 0 <= k < |table| ::
                  && (table'[k].metaId == table[k].metaId ||
                      (table[k].metaId == "" && table'[k].metaId == r.metaId && !HasMeta(table, r.metaId)
                       && Resolve(table, r) == Some(k)))
                  && (table'[k].phone == table[k].phone ||
                      (table[k].metaId == r.metaId != "" && table'[k].phone == r.phone)))
            && (|table'| > |table| ==>
                  && Resolve(table, r) == None && !HasMeta(table, r.metaId)
                  && table'[|table|].metaId == r.metaId && table'[|table|].phone == r.phone)
  {
  }

  /** Where the row's own Meta id ends up. */
  lemma UpsertOwn(table: seq<Lead>, r: Record, now: int, batch: string)
    requires MetaDistinct(table) && r.metaId != ""
    ensures var table' := Upsert(table, r, now, batch);
            && (forall k | 0 <= k < |table'| && r.phone != "" && table'[k].metaId == r.metaId ::
                  table'[k].phone == r.phone)
            && (r.phone == "" ==> HasMeta(table', r.metaId))
  {
    var table' := Upsert(table, r, now, batch);
    if r.phone == "" {
      var k := if Resolve(table, r).Some? then Resolve(table, r).value else |table|;
      assert table'[k].metaId == r.metaId;
    }
  }

  lemma StoredStep(leads: seq<Lead>, rows: seq<Record>, i: nat, table: seq<Lead>, now: int, batch: string)
    requires i < |rows| && !Skipped(rows, i) && Distinct(leads)
    requires KeepsStored(leads, rows, i, table) && MetasOk(leads, rows, i, table)
    ensures KeepsStored(leads, rows, i + 1, Upsert(table, rows[i], now, batch))
  {
    UpsertKeys(table, rows[i], now, batch);
    if rows[i].metaId != "" { NamedOnce(rows, i); }
    forall m
      ensures Named(rows, i + 1, m) <==> Named(rows, i, m) || rows[i].metaId == m
    {
      NamedStep(rows, i, m);
    }
  }

  lemma MetasStep(leads: seq<Lead>, rows: seq<Record>, i: nat, table: seq<Lead>, now: int, batch: string)
    requires i < |rows| && !Skipped(rows, i) && MetasOk(leads, rows, i, table)
    ensures MetasOk(leads, rows, i + 1, Upsert(table, rows[i], now, batch))
  {
    hide Upsert, Skipped;
    var r, table' := rows[i], Upsert(table, rows[i], now, batch);
    UpsertKeys(table, r, now, batch);
    if r.metaId != "" {
      NamedOnce(rows, i);
      UpsertOwn(table, r, now, batch);
    }
    forall k | 0 <= k < |table'| && table'[k].metaId != ""
      ensures HasMeta(leads, table'[k].metaId) || Named(rows, i + 1, table'[k].metaId)
    {
      NamedStep(rows, i, table'[k].metaId);
    }
    OldConflictFree(rows, i, table, table');
    forall m | HasMeta(table, m)
      ensures HasMeta(table', m)
    {
      var k :| 0 <= k < |table| && table[k].metaId == m;
      assert table'[k].metaId == m;
    }
  }

  lemma OldConflictFree(rows: seq<Record>, i: nat, table: seq<Lead>, table': seq<Lead>)
    requires i < |rows| && !Skipped(rows, i) && |table| <= |table'| <= |table| + 1
    requires forall j, k | 0 <= j < i && !Skipped(rows, j) && 0 <= k < |table| :: ConflictFree(table[k], rows[j])
    requires forall k | 0 <= k < |table| ::
               && (table'[k].metaId == table[k].metaId || table'[k].metaId == rows[i].metaId)
               && (table'[k].phone == table[k].phone || table[k].metaId == rows[i].metaId != "")
    requires |table'| > |table| ==> table'[|table|].metaId == rows[i].metaId
    ensures forall j, k | 0 <= j < i && !Skipped(rows, j) && 0 <= k < |table'| :: ConflictFree(table'[k], rows[j])
  {
    forall j, k | 0 <= j < i && !Skipped(rows, j) && 0 <= k < |table'|
      ensures ConflictFree(table'[k], rows[j])
    {
      if rows[i].metaId != "" { NamedOnce(rows, i); }
      if k < |table| { assert ConflictFree(table[k], rows[j]); }
    }
  }

  /** The lead a row finds by phone alone, or makes: no phone is lost. */
  lemma UpsertPhones(table: seq<Lead>, r: Record, now: int, batch: string, p: string)
    requires p != ""
    ensures var table' := Upsert(table, r, now, batch);
            var named := if r.metaId != "" then FindMeta(table, r.metaId) else None;
            HasPhone(table', p) <==>
            r.phone == p || if named.Some? && r.phone != "" then OtherHas(table, named.value, p) else HasPhone(table, p)
  {
    var table' := Upsert(table, r, now, batch);
    if Resolve(table, r).Some? {
      var i := Resolve(table, r).value;
      assert forall k | 0 <= k < |table| && k != i :: table'[k] == table[k];
      assert table'[i].phone == if r.phone != "" then r.phone else table[i].phone;
    } else {
      assert table'[|table|].phone == r.phone;
      assert forall k | 0 <= k < |table| :: table'[k] == table[k];
    }
  }

  lemma PhonesStep(leads: seq<Lead>, rows: seq<Record>, i: nat, table: seq<Lead>, now: int, batch: string, p: string)
    requires i < |rows| && !Skipped(rows, i) && Distinct(leads) && FirstTable(leads, rows, i, table) && p != ""
    ensures HasPhone(Upsert(table, rows[i], now, batch), p) <==>
            (HasPhone(leads, p) || Carried(rows, i + 1, p)) && !Gone(leads, rows, i + 1, p)
  {
    var r := rows[i];
    UpsertPhones(table, r, now, batch, p);
    CarriedStep(leads, rows, i, p);
    GoneStep(leads, rows, i, p);
    if r.metaId != "" {
      FoundIsStored(leads, rows, i, table);
      NamedOnce(rows, i);
      var named := FindMeta(table, r.metaId);
      if named.Some? && r.phone != "" && r.phone != p {
        RenamedPhones(leads, rows, i, table, named.value, p);
      }
    }
  }

  /** A Meta match replaces the found lead's phone: only that phone can go, and only if no row
      has put it on another stored lead. */
  lemma RenamedPhones(leads: seq<Lead>, rows: seq<Record>, i: nat, table: seq<Lead>, t: nat, p: string)
    requires i < |rows| && !Skipped(rows, i) && Distinct(leads) && FirstTable(leads, rows, i, table) && p != ""
    requires t < |leads| && rows[i].metaId == leads[t].metaId != "" && table[t].phone == leads[t].phone
    requires !Named(rows, i, leads[t].metaId) && rows[i].phone !in {"", p}
    ensures OtherHas(table, t, p) <==>
            (HasPhone(leads, p) || Carried(rows, i, p)) && !Gone(leads, rows, i, p) &&
            !((exists u: nat :: Renames(leads, rows, u, i) && leads[u].phone == p) &&
              !CarriedByStored(leads, rows, i, p))
  {
    assert forall u: nat | Renames(leads, rows, u, i) :: u == t;
    if p == leads[t].phone {
      assert Renames(leads, rows, t, i);
      assert HasPhone(leads, p);
      assert OtherHas(table, t, p) <==> CarriedByStored(leads, rows, i, p);
      if CarriedByStored(leads, rows, i, p) {
        assert !Gone(leads, rows, i, p);
      }
    } else {
      assert OtherHas(table, t, p) <==> HasPhone(table, p);
    }
  }

  lemma SharesStep(leads: seq<Lead>, rows: seq<Record>, i: nat, table: seq<Lead>, now: int, batch: string, t: nat)
    requires i < |rows| && !Skipped(rows, i) && Distinct(leads) && FirstTable(leads, rows, i, table)
    requires t < |leads| && leads[t].metaId != "" && leads[t].phone != "" && !Named(rows, i + 1, leads[t].metaId)
    ensures OtherHas(Upsert(table, rows[i], now, batch), t, leads[t].phone) <==>
            CarriedByStored(leads, rows, i + 1, leads[t].phone)
  {
    var r, p := rows[i], leads[t].phone;
    CarriedStep(leads, rows, i, p);
    NamedStep(rows, i, leads[t].metaId);
    assert table[t].phone == p;
    if HasMeta(table, r.metaId) {
      FoundIsStored(leads, rows, i, table);
      SharesNamed(leads, table, r, now, batch, t, FindMeta(table, r.metaId).value);
    } else {
      assert !HasMeta(leads, r.metaId);
      SharesUnnamed(table, r, now, batch, t, p);
    }
  }

  lemma SharesNamed(leads: seq<Lead>, table: seq<Lead>, r: Record, now: int, batch: string, t: nat, k: nat)
    requires Distinct(leads) && t < |leads| <= |table| && k < |leads| && k != t && leads[t].phone != ""
    requires r.metaId != "" && FindMeta(table, r.metaId) == Some(k) && table[k].phone == leads[k].phone
    ensures OtherHas(Upsert(table, r, now, batch), t, leads[t].phone) <==>
            OtherHas(table, t, leads[t].phone) || r.phone == leads[t].phone
  {
    var p, table' := leads[t].phone, Upsert(table, r, now, batch);
    assert table' == table[k := Updated(table[k], r, now, batch)];
    assert leads[k].phone != p;
    if r.phone == p {
      assert table'[k].phone == p;
    } else {
      assert forall j | 0 <= j < |table| :: table'[j].phone == p <==> table[j].phone == p;
    }
  }

  lemma SharesUnnamed(table: seq<Lead>, r: Record, now: int, batch: string, t: nat, p: string)
    requires t < |table| && p != "" && table[t].phone == p && !HasMeta(table, r.metaId)
    ensures OtherHas(Upsert(table, r, now, batch), t, p) <==> OtherHas(table, t, p)
  {
    var table' := Upsert(table, r, now, batch);
    UpsertKeys(table, r, now, batch);
    assert forall j | 0 <= j < |table| :: table'[j].phone == table[j].phone;
    assert |table'| > |table| ==> table'[|table|].phone != p;
  }

  lemma {:induction false} FirstPassTable(leads: seq<Lead>, rows: seq<Record>, n: nat, now: int, batch: string)
    requires n <= |rows| && Distinct(leads)
    ensures FirstTable(leads, rows, n, After(leads, rows, n, now, batch))
  {
    if n > 0 {
      var i := n - 1;
      FirstPassTable(leads, rows, i, now, batch);
      var table := After(leads, rows, i, now, batch);
      if Skipped(rows, i) {
        SkippedStep(leads, rows, i, table);
      } else {
        StoredStep(leads, rows, i, table, now, batch);
        MetasStep(leads, rows, i, table, now, batch);
        forall p | p != ""
          ensures HasPhone(Upsert(table, rows[i], now, batch), p) <==>
                  (HasPhone(leads, p) || Carried(rows, n, p)) && !Gone(leads, rows, n, p)
        {
          PhonesStep(leads, rows, i, table, now, batch, p);
        }
        forall t: nat | t < |leads| && leads[t].metaId != "" && leads[t].phone != "" && !Named(rows, n, leads[t].metaId)
          ensures OtherHas(Upsert(table, rows[i], now, batch), t, leads[t].phone) <==>
                  CarriedByStored(leads, rows, n, leads[t].phone)
        {
          SharesStep(leads, rows, i, table, now, batch, t);
        }
      }
    }
  }

  /** During the second pass phones only ever come in, and no later row's Meta id does. */
  ghost predicate SecondTable(first: seq<Lead>, rows: seq<Record>, n: nat, table: seq<Lead>)
    requires n <= |rows|
  {
    && (forall p | p != "" :: HasPhone(table, p) <==> HasPhone(first, p) || Carried(rows, n, p))
    && (forall j | n <= j < |rows| && !Skipped(rows, j) ::
          HasMeta(table, rows[j].metaId) == HasMeta(first, rows[j].metaId))
    && forall j, k | n <= j < |rows| && !Skipped(rows, j) && 0 <= k < |table| :: ConflictFree(table[k], rows[j])
  }

  lemma SecondStep(first: seq<Lead>, rows: seq<Record>, i: nat, table: seq<Lead>, now: int, batch: string)
    requires i < |rows| && SecondTable(first, rows, i, table)
    ensures SecondTable(first, rows, i + 1, if Skipped(rows, i) then table else Upsert(table, rows[i], now, batch))
  {
    forall p
      ensures Carried(rows, i + 1, p) <==> Carried(rows, i, p) || (!Skipped(rows, i) && rows[i].phone == p)
    {
      CarriedStep(first, rows, i, p);
    }
    if !Skipped(rows, i) {
      var r, table' := rows[i], Upsert(table, rows[i], now, batch);
      assert forall k | 0 <= k < |table| :: ConflictFree(table[k], r);
      UpsertKeys(table, r, now, batch);
      forall j | i < j < |rows| && !Skipped(rows, j)
        ensures rows[j].metaId != "" ==> rows[j].metaId != r.metaId
        ensures HasMeta(table', rows[j].metaId) == HasMeta(first, rows[j].metaId)
      {
        if rows[j].metaId != "" { NamedOnce(rows, j); }
        MetaKept(table, table', r, rows[j].metaId);
      }
      forall p | p != ""
        ensures HasPhone(table', p) <==> HasPhone(table, p) || r.phone == p
      {
        UpsertPhones(table, r, now, batch, p);
        PhonesKept(table, table', p);
      }
      StaysConflictFree(rows, i, table, table');
    }
  }

  lemma StaysConflictFree(rows: seq<Record>, i: nat, table: seq<Lead>, table': seq<Lead>)
    requires i < |rows| && !Skipped(rows, i) && |table| <= |table'| <= |table| + 1
    requires forall j, k | i <= j < |rows| && !Skipped(rows, j) && 0 <= k < |table| :: ConflictFree(table[k], rows[j])
    requires forall k | 0 <= k < |table| ::
               table'[k].phone == table[k].phone && table'[k].metaId in {table[k].metaId, rows[i].metaId}
    requires |table'| > |table| ==> table'[|table|].metaId == rows[i].metaId
    ensures forall j, k | i < j < |rows| && !Skipped(rows, j) && 0 <= k < |table'| :: ConflictFree(table'[k], rows[j])
  {
    forall j, k | i < j < |rows| && !Skipped(rows, j) && 0 <= k < |table'|
      ensures ConflictFree(table'[k], rows[j])
    {
      if rows[j].metaId != "" { NamedOnce(rows, j); }
      if k < |table| { assert ConflictFree(table[k], rows[j]); }
    }
  }

  lemma MetaKept(table: seq<Lead>, table': seq<Lead>, r: Record, m: string)
    requires |table| <= |table'| <= |table| + 1 && (m != "" ==> m != r.metaId)
    requires forall k | 0 <= k < |table| ::
               table'[k].metaId == table[k].metaId || (table[k].metaId == "" && table'[k].metaId == r.metaId)
    requires |table'| > |table| ==> table'[|table|].metaId == r.metaId
    ensures HasMeta(table', m) == HasMeta(table, m)
  {
    if m != "" {
      forall k | 0 <= k < |table|
        ensures table'[k].metaId == m <==> table[k].metaId == m
      {
      }
    }
  }

  lemma PhonesKept(table: seq<Lead>, table': seq<Lead>, p: string)
    requires |table| <= |table'| && forall k | 0 <= k < |table| :: table'[k].phone == table[k].phone
    ensures HasPhone(table, p) ==> HasPhone(table', p)
  {
    if HasPhone(table, p) {
      var k :| 0 <= k < |table| && table[k].phone == p;
      assert table'[k].phone == p;
    }
  }

  /** On the second pass a row creates a lead exactly when it has no key, or its phone is gone
      and no row before it carried that phone. */
  lemma SecondCreates(leads: seq<Lead>, rows: seq<Record>, i: nat, first: seq<Lead>, table: seq<Lead>)
    requires i < |rows| && !Skipped(rows, i)
    requires FirstTable(leads, rows, |rows|, first) && SecondTable(first, rows, i, table)
    ensures Gone(leads, rows, |rows|, rows[i].phone) ==> Keyed(rows[i])
    ensures Resolve(table, rows[i]) == None <==>
            !Keyed(rows[i]) || (Gone(leads, rows, |rows|, rows[i].phone) && !Carried(rows, i, rows[i].phone))
  {
    var r := rows[i];
    NoneMeans(table, r);
    if r.phone != "" {
      assert Carried(rows, |rows|, r.phone);
      if HasMeta(first, r.metaId) {
        var k :| 0 <= k < |first| && first[k].metaId == r.metaId;
        assert ConflictFree(first[k], r);
        assert HasPhone(first, r.phone);
      }
    }
  }

  lemma NoneMeans(table: seq<Lead>, r: Record)
    ensures Resolve(table, r) == None <==> !HasMeta(table, r.metaId) && !HasPhone(table, r.phone)
  {
  }

  lemma {:induction false} LostMembers(leads: seq<Lead>, rows: seq<Record>, n: nat, p: string)
    requires n <= |rows|
    ensures p in LostPhones(leads, rows, n) <==> Gone(leads, rows, |rows|, p) && Carried(rows, n, p)
  {
    if n > 0 {
      LostMembers(leads, rows, n - 1, p);
      CarriedStep(leads, rows, n - 1, p);
    }
  }

  lemma CountStep(leads: seq<Lead>, rows: seq<Record>, i: nat, first: seq<Lead>, now: int, batch: string)
    requires i < |rows| && FirstTable(leads, rows, |rows|, first)
    requires SecondTable(first, rows, i, After(first, rows, i, now, batch))
    ensures CreatedCount(first, rows, i + 1, now, batch) - CreatedCount(first, rows, i, now, batch) ==
            UnkeyedCount(rows, i + 1) - UnkeyedCount(rows, i) +
            |LostPhones(leads, rows, i + 1)| - |LostPhones(leads, rows, i)|
  {
    LostStep(leads, rows, i);
    if !Skipped(rows, i) {
      SecondCreates(leads, rows, i, first, After(first, rows, i, now, batch));
    }
  }

  lemma LostStep(leads: seq<Lead>, rows: seq<Record>, i: nat)
    requires i < |rows|
    ensures |LostPhones(leads, rows, i + 1)| == |LostPhones(leads, rows, i)| +
            if !Skipped(rows, i) && Gone(leads, rows, |rows|, rows[i].phone) && !Carried(rows, i, rows[i].phone)
            then 1 else 0
  {
    hide Gone, Carried, Skipped;
    LostMembers(leads, rows, i, rows[i].phone);
    assert LostPhones(leads, rows, i + 1) ==
           if !Skipped(rows, i) && Gone(leads, rows, |rows|, rows[i].phone)
           then LostPhones(leads, rows, i) + {rows[i].phone} else LostPhones(leads, rows, i);
  }

  lemma SecondTableStep(leads: seq<Lead>, rows: seq<Record>, i: nat, first: seq<Lead>, now: int, batch: string)
    requires i < |rows| && SecondTable(first, rows, i, After(first, rows, i, now, batch))
    ensures SecondTable(first, rows, i + 1, After(first, rows, i + 1, now, batch))
  {
    SecondStep(first, rows, i, After(first, rows, i, now, batch), now, batch);
  }

  lemma {:induction false} SecondPassTable(leads: seq<Lead>, rows: seq<Record>, n: nat, now: int, batch: string,
                                           now': int, batch': string)
    requires n <= |rows| && Distinct(leads)
    ensures var first := After(leads, rows, |rows|, now, batch);
            SecondTable(first, rows, n, After(first, rows, n, now', batch'))
  {
    hide Upsert, Resolve, Skipped, FirstTable, SecondTable;
    var first := After(leads, rows, |rows|, now, batch);
    if n == 0 {
      FirstPassTable(leads, rows, |rows|, now, batch);
      SecondStart(leads, rows, first);
      assert After(first, rows, 0, now', batch') == first;
    } else {
      SecondPassTable(leads, rows, n - 1, now, batch, now', batch');
      SecondTableStep(leads, rows, n - 1, first, now', batch');
    }
  }

  lemma {:induction false} SecondPassCreates(leads: seq<Lead>, rows: seq<Record>, n: nat, now: int, batch: string,
                                             now': int, batch': string)
    requires n <= |rows| && Distinct(leads)
    ensures CreatedCount(After(leads, rows, |rows|, now, batch), rows, n, now', batch') ==
            UnkeyedCount(rows, n) + |LostPhones(leads, rows, n)|
  {
    hide Upsert, Resolve, Skipped, Gone;
    if n > 0 {
      SecondPassCreates(leads, rows, n - 1, now, batch, now', batch');
      CreatesOneMore(leads, rows, n - 1, now, batch, now', batch');
    }
  }

  lemma CreatesOneMore(leads: seq<Lead>, rows: seq<Record>, i: nat, now: int, batch: string, now': int, batch': string)
    requires i < |rows| && Distinct(leads)
    ensures var first := After(leads, rows, |rows|, now, batch);
            CreatedCount(first, rows, i + 1, now', batch') - CreatedCount(first, rows, i, now', batch') ==
            UnkeyedCount(rows, i + 1) - UnkeyedCount(rows, i) +
            |LostPhones(leads, rows, i + 1)| - |LostPhones(leads, rows, i)|
  {
    FirstPassTable(leads, rows, |rows|, now, batch);
    SecondPassTable(leads, rows, i, now, batch, now', batch');
    CountStep(leads, rows, i, After(leads, rows, |rows|, now, batch), now', batch');
  }

  lemma SecondStart(leads: seq<Lead>, rows: seq<Record>, first: seq<Lead>)
    requires FirstTable(leads, rows, |rows|, first)
    ensures SecondTable(first, rows, 0, first)
  {
  }

  /**
   * Re-uploading a file, for every store with distinct keys and every file. The second upload
   * creates one lead for each usable row without a key and one for each phone the file itself
   * overwrote; so beyond the unkeyed rows it duplicates exactly when some stored lead loses the
   * phone by which another row looks for it. Sales progress is untouched whatever happens.
   */
  lemma ReimportExact(leads: seq<Lead>, rows: seq<Record>, now: int, batch: string, now': int, batch': string)
    requires Distinct(leads)
    ensures var first := After(leads, rows, |rows|, now, batch);
            var second := After(first, rows, |rows|, now', batch');
            var created := CreatedCount(first, rows, |rows|, now', batch');
            && created == UnkeyedCount(rows, |rows|) + |LostPhones(leads, rows, |rows|)|
            && (created > UnkeyedCount(rows, |rows|) <==> exists t: nat :: LosesPhone(leads, rows, t))
            && |second| == |first| + created
            && forall k | 0 <= k < |first| :: second[k].progress == first[k].progress
  {
    var first := After(leads, rows, |rows|, now, batch);
    SecondPassCreates(leads, rows, |rows|, now, batch, now', batch');
    ImportKeepsProgress(first, rows, |rows|, now', batch');
    SomePhoneLost(leads, rows);
  }

  lemma SomePhoneLost(leads: seq<Lead>, rows: seq<Record>)
    ensures |LostPhones(leads, rows, |rows|)| > 0 <==> exists t: nat :: LosesPhone(leads, rows, t)
  {
    var lost := LostPhones(leads, rows, |rows|);
    if p :| p in lost {
      LostMembers(leads, rows, |rows|, p);
      var t, x :| 0 <= t < |leads| && 0 <= x < |rows| && Overwrites(leads, rows, |rows|, t, x) && leads[t].phone == p;
      assert LosesPhone(leads, rows, t);
    }
    if t: nat :| LosesPhone(leads, rows, t) {
      LostMembers(leads, rows, |rows|, leads[t].phone);
      assert leads[t].phone in lost;
    }
  }

  /** A file that names one lead first by its phone, then by its Meta id with phone `q`. */
  function RenamingFile(m: string, p: string, q: string): seq<Record> {
    [Record("", p, true, map[]), Record(m, q, true, map[])]
  }

  /**
   * Without that condition the promise fails: the Meta match replaces the phone the other row
   * was found by. For every store with such a lead, uploading this file twice creates a
   * duplicate on the second upload exactly when the new phone is a different, non-empty one.
   */
  lemma RewriteDuplicates(leads: seq<Lead>, t: nat, q: string, now: int, batch: string, now': int, batch': string)
    requires Distinct(leads) && t < |leads| && leads[t].metaId != "" && leads[t].phone != ""
    ensures var rows := RenamingFile(leads[t].metaId, leads[t].phone, q);
            var first := After(leads, rows, 2, now, batch);
            && CreatedCount(leads, rows, 2, now, batch) == 0
            && (CreatedCount(first, rows, 2, now', batch') > 0 <==> q != "" && q != leads[t].phone)
  {
    var m, p := leads[t].metaId, leads[t].phone;
    var rows := RenamingFile(m, p, q);
    assert !Skipped(rows, 0) && !Skipped(rows, 1);
    TwoRows(leads, rows, now, batch);
    assert Resolve(leads, rows[0]) == Some(t);
    var a1 := Upsert(leads, rows[0], now, batch);
    assert a1[t].metaId == m && a1[t].phone == p;
    assert Resolve(a1, rows[1]) == Some(t);
    var first := Upsert(a1, rows[1], now, batch);
    assert first[t].metaId == m && first[t].phone == if q != "" then q else p;
    TwoRows(first, rows, now', batch');
    if q == "" || q == p {
      assert Resolve(first, rows[0]) == Some(t);
      var b1 := Upsert(first, rows[0], now', batch');
      assert b1[t].metaId == m;
      assert Resolve(b1, rows[1]).Some?;
    } else {
      assert Resolve(first, rows[0]) == None;
    }
  }

  lemma TwoRows(leads: seq<Lead>, rows: seq<Record>, now: int, batch: string)
    requires |rows| == 2 && !Skipped(rows, 0) && !Skipped(rows, 1)
    ensures After(leads, rows, 2, now, batch) == Upsert(Upsert(leads, rows[0], now, batch), rows[1], now, batch)
    ensures CreatedCount(leads, rows, 2, now, batch) ==
            (if Resolve(leads, rows[0]).None? then 1 else 0) +
            if Resolve(Upsert(leads, rows[0], now, batch), rows[1]).None? then 1 else 0
  {
    assert After(leads, rows, 0, now, batch) == leads;
    assert After(leads, rows, 1, now, batch) == Upsert(leads, rows[0], now, batch);
    assert CreatedCount(leads, rows, 0, now, batch) == 0;
    assert CreatedCount(leads, rows, 1, now, batch) == if Resolve(leads, rows[0]).None? then 1 else 0;
  }
}
