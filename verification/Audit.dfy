/** Hash-chained audit log: appending, verifying, and what verification can promise. */
module Audit {
  import opened Values

  /** Sixty-four zeros: the link of the very first entry. */
  const GENESIS := Zeros(64)

  function Zeros(n: nat): (s: string)
    ensures |s| == n && forall i | 0 <= i < n :: s[i] == '0'
  {
    if n == 0 then "" else ['0'] + Zeros(n - 1)
  }

  /** The ten fields the hash commits to; `createdAt` counts seconds. */
  datatype Content = Content(
    id: string, actorId: Option<string>, actorRole: Option<string>, action: string,
    targetType: Option<string>, targetId: Option<string>, targetLabel: Option<string>,
    metadata: string, ip: Option<string>, createdAt: int)

  /** Fields stored beside them but left out of the hash. */
  datatype Remarks = Remarks(actorEmail: Option<string>, actorName: Option<string>, userAgent: Option<string>)

  datatype Entry = Entry(content: Content, remarks: Remarks, prevHash: Option<string>, hash: Option<string>)

  /** `sha` is SHA-256 in hex, `encode` the canonical JSON of the hashed fields. */
  datatype Hasher = Hasher(sha: string -> string, encode: Content -> string)

  ghost predicate Lawful(h: Hasher) {
    && (forall a, b :: h.sha(a) == h.sha(b) ==> a == b)
    && (forall a, b :: h.encode(a) == h.encode(b) ==> a == b)
    && (forall s :: h.sha(s) != GENESIS && '\n' !in h.sha(s))
  }

  function EntryHash(h: Hasher, c: Content, prev: string): string {
    h.sha(prev + "\n" + h.encode(c))
  }

  /** The separator cannot be confused with either side: a hash fixes both its inputs. */
  lemma EntryHashInjective(h: Hasher, c: Content, prev: string, c': Content, prev': string)
    requires Lawful(h) && '\n' !in prev && '\n' !in prev'
    requires EntryHash(h, c, prev) == EntryHash(h, c', prev')
    ensures c == c' && prev == prev'
  {
    var s, s' := prev + "\n" + h.encode(c), prev' + "\n" + h.encode(c');
    assert s == s';
    assert s[|prev|] == '\n' && s'[|prev'|] == '\n';
    assert forall i | 0 <= i < |prev| :: s[i] == prev[i];
    assert forall i | 0 <= i < |prev'| :: s'[i] == prev'[i];
    assert |prev| == |prev'|;
    assert s[..|prev|] == prev && s'[..|prev'|] == prev';
    assert s[|prev| + 1..] == h.encode(c) && s'[|prev'| + 1..] == h.encode(c');
  }

  // ---------------------------------------------------------------------- verification

  datatype Report = Intact(checked: nat) | Broken(at: nat)

  function PrevOf(rows: seq<Entry>, i: nat): string
    requires i <= |rows|
  {
    if i > 0 && rows[i - 1].hash.Some? then rows[i - 1].hash.value else GENESIS
  }

  predicate LinkOk(h: Hasher, rows: seq<Entry>, i: nat)
    requires i < |rows|
  {
    var prev := PrevOf(rows, i);
    rows[i].prevHash == Some(prev) && rows[i].hash == Some(EntryHash(h, rows[i].content, prev))
  }

  predicate ChainOk(h: Hasher, rows: seq<Entry>) {
    forall i | 0 <= i < |rows| :: LinkOk(h, rows, i)
  }

  /** Walk the rows oldest first; report the first entry that does not follow from the one before. */
  method VerifyAuditChain(h: Hasher, fetched: seq<Entry>, limit: nat) returns (r: Report)
    ensures var rows := if |fetched| <= limit then fetched else fetched[..limit];
            match r
            case Intact(n) => n == |rows| && ChainOk(h, rows)
            case Broken(i) => i < |rows| && ChainOk(h, rows[..i]) && !LinkOk(h, rows, i)
  {
    var rows := if |fetched| <= limit then fetched else fetched[..limit];
    var prevHash := GENESIS;
    for i := 0 to |rows|
      invariant prevHash == PrevOf(rows, i)
      invariant forall j | 0 <= j < i :: LinkOk(h, rows, j)
    {
      var expected := EntryHash(h, rows[i].content, prevHash);
      if rows[i].prevHash != Some(prevHash) || rows[i].hash != Some(expected) {
        assert forall j | 0 <= j < i :: LinkOk(h, rows[..i], j) == LinkOk(h, rows, j);
        return Broken(i);
      }
      prevHash := expected;
    }
    r := Intact(|rows|);
  }

  lemma PrevHasNoBreak(h: Hasher, rows: seq<Entry>, i: nat)
    requires Lawful(h) && ChainOk(h, rows) && i <= |rows|
    ensures '\n' !in PrevOf(rows, i)
    ensures PrevOf(rows, i) == GENESIS <==> i == 0
  {
    if i > 0 {
      assert LinkOk(h, rows, i - 1);
    }
  }

  /** The first link of every sound chain: sixty-four zeros. */
  lemma FirstLink(h: Hasher, rows: seq<Entry>)
    requires ChainOk(h, rows) && rows != []
    ensures rows[0].prevHash.Some? && |rows[0].prevHash.value| == 64
    ensures forall i | 0 <= i < 64 :: rows[0].prevHash.value[i] == '0'
  {
    assert LinkOk(h, rows, 0);
  }

  lemma PrefixOk(h: Hasher, rows: seq<Entry>, n: nat)
    requires n <= |rows| && ChainOk(h, rows)
    ensures ChainOk(h, rows[..n]) && PrevOf(rows[..n], n) == PrevOf(rows, n)
  {
    forall i | 0 <= i < n
      ensures LinkOk(h, rows[..n], i)
    {
      assert LinkOk(h, rows, i) && PrevOf(rows[..n], i) == PrevOf(rows, i);
    }
  }

  lemma LastSame(h: Hasher, a: seq<Entry>, b: seq<Entry>)
    requires Lawful(h) && ChainOk(h, a) && ChainOk(h, b) && a != [] && b != []
    requires PrevOf(a, |a|) == PrevOf(b, |b|)
    ensures a[|a| - 1].content == b[|b| - 1].content && a[|a| - 1].hash == b[|b| - 1].hash
    ensures PrevOf(a, |a| - 1) == PrevOf(b, |b| - 1)
  {
    var m, n := |a| - 1, |b| - 1;
    PrevHasNoBreak(h, a, m);
    PrevHasNoBreak(h, b, n);
    assert LinkOk(h, a, m) && LinkOk(h, b, n);
    EntryHashInjective(h, a[m].content, PrevOf(a, m), b[n].content, PrevOf(b, n));
  }

  /**
   * Tamper evidence: two accepted logs that end in the same hash have the same length and
   * the same content, entry for entry, in every hashed field.
   */
  lemma {:induction false} TamperEvident(h: Hasher, a: seq<Entry>, b: seq<Entry>)
    requires Lawful(h) && ChainOk(h, a) && ChainOk(h, b)
    requires PrevOf(a, |a|) == PrevOf(b, |b|)
    ensures |a| == |b|
    ensures forall i | 0 <= i < |a| :: a[i].content == b[i].content && a[i].hash == b[i].hash
  {
    hide ChainOk, LinkOk, PrevOf, Lawful;
    PrevHasNoBreak(h, a, |a|);
    PrevHasNoBreak(h, b, |b|);
    if a != [] {
      var m, n := |a| - 1, |b| - 1;
      LastSame(h, a, b);
      PrefixOk(h, a, m);
      PrefixOk(h, b, n);
      TamperEvident(h, a[..m], b[..n]);
      assert forall i | 0 <= i < m :: a[i] == a[..m][i] && b[i] == b[..n][i];
    }
  }

  /** Limits of the chain alone: any prefix of an accepted log is accepted (so cutting the tail
      shows only against a remembered last hash), and so is any log that differs from it in
      nothing but the fields outside the hash. */
  lemma ChainLimits(h: Hasher, rows: seq<Entry>, n: nat, other: seq<Entry>)
    requires ChainOk(h, rows) && n <= |rows| && |other| == |rows|
    requires forall i | 0 <= i < |rows| :: other[i].(remarks := rows[i].remarks) == rows[i]
    ensures ChainOk(h, rows[..n]) && ChainOk(h, other)
  {
    PrefixOk(h, rows, n);
    forall i | 0 <= i < |rows|
      ensures LinkOk(h, other, i)
    {
      assert LinkOk(h, rows, i);
      assert other[i].content == rows[i].content && PrevOf(other, i) == PrevOf(rows, i);
    }
  }

  /** Differs from the log in nothing but fields outside the hash. */
  predicate SameButRemarks(rows: seq<Entry>, other: seq<Entry>) {
    |other| == |rows| && forall i | 0 <= i < |rows| :: other[i].(remarks := rows[i].remarks) == rows[i]
  }

  /**
   * What an auditor who remembers the last hash can be sure of: another log is accepted with
   * that last hash exactly when it differs from the accepted one in unhashed fields only.
   */
  lemma EditsUndetectedExact(h: Hasher, rows: seq<Entry>, other: seq<Entry>)
    requires Lawful(h) && ChainOk(h, rows)
    ensures ChainOk(h, other) && PrevOf(other, |other|) == PrevOf(rows, |rows|) <==> SameButRemarks(rows, other)
  {
    if SameButRemarks(rows, other) {
      ChainLimits(h, rows, |rows|, other);
    } else if ChainOk(h, other) && PrevOf(other, |other|) == PrevOf(rows, |rows|) {
      TamperEvident(h, rows, other);
      forall i | 0 <= i < |rows|
        ensures other[i].(remarks := rows[i].remarks) == rows[i]
      {
        assert LinkOk(h, rows, i) && LinkOk(h, other, i);
        assert PrevOf(rows, i) == PrevOf(other, i);
      }
    }
  }

  // -------------------------------------------------------------------------- appending

  /** `pick` is a newest of the first `n` rows by timestamp; rows of one second all qualify. */
  predicate IsLatest(table: seq<Entry>, n: nat, pick: nat)
    requires n <= |table|
  {
    pick < n && forall j | 0 <= j < n :: table[j].content.createdAt <= table[pick].content.createdAt
  }

  /** There is always a newest row to chain to, and no row is later than it. */
  lemma {:induction false} LatestExists(table: seq<Entry>, n: nat)
    requires 0 < n <= |table|
    ensures exists pick: nat :: IsLatest(table, n, pick)
    ensures forall pick: nat | IsLatest(table, n, pick) ::
              !exists j :: 0 <= j < n && table[pick].content.createdAt < table[j].content.createdAt
  {
    if n == 1 {
      assert IsLatest(table, 1, 0);
    } else {
      LatestExists(table, n - 1);
      var pick: nat :| IsLatest(table, n - 1, pick);
      var later := if table[pick].content.createdAt <= table[n - 1].content.createdAt then n - 1 else pick;
      assert IsLatest(table, n, later);
    }
  }

  function Logged(h: Hasher, latest: Option<Entry>, c: Content, remarks: Remarks): Entry {
    var prev := if latest.Some? && latest.value.hash.Some? && latest.value.hash.value != ""
                then latest.value.hash.value else GENESIS;
    Entry(c, remarks, Some(prev), Some(EntryHash(h, c, prev)))
  }

  ghost predicate LoggedAt(h: Hasher, table: seq<Entry>, i: nat)
    requires i < |table|
  {
    if i == 0 then table[0] == Logged(h, None, table[0].content, table[0].remarks)
    else exists pick: nat | IsLatest(table, i, pick) ::
           table[i] == Logged(h, Some(table[pick]), table[i].content, table[i].remarks)
  }

  /** A table whose rows from `start` on were logged, over rows from before hashing began. */
  ghost predicate Built(h: Hasher, table: seq<Entry>, start: nat) {
    && start <= |table|
    && (forall i | 0 <= i < start :: table[i].hash == None)
    && forall i | start <= i < |table| :: LoggedAt(h, table, i)
  }

  class AuditLog {
    const hasher: Hasher
    var table: seq<Entry>

    constructor (hasher: Hasher, table: seq<Entry>)
      ensures this.hasher == hasher && this.table == table
    {
      this.hasher, this.table := hasher, table;
    }

    /** Append one entry chained to the newest row, whichever of them the query returned. */
    method LogAudit(c: Content, remarks: Remarks, newest: nat)
      requires table != [] ==> IsLatest(table, |table|, newest)
      modifies this
      ensures |table| == |old(table)| + 1 && table[..|old(table)|] == old(table)
      ensures table[|old(table)|].content == c && table[|old(table)|].remarks == remarks
      ensures forall start :: Built(hasher, old(table), start) ==> Built(hasher, table, start)
    {
      var prevHash := GENESIS;
      if table != [] && table[newest].hash.Some? && table[newest].hash.value != "" {
        prevHash := table[newest].hash.value;
      }
      ghost var before := table;
      table := table + [Entry(c, remarks, Some(prevHash), Some(EntryHash(hasher, c, prevHash)))];
      forall i | 0 <= i < |before| && LoggedAt(hasher, before, i)
        ensures LoggedAt(hasher, table, i)
      {
        if i > 0 {
          var pick: nat :| IsLatest(before, i, pick) &&
                           before[i] == Logged(hasher, Some(before[pick]), before[i].content, before[i].remarks);
          assert IsLatest(table, i, pick);
        }
      }
      if before != [] {
        assert IsLatest(table, |before|, newest);
      }
      assert LoggedAt(hasher, table, |before|);
    }
  }

  /** Any rows from before hashing began, none included, are where a log may start. */
  lemma BuiltStarts(h: Hasher, legacy: seq<Entry>)
    requires forall i | 0 <= i < |legacy| :: legacy[i].hash == None
    ensures Built(h, legacy, |legacy|)
  {
  }

  /** Each row from `start` on is strictly later than every row before it. */
  predicate StrictFrom(table: seq<Entry>, start: nat) {
    forall i, j | 0 <= j < i < |table| && start <= i :: table[j].content.createdAt < table[i].content.createdAt
  }

  predicate InOrder(rows: seq<Entry>) {
    forall i, j | 0 <= i < j < |rows| :: rows[i].content.createdAt <= rows[j].content.createdAt
  }

  /** One order in which `ORDER BY created_at` may return the hashed rows. */
  ghost predicate IsView(rows: seq<Entry>, view: seq<Entry>) {
    multiset(view) == multiset(rows) && InOrder(view)
  }

  /** With no shared second, a new entry chains to the row right before it. */
  lemma LoggedFollows(h: Hasher, table: seq<Entry>, start: nat, i: nat)
    requires Built(h, table, start) && StrictFrom(table, start) && start <= i < |table|
    ensures table[i] == Logged(h, if i == start then None else Some(table[i - 1]), table[i].content, table[i].remarks)
  {
    hide StrictFrom;
    assert LoggedAt(h, table, i);
    if i > 0 {
      var pick: nat :| IsLatest(table, i, pick) &&
                       table[i] == Logged(h, Some(table[pick]), table[i].content, table[i].remarks);
      if i > start { StrictLatest(table, start, i, pick); }
    }
  }

  lemma StrictLatest(table: seq<Entry>, start: nat, i: nat, pick: nat)
    requires StrictFrom(table, start) && start < i < |table| && IsLatest(table, i, pick)
    ensures pick == i - 1
  {
    assert table[i - 1].content.createdAt <= table[pick].content.createdAt;
  }

  /** Logging with strictly increasing timestamps builds a sound chain over the legacy prefix. */
  lemma BuiltIsChained(h: Hasher, table: seq<Entry>, start: nat)
    requires Built(h, table, start) && StrictFrom(table, start)
    requires forall s :: h.sha(s) != ""
    ensures ChainOk(h, table[start..])
  {
    var rows := table[start..];
    forall i | 0 <= i < |rows|
      ensures LinkOk(h, rows, i)
    {
      LoggedFollows(h, table, start, start + i);
      if i > 0 {
        LoggedFollows(h, table, start, start + i - 1);
        assert rows[i - 1] == table[start + i - 1];
      }
    }
  }

  lemma {:induction false} OnlyView(rows: seq<Entry>, view: seq<Entry>)
    requires IsView(rows, view) && StrictFrom(rows, 0)
    ensures view == rows
  {
    SameLength(rows, view);
    if rows != [] {
      var n := |rows| - 1;
      LastAgrees(rows, view);
      InitIsView(rows, view);
      OnlyView(rows[..n], view[..n]);
      assert rows == rows[..n] + [rows[n]] && view == view[..n] + [view[n]];
    }
  }

  lemma InitIsView(rows: seq<Entry>, view: seq<Entry>)
    requires IsView(rows, view) && rows != [] && |view| == |rows|
    requires view[|rows| - 1] == rows[|rows| - 1]
    ensures IsView(rows[..|rows| - 1], view[..|rows| - 1])
  {
    SameInit(rows, view);
  }

  lemma SameInit<T>(a: seq<T>, b: seq<T>)
    requires |a| == |b| > 0 && multiset(a) == multiset(b) && a[|a| - 1] == b[|a| - 1]
    ensures multiset(a[..|a| - 1]) == multiset(b[..|a| - 1])
  {
    var n := |a| - 1;
    assert a == a[..n] + [a[n]] && b == b[..n] + [b[n]];
    assert multiset(a) == multiset(a[..n]) + multiset{a[n]};
    assert multiset(b) == multiset(b[..n]) + multiset{b[n]};
    forall x
      ensures multiset(a[..n])[x] == multiset(b[..n])[x]
    {
      assert multiset(a)[x] == multiset(a[..n])[x] + multiset{a[n]}[x];
      assert multiset(b)[x] == multiset(b[..n])[x] + multiset{b[n]}[x];
    }
  }

  lemma SameLength(rows: seq<Entry>, view: seq<Entry>)
    requires multiset(view) == multiset(rows)
    ensures |view| == |rows|
  {
    assert |multiset(view)| == |view| && |multiset(rows)| == |rows|;
  }

  lemma LastAgrees(rows: seq<Entry>, view: seq<Entry>)
    requires IsView(rows, view) && StrictFrom(rows, 0) && rows != [] && |view| == |rows|
    ensures view[|rows| - 1] == rows[|rows| - 1]
  {
    var n := |rows| - 1;
    assert rows[n] in multiset(rows) && view[n] in multiset(view);
    assert rows[n] in view && view[n] in rows;
    var i :| 0 <= i < |view| && view[i] == rows[n];
    var j :| 0 <= j < |rows| && rows[j] == view[n];
    assert rows[n].content.createdAt <= view[n].content.createdAt;
  }

  /** In a sound chain no entry could stand in front of itself: its hash is not its link. */
  lemma {:induction false} NoSelfLink(h: Hasher, rows: seq<Entry>, i: nat, c: Content)
    requires Lawful(h) && ChainOk(h, rows) && i <= |rows|
    ensures EntryHash(h, c, PrevOf(rows, i)) != PrevOf(rows, i)
    decreases i
  {
    if i > 0 && EntryHash(h, c, PrevOf(rows, i)) == PrevOf(rows, i) {
      assert LinkOk(h, rows, i - 1);
      PrevHasNoBreak(h, rows, i);
      PrevHasNoBreak(h, rows, i - 1);
      EntryHashInjective(h, c, PrevOf(rows, i), rows[i - 1].content, PrevOf(rows, i - 1));
      NoSelfLink(h, rows, i - 1, c);
    }
  }

  lemma SwapKeepsOrder(rows: seq<Entry>, i: nat)
    requires InOrder(rows) && i + 1 < |rows| && rows[i].content.createdAt == rows[i + 1].content.createdAt
    ensures InOrder(rows[i := rows[i + 1]][i + 1 := rows[i]])
  {
  }

  /** Two rows of one second may come back swapped, and then the chain is reported broken. */
  lemma SwappedViewFails(h: Hasher, rows: seq<Entry>, i: nat)
    requires Lawful(h) && InOrder(rows) && ChainOk(h, rows) && i + 1 < |rows|
    requires rows[i].content.createdAt == rows[i + 1].content.createdAt
    ensures var view := rows[i := rows[i + 1]][i + 1 := rows[i]];
            IsView(rows, view) && !ChainOk(h, view)
  {
    var view := rows[i := rows[i + 1]][i + 1 := rows[i]];
    assert multiset(view) == multiset(rows);
    SwapKeepsOrder(rows, i);
    hide InOrder;
    assert LinkOk(h, rows, i) && LinkOk(h, rows, i + 1);
    assert PrevOf(view, i) == PrevOf(rows, i);
    NoSelfLink(h, rows, i, rows[i].content);
    assert !LinkOk(h, view, i);
  }

  /**
   * Timestamps have one-second resolution. A log in time order is accepted whatever order the
   * query breaks ties in exactly when it is a sound chain and no two entries share a second.
   */
  lemma AcceptedInEveryOrder(h: Hasher, rows: seq<Entry>)
    requires Lawful(h) && InOrder(rows)
    ensures (forall view | IsView(rows, view) :: ChainOk(h, view)) <==> ChainOk(h, rows) && StrictFrom(rows, 0)
  {
    hide ChainOk, StrictFrom, IsView;
    if ChainOk(h, rows) && StrictFrom(rows, 0) {
      forall view | IsView(rows, view)
        ensures ChainOk(h, view)
      {
        OnlyView(rows, view);
      }
    } else if ChainOk(h, rows) {
      SomeViewFails(h, rows);
    } else {
      OwnView(rows);
    }
  }

  lemma OwnView(rows: seq<Entry>)
    requires InOrder(rows)
    ensures IsView(rows, rows)
  {
  }

  lemma SomeViewFails(h: Hasher, rows: seq<Entry>)
    requires Lawful(h) && InOrder(rows) && ChainOk(h, rows) && !StrictFrom(rows, 0)
    ensures exists view :: IsView(rows, view) && !ChainOk(h, view)
  {
    if forall i | 0 <= i && i + 1 < |rows| :: rows[i].content.createdAt < rows[i + 1].content.createdAt {
      NeighboursSuffice(rows);
    }
    hide ChainOk, StrictFrom, IsView;
    var i: nat :| i + 1 < |rows| && !(rows[i].content.createdAt < rows[i + 1].content.createdAt);
    SwappedViewFails(h, rows, i);
  }

  lemma {:induction false} NeighboursSuffice(rows: seq<Entry>)
    requires InOrder(rows)
    requires forall i | 0 <= i && i + 1 < |rows| :: rows[i].content.createdAt < rows[i + 1].content.createdAt
    ensures StrictFrom(rows, 0)
  {
    forall i, j | 0 <= j < i < |rows|
      ensures rows[j].content.createdAt < rows[i].content.createdAt
    {
      assert rows[j].content.createdAt <= rows[i - 1].content.createdAt;
      assert rows[i - 1].content.createdAt < rows[i - 1 + 1].content.createdAt;
    }
  }

  /** Hashing began in a later second than the last row before it. */
  predicate StartsLater(table: seq<Entry>, start: nat) {
    0 < start < |table| ==> table[start - 1].content.createdAt < table[start].content.createdAt
  }

  /** The second hashed entry was chained to the first, not to a row from before hashing began. */
  predicate SecondFollows(rows: seq<Entry>) {
    |rows| >= 2 ==> rows[1].prevHash != Some(GENESIS)
  }

  /** The newest row is the one before, unless that is the first hashed entry and shares its
      second with an older row. */
  lemma LatestIsPrevious(table: seq<Entry>, start: nat, i: nat, pick: nat)
    requires InOrder(table) && start < i < |table| && StrictFrom(table[start..], 0) && IsLatest(table, i, pick)
    ensures pick == i - 1 || (pick < start && i == start + 1)
  {
    var rows := table[start..];
    assert rows[i - 1 - start] == table[i - 1] && rows[0] == table[start];
    if pick >= start { assert rows[pick - start] == table[pick]; }
  }

  lemma BuiltFollows(h: Hasher, table: seq<Entry>, start: nat, i: nat)
    requires Built(h, table, start) && InOrder(table) && start <= i < |table|
    requires StrictFrom(table[start..], 0) && SecondFollows(table[start..])
    ensures table[i] == Logged(h, if i == start then None else Some(table[i - 1]), table[i].content, table[i].remarks)
  {
    hide StrictFrom, InOrder;
    assert LoggedAt(h, table, i);
    if i > 0 {
      var pick: nat :| IsLatest(table, i, pick) &&
                       table[i] == Logged(h, Some(table[pick]), table[i].content, table[i].remarks);
      if i > start {
        LatestIsPrevious(table, start, i, pick);
        assert i == start + 1 ==> table[start..][1] == table[i];
      }
    }
  }

  /**
   * A log built by a clock that never runs back, over rows from before hashing began, verifies
   * in every read order exactly when no two hashed entries fall in the same second and the
   * second one does not start the chain again; that last part is only in question when the
   * first hashed entry shares its second with an older row.
   */
  lemma BuiltLogVerifies(h: Hasher, table: seq<Entry>, start: nat)
    requires Lawful(h) && Built(h, table, start) && InOrder(table)
    requires forall s :: h.sha(s) != ""
    ensures var rows := table[start..];
            && ((forall view | IsView(rows, view) :: ChainOk(h, view)) <==> StrictFrom(rows, 0) && SecondFollows(rows))
            && (StrictFrom(rows, 0) && StartsLater(table, start) ==> SecondFollows(rows))
  {
    hide LinkOk, LoggedAt, IsLatest;
    var rows := table[start..];
    AcceptedInEveryOrder(h, rows);
    if StrictFrom(rows, 0) && SecondFollows(rows) { BuiltChains(h, table, start); }
    if ChainOk(h, rows) { ChainFollows(h, rows); }
    if StrictFrom(rows, 0) && StartsLater(table, start) {
      StrictOverLegacy(table, start);
      BuiltIsChained(h, table, start);
    }
  }

  lemma BuiltChains(h: Hasher, table: seq<Entry>, start: nat)
    requires Built(h, table, start) && InOrder(table) && forall s :: h.sha(s) != ""
    requires StrictFrom(table[start..], 0) && SecondFollows(table[start..])
    ensures ChainOk(h, table[start..])
  {
    forall i | 0 <= i < |table| - start
      ensures LinkOk(h, table[start..], i)
    {
      BuiltLink(h, table, start, start + i);
    }
  }

  lemma BuiltLink(h: Hasher, table: seq<Entry>, start: nat, i: nat)
    requires Built(h, table, start) && InOrder(table) && forall s :: h.sha(s) != ""
    requires StrictFrom(table[start..], 0) && SecondFollows(table[start..]) && start <= i < |table|
    ensures LinkOk(h, table[start..], i - start)
  {
    hide Built, InOrder, StrictFrom, SecondFollows;
    var rows := table[start..];
    BuiltFollows(h, table, start, i);
    assert rows[i - start] == table[i];
    if i > start {
      BuiltFollows(h, table, start, i - 1);
      assert rows[i - start - 1] == table[i - 1];
    }
  }

  lemma ChainFollows(h: Hasher, rows: seq<Entry>)
    requires Lawful(h) && ChainOk(h, rows)
    ensures SecondFollows(rows)
  {
    if |rows| >= 2 {
      assert LinkOk(h, rows, 1);
      PrevHasNoBreak(h, rows, 1);
    }
  }

  lemma StrictOverLegacy(table: seq<Entry>, start: nat)
    requires InOrder(table) && start <= |table| && StrictFrom(table[start..], 0)
    requires StartsLater(table, start)
    ensures StrictFrom(table, start)
  {
    var rows := table[start..];
    forall i, j | 0 <= j < i < |table| && start <= i
      ensures table[j].content.createdAt < table[i].content.createdAt
    {
      assert rows[i - start] == table[i];
      if j >= start { assert rows[j - start] == table[j]; }
    }
  }
}
