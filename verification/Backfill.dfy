/** One-shot encryption of the personal data of rows written before a key was configured. */
module Backfill {
  import opened Values
  import opened PiiCrypto
  import opened Sql
  import opened QueryCompiler
  import opened Documents

  /** A cell the backfill still has to encrypt. */
  predicate Pending(row: Row, col: string) {
    match Get(row.cols, col)
    case Text(s) => !Marked(s)
    case _ => false
  }

  function BackfilledCell(ctx: Context, nonce: string -> string, row: Row, col: string): Row {
    if !Pending(row, col) then row
    else
      var s := row.cols[col].s;
      row.(cols := row.cols[col := Text(Encrypt(ctx.crypto, nonce(col), s))]
                           [IndexColumn(col) := Text(ctx.crypto.hmac(s))])
  }

  function BackfilledCells(ctx: Context, nonce: string -> string, row: Row, cols: seq<string>): Row
    decreases |cols|
  {
    if cols == [] then row
    else BackfilledCells(ctx, nonce, BackfilledCell(ctx, nonce, row, cols[0]), cols[1..])
  }

  function Backfilled(ctx: Context, nonce: string -> string, row: Row): Row {
    BackfilledCells(ctx, nonce, row, ctx.encrypted)
  }

  lemma {:induction false} CellsLeave(ctx: Context, nonce: string -> string, row: Row, cols: seq<string>, k: string)
    requires forall c | c in cols :: k != c && k != IndexColumn(c)
    ensures Get(BackfilledCells(ctx, nonce, row, cols).cols, k) == Get(row.cols, k)
    ensures BackfilledCells(ctx, nonce, row, cols).extra == row.extra
    decreases |cols|
  {
    if cols != [] {
      assert cols[0] in cols && forall c | c in cols[1..] :: c in cols;
      CellsLeave(ctx, nonce, BackfilledCell(ctx, nonce, row, cols[0]), cols[1..], k);
    }
  }

  lemma {:induction false} CellsReach(ctx: Context, nonce: string -> string, row: Row, cols: seq<string>, c: string)
    requires c in cols
    requires forall i, j | 0 <= i < j < |cols| :: cols[i] != cols[j]
    requires forall a, b | a in cols && b in cols :: a != IndexColumn(b)
    ensures var row' := BackfilledCells(ctx, nonce, row, cols);
            && Get(row'.cols, c) == Get(BackfilledCell(ctx, nonce, row, c).cols, c)
            && Get(row'.cols, IndexColumn(c)) == Get(BackfilledCell(ctx, nonce, row, c).cols, IndexColumn(c))
    decreases |cols|
  {
    var first, more := cols[0], cols[1..];
    assert first in cols && forall x | x in more :: x in cols;
    forall x | x in cols && x != c
      ensures IndexColumn(x) != IndexColumn(c)
    {
      if IndexColumn(x) == IndexColumn(c) { IndexColumnInjective(x, c); }
    }
    var row' := BackfilledCell(ctx, nonce, row, first);
    if first == c {
      CellsLeave(ctx, nonce, row', more, c);
      CellsLeave(ctx, nonce, row', more, IndexColumn(c));
    } else {
      CellsReach(ctx, nonce, row', more, c);
    }
  }

  /** A cell from before there was a key: text without the ciphertext marker. */
  predicate Legacy(row: Row, col: string) {
    col in row.cols && row.cols[col].Text? && !("pii1:" <= row.cols[col].s)
  }

  /** The rows that hold such a cell. */
  function LegacyRows(ctx: Context, rows: seq<Row>): set<nat> {
    set i: nat | i < |rows| && exists c | c in ctx.encrypted :: Legacy(rows[i], c)
  }

  /**
   * What the backfill does to one encrypted column: a legacy text becomes a marked ciphertext
   * that opens to it, searchable by its index; any other cell, and its index, stays as it was.
   */
  lemma BackfillsLegacy(ctx: Context, nonce: string -> string, row: Row, c: string)
    requires WellFormedTable(ctx) && ctx.crypto.enabled && c in ctx.encrypted
    ensures var row' := Backfilled(ctx, nonce, row);
            if Legacy(row, c) then
              && Get(row'.cols, c) == Text("pii1:" + ctx.crypto.cipher(nonce(c), row.cols[c].s))
              && Decrypt(ctx.crypto, Get(row'.cols, c).s) == row.cols[c].s
              && Get(row'.cols, IndexColumn(c)) == Text(ctx.crypto.hmac(row.cols[c].s))
            else
              && Get(row'.cols, c) == Get(row.cols, c)
              && Get(row'.cols, IndexColumn(c)) == Get(row.cols, IndexColumn(c))
  {
    hide Backfilled;
    assert IndexColumn(c) != c by { assert |IndexColumn(c)| != |c|; }
    ReachEncrypted(ctx, nonce, row, c);
    if Legacy(row, c) { EncryptRoundTrip(ctx.crypto, nonce(c), row.cols[c].s); }
  }

  /** Cells of a TEXT column. */
  predicate TextCells(ctx: Context, row: Row) {
    forall c | c in ctx.encrypted :: Get(row.cols, c) == Null || Get(row.cols, c).Text?
  }

  /**
   * The backfill makes every row searchable exactly when the cells that were empty or already
   * carried the ciphertext marker were consistent with their index to begin with.
   */
  lemma BackfillEstablishes(ctx: Context, nonce: string -> string, row: Row)
    requires WellFormedTable(ctx) && ctx.crypto.enabled && TextCells(ctx, row)
    requires forall k | k in row.extra :: k !in ctx.columns
    ensures RowOk(ctx, Backfilled(ctx, nonce, row)) <==>
            forall c | c in ctx.encrypted && !Legacy(row, c) :: CellOk(ctx, row, c)
  {
    var row' := Backfilled(ctx, nonce, row);
    ExtraUntouched(ctx, nonce, row, ctx.encrypted);
    forall c | c in ctx.encrypted
      ensures CellOk(ctx, row', c) <==> Pending(row, c) || CellOk(ctx, row, c)
    {
      ReachEncrypted(ctx, nonce, row, c);
      if Pending(row, c) {
        EncryptRoundTrip(ctx.crypto, nonce(c), row.cols[c].s);
      }
    }
  }

  lemma {:induction false} ExtraUntouched(ctx: Context, nonce: string -> string, row: Row, cols: seq<string>)
    ensures BackfilledCells(ctx, nonce, row, cols).extra == row.extra
    decreases |cols|
  {
    if cols != [] {
      ExtraUntouched(ctx, nonce, BackfilledCell(ctx, nonce, row, cols[0]), cols[1..]);
    }
  }

  lemma ReachEncrypted(ctx: Context, nonce: string -> string, row: Row, c: string)
    requires WellFormedTable(ctx) && c in ctx.encrypted
    ensures var row' := Backfilled(ctx, nonce, row);
            && Get(row'.cols, c) == Get(BackfilledCell(ctx, nonce, row, c).cols, c)
            && Get(row'.cols, IndexColumn(c)) == Get(BackfilledCell(ctx, nonce, row, c).cols, IndexColumn(c))
  {
    forall a, b | a in ctx.encrypted && b in ctx.encrypted
      ensures a != IndexColumn(b)
    {
      assert !IsIndexColumn(ctx, a);
    }
    CellsReach(ctx, nonce, row, ctx.encrypted, c);
  }

  /** Callers see the same document before and after. */
  lemma BackfillKeepsDocument(ctx: Context, nonce: string -> string, row: Row)
    requires WellFormedTable(ctx) && ctx.crypto.enabled && TextCells(ctx, row)
    ensures RowToDoc(ctx, Backfilled(ctx, nonce, row)) == RowToDoc(ctx, row)
  {
    hide BackfilledCells, Plain;
    var row' := Backfilled(ctx, nonce, row);
    ExtraUntouched(ctx, nonce, row, ctx.encrypted);
    forall k | k in ctx.columns && !IsIndexColumn(ctx, k)
      ensures (Get(row'.cols, k) == Null <==> Get(row.cols, k) == Null)
      ensures Get(row.cols, k) != Null ==> Plain(ctx, k, row'.cols[k]) == Plain(ctx, k, row.cols[k])
    {
      BackfillKeepsCell(ctx, nonce, row, k);
    }
  }

  lemma BackfillKeepsCell(ctx: Context, nonce: string -> string, row: Row, k: string)
    requires WellFormedTable(ctx) && ctx.crypto.enabled && TextCells(ctx, row)
    requires k in ctx.columns && !IsIndexColumn(ctx, k)
    ensures var row' := Backfilled(ctx, nonce, row);
            && (Get(row'.cols, k) == Null <==> Get(row.cols, k) == Null)
            && (Get(row.cols, k) != Null ==> Plain(ctx, k, row'.cols[k]) == Plain(ctx, k, row.cols[k]))
  {
    hide BackfilledCells;
    if k in ctx.encrypted {
      ReachEncrypted(ctx, nonce, row, k);
      assert IndexColumn(k) != k by { assert |IndexColumn(k)| != |k|; }
      if Pending(row, k) {
        EncryptRoundTrip(ctx.crypto, nonce(k), row.cols[k].s);
      }
    } else {
      CellsLeave(ctx, nonce, row, ctx.encrypted, k);
    }
  }

  lemma {:induction false} NothingPending(ctx: Context, nonce: string -> string, row: Row, cols: seq<string>)
    requires forall c | c in cols :: !Pending(row, c)
    ensures BackfilledCells(ctx, nonce, row, cols) == row
    decreases |cols|
  {
    if cols != [] {
      assert cols[0] in cols && forall c | c in cols[1..] :: c in cols;
      NothingPending(ctx, nonce, row, cols[1..]);
    }
  }

  /** Safe to re-run: a second backfill, with any nonces, changes nothing at all. */
  lemma BackfillIdempotent(ctx: Context, nonce: string -> string, nonce': string -> string, row: Row)
    requires WellFormedTable(ctx) && ctx.crypto.enabled
    ensures Backfilled(ctx, nonce', Backfilled(ctx, nonce, row)) == Backfilled(ctx, nonce, row)
  {
    var row' := Backfilled(ctx, nonce, row);
    forall c | c in ctx.encrypted
      ensures !Pending(row', c)
    {
      ReachEncrypted(ctx, nonce, row, c);
      assert IndexColumn(c) != c by { assert |IndexColumn(c)| != |c|; }
    }
    NothingPending(ctx, nonce', row', ctx.encrypted);
  }

  predicate HasPending(ctx: Context, row: Row) {
    exists c :: c in ctx.encrypted && Pending(row, c)
  }

  function PendingCount(ctx: Context, rows: seq<Row>): nat {
    if rows == [] then 0
    else PendingCount(ctx, rows[..|rows| - 1]) + if HasPending(ctx, rows[|rows| - 1]) then 1 else 0
  }

  lemma {:induction false} PendingIsLegacy(ctx: Context, rows: seq<Row>)
    ensures PendingCount(ctx, rows) == |LegacyRows(ctx, rows)|
  {
    if rows == [] {
      assert LegacyRows(ctx, rows) == {};
    } else {
      var n := |rows| - 1;
      PendingIsLegacy(ctx, rows[..n]);
      var before := LegacyRows(ctx, rows[..n]);
      assert forall c :: Pending(rows[n], c) <==> Legacy(rows[n], c);
      assert HasPending(ctx, rows[n]) <==> exists c | c in ctx.encrypted :: Legacy(rows[n], c);
      assert LegacyRows(ctx, rows) == if HasPending(ctx, rows[n]) then before + {n} else before;
    }
  }

  class Customers {
    const ctx: Context
    var rows: seq<Row>

    constructor (ctx: Context, rows: seq<Row>)
      ensures this.ctx == ctx && this.rows == rows
    {
      this.ctx, this.rows := ctx, rows;
    }

    /** One row, column by column; whether anything in it had to be encrypted. */
    method RewriteRow(nonce: string -> string, stored: Row) returns (row: Row, touched: bool)
      requires ctx.crypto.enabled
      ensures row == Backfilled(ctx, nonce, stored)
      ensures touched == HasPending(ctx, stored) && (!touched ==> row == stored)
    {
      row, touched := stored, false;
      assert ctx.encrypted[0..] == ctx.encrypted;
      for k := 0 to |ctx.encrypted|
        invariant BackfilledCells(ctx, nonce, row, ctx.encrypted[k..]) == Backfilled(ctx, nonce, stored)
        invariant touched ==> HasPending(ctx, stored)
        invariant !touched ==> row == stored && forall c | c in ctx.encrypted[..k] :: !Pending(stored, c)
      {
        var col := ctx.encrypted[k];
        assert ctx.encrypted[k..][0] == col && ctx.encrypted[k..][1..] == ctx.encrypted[k + 1..];
        if Get(row.cols, col).Text? && !Marked(row.cols[col].s) {
          var val := row.cols[col].s;
          row := row.(cols := row.cols[col := Text(Encrypt(ctx.crypto, nonce(col), val))]
                                      [IndexColumn(col) := Text(ctx.crypto.hmac(val))]);
          if !touched {
            assert Pending(stored, col);
          }
          touched := true;
        }
      }
      assert ctx.encrypted[..|ctx.encrypted|] == ctx.encrypted;
    }

    /** None when no key is configured; otherwise the number of rows rewritten. */
    method Run(nonces: nat -> string -> string) returns (changed: Option<nat>)
      modifies this
      ensures |rows| == |old(rows)|
      ensures forall i | 0 <= i < |rows| ::
                rows[i] == if ctx.crypto.enabled then Backfilled(ctx, nonces(i), old(rows)[i]) else old(rows)[i]
      ensures changed == if ctx.crypto.enabled then Some(|LegacyRows(ctx, old(rows))|) else None
    {
      if !ctx.crypto.enabled {
        return None;
      }
      var count := 0;
      ghost var before := rows;
      for i := 0 to |rows|
        invariant |rows| == |before|
        invariant forall j | 0 <= j < |rows| ::
                    rows[j] == if j < i then Backfilled(ctx, nonces(j), before[j]) else before[j]
        invariant count == PendingCount(ctx, before[..i])
      {
        var row, touched := RewriteRow(nonces(i), rows[i]);
        assert before[..i + 1][..i] == before[..i];
        if touched {
          rows := rows[i := row];
          count := count + 1;
        }
      }
      assert before[..|before|] == before;
      PendingIsLegacy(ctx, before);
      changed := Some(count);
    }
  }
}
