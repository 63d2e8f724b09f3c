/** A table behind the document API: statements executed on rows, and what callers see. */
module Store {
  import opened Values
  import opened PiiCrypto
  import opened Filters
  import opened Sql
  import opened QueryCompiler
  import opened Documents
  import opened WhereEmitter

  type Nonces = string -> string

  // ------------------------------------------------------------ statements on rows

  /** UPDATE .. SET .. WHERE ..: SET and WHERE share one parameter list, SET first. */
  function UpdatedRow(ctx: Context, sem: Semantics, nonce: Nonces, filter: Filter, changes: Dict, row: Row): Row {
    var (assigns, params) := UpdateSet(ctx, nonce, changes, []);
    var all := EmitFilter(ctx, filter, params).params;
    if Selects(sem, WhereText(ctx, filter, params), row, all) then AssignedAll(row, assigns, all) else row
  }

  function UpdatedRows(ctx: Context, sem: Semantics, nonce: Nonces, filter: Filter, changes: Dict,
                       rows: seq<Row>): (r: seq<Row>)
    ensures |r| == |rows|
    ensures forall i | 0 <= i < |rows| :: r[i] == UpdatedRow(ctx, sem, nonce, filter, changes, rows[i])
  {
    if rows == [] then []
    else [UpdatedRow(ctx, sem, nonce, filter, changes, rows[0])] +
         UpdatedRows(ctx, sem, nonce, filter, changes, rows[1..])
  }

  function InsertedRow(ctx: Context, nonce: Nonces, doc: Dict): Row {
    AssignedAll(Row(map[], map[]), InsertSet(ctx, nonce, doc).0, InsertSet(ctx, nonce, doc).1)
  }

  /** Nothing but `_id`: the statement would have an empty column list, which SQL refuses. */
  predicate NothingToStore(d: Dict) {
    forall k | k in ToDoc(d) :: k == "_id"
  }

  // ------------------------------------------------------- the same, on documents

  function MatchingDocs(sem: Semantics, filter: Filter, docs: seq<Doc>): seq<Doc> {
    if docs == [] then []
    else (if Matches(sem, filter, docs[0]) then [docs[0]] else []) + MatchingDocs(sem, filter, docs[1..])
  }

  function UpdatedDocs(ctx: Context, sem: Semantics, filter: Filter, changes: Doc, docs: seq<Doc>): (r: seq<Doc>)
    ensures |r| == |docs|
    ensures forall i | 0 <= i < |docs| ::
              r[i] == if Matches(sem, filter, docs[i]) then Overlay(ctx, docs[i], changes) else docs[i]
  {
    if docs == [] then []
    else [if Matches(sem, filter, docs[0]) then Overlay(ctx, docs[0], changes) else docs[0]] +
         UpdatedDocs(ctx, sem, filter, changes, docs[1..])
  }

  function Docs(ctx: Context, rows: seq<Row>): (r: seq<Doc>)
    ensures |r| == |rows| && forall i | 0 <= i < |rows| :: r[i] == RowToDoc(ctx, rows[i])
  {
    if rows == [] then [] else [RowToDoc(ctx, rows[0])] + Docs(ctx, rows[1..])
  }

  predicate Sound(ctx: Context, rows: seq<Row>) {
    forall i | 0 <= i < |rows| :: RowOk(ctx, rows[i]) && TextOverflow(rows[i])
  }

  /** Undeclared keys carry strings, the overflow values whose `->>` form is themselves. */
  predicate Storable(ctx: Context, d: Dict) {
    && Acceptable(ctx, d)
    && forall k | k in ToDoc(d) && k !in ctx.columns :: ToDoc(d)[k] == Null || ToDoc(d)[k].Text?
  }

  lemma EmptyAssigns(ctx: Context, nonce: Nonces, d: Dict, params: seq<Param>)
    requires WellFormedTable(ctx) && Acceptable(ctx, d)
    ensures UpdateSet(ctx, nonce, d, params).0 == [] <==> NothingToStore(d)
    ensures InsertSet(ctx, nonce, d).0 == [] <==> NothingToStore(d)
  {
    hide EncryptedDict, NothingToStore, WellFormedTable, Acceptable, Declared, Extra, ToDoc;
    EncryptingStoresNoMore(ctx, nonce, d);
    EmptyParts(ctx, EncryptedDict(ctx, nonce, d));
  }

  lemma EmptyParts(ctx: Context, e: Dict)
    requires UniqueKeys(e)
    ensures Declared(ctx, e) == [] && ToDoc(Extra(ctx, e)) == map[] <==> NothingToStore(e)
  {
    hide Declared, Extra, ToDoc, UniqueKeys;
    forall k
      ensures k in ToDoc(Declared(ctx, e)) || k in ToDoc(Extra(ctx, e)) <==> k in ToDoc(e) && k != "_id"
    {
      SplitAt(ctx, e, k);
    }
    if NothingToStore(e) {
      EmptyDict(Declared(ctx, e));
      EmptyDict(Extra(ctx, e));
    } else if Declared(ctx, e) == [] {
      NoKeys();
    }
  }

  lemma NoKeys()
    ensures ToDoc([]) == map[]
  {
  }

  lemma EncryptingStoresNoMore(ctx: Context, nonce: Nonces, d: Dict)
    requires WellFormedTable(ctx) && Acceptable(ctx, d)
    ensures UniqueKeys(EncryptedDict(ctx, nonce, d))
    ensures NothingToStore(EncryptedDict(ctx, nonce, d)) <==> NothingToStore(d)
  {
    hide EncryptedDict, IsIndexColumn, Ciphered, FaithfulEntry, ToDoc, UniqueKeys, CipherOf, IndexOf;
    var e := EncryptedDict(ctx, nonce, d);
    EncryptedDictEffect(ctx, nonce, d);
    if k :| k in ToDoc(d) && k != "_id" {
      assert TypedEntry(ctx, k, ToDoc(d)[k]);
      assert k in ToDoc(e);
    } else if k :| k in ToDoc(e) && k != "_id" {
      assert IsIndexColumn(ctx, k);
      OnlyFromColumn(ctx, nonce, d, k);
    }
  }

  lemma EmptyDict(d: Dict)
    requires forall k :: k !in ToDoc(d)
    ensures d == [] && ToDoc(d) == map[]
  {
    if d != [] {
      assert d[0].key in ToDoc(d);
    }
  }

  lemma OnlyFromColumn(ctx: Context, nonce: Nonces, d: Dict, k: string)
    requires WellFormedTable(ctx) && Acceptable(ctx, d) && IsIndexColumn(ctx, k)
    requires k in ToDoc(EncryptedDict(ctx, nonce, d))
    ensures exists c :: c in ToDoc(d) && c in ctx.columns
  {
    EncryptedDictEffect(ctx, nonce, d);
    var c :| c in ctx.encrypted && k == IndexColumn(c);
    if ctx.crypto.enabled {
      assert Ciphered(ctx, c);
      assert c in ToDoc(d);
    }
  }

  /** One row under an UPDATE: overlaid when its document matches, untouched otherwise. */
  lemma UpdatedRowReads(ctx: Context, sem: Semantics, nonce: Nonces, filter: Filter, changes: Dict, row: Row)
    requires WellFormedTable(ctx) && RowOk(ctx, row) && TextOverflow(row)
    requires Supported(ctx, filter) && Storable(ctx, changes)
    ensures var row' := UpdatedRow(ctx, sem, nonce, filter, changes, row);
            && RowToDoc(ctx, row') == (if Matches(sem, filter, RowToDoc(ctx, row))
                                       then Overlay(ctx, RowToDoc(ctx, row), ToDoc(changes))
                                       else RowToDoc(ctx, row))
            && RowOk(ctx, row') && TextOverflow(row')
  {
    var (assigns, params) := UpdateSet(ctx, nonce, changes, []);
    var all := EmitFilter(ctx, filter, params).params;
    RowStores(ctx, row);
    WhereSelectsMatches(ctx, sem, filter, row, RowToDoc(ctx, row), params, all);
    EncryptedDictEffect(ctx, nonce, changes);
    UpdateSetEffect(ctx, nonce, changes, [], all, row);
    ReadAfterWrite(ctx, nonce, row, changes);
    StorableOverflow(ctx, nonce, changes);
  }

  lemma StorableOverflow(ctx: Context, nonce: Nonces, d: Dict)
    requires WellFormedTable(ctx) && Storable(ctx, d)
    ensures var extra := ToDoc(Extra(ctx, EncryptedDict(ctx, nonce, d)));
            forall k | k in extra :: extra[k] == Null || extra[k].Text?
  {
    EncryptedDictEffect(ctx, nonce, d);
    SplitEffect(ctx, EncryptedDict(ctx, nonce, d));
  }

  lemma InsertIsWrite(ctx: Context, nonce: Nonces, doc: Dict)
    requires WellFormedTable(ctx) && Acceptable(ctx, doc)
    ensures InsertedRow(ctx, nonce, doc) == Written(ctx, nonce, Row(map[], map[]), doc)
  {
    hide EncryptedDict, Declared, Extra, InsertSet, AssignedAll;
    var d := EncryptedDict(ctx, nonce, doc);
    EncryptedDictEffect(ctx, nonce, doc);
    InsertSetEffect(ctx, nonce, doc);
    assert map[] + ToDoc(Declared(ctx, d)) == ToDoc(Declared(ctx, d));
    assert map[] + ToDoc(Extra(ctx, d)) == ToDoc(Extra(ctx, d));
  }

  /** Insert, then read: the document comes back, less the declared keys set to None. */
  lemma InsertedRowReads(ctx: Context, nonce: Nonces, doc: Dict)
    requires WellFormedTable(ctx) && Storable(ctx, doc)
    ensures var row := InsertedRow(ctx, nonce, doc);
            && RowToDoc(ctx, row) == Overlay(ctx, map[], ToDoc(doc))
            && RowOk(ctx, row) && TextOverflow(row)
  {
    var empty := Row(map[], map[]);
    InsertIsWrite(ctx, nonce, doc);
    ReadAfterWrite(ctx, nonce, empty, doc);
    assert RowToDoc(ctx, empty) == map[];
    StorableOverflow(ctx, nonce, doc);
  }

  // -------------------------------------------------------------------- whole histories

  datatype Write = Insert(doc: Dict) | Update(filter: Filter, changes: Dict)

  predicate WriteOk(ctx: Context, w: Write) {
    match w
    case Insert(doc) => Storable(ctx, doc)
    case Update(filter, changes) => Storable(ctx, changes) && Supported(ctx, filter)
  }

  /** The table after one write; a statement SQL refuses leaves it alone. */
  function Execute(ctx: Context, sem: Semantics, nonce: Nonces, rows: seq<Row>, w: Write): seq<Row> {
    match w
    case Insert(doc) => if NothingToStore(doc) then rows else rows + [InsertedRow(ctx, nonce, doc)]
    case Update(filter, changes) =>
      if NothingToStore(changes) then rows else UpdatedRows(ctx, sem, nonce, filter, changes, rows)
  }

  function ExecuteDocs(ctx: Context, sem: Semantics, docs: seq<Doc>, w: Write): seq<Doc> {
    match w
    case Insert(doc) => if NothingToStore(doc) then docs else docs + [Overlay(ctx, map[], ToDoc(doc))]
    case Update(filter, changes) =>
      if NothingToStore(changes) then docs else UpdatedDocs(ctx, sem, filter, ToDoc(changes), docs)
  }

  function ExecuteAll(ctx: Context, sem: Semantics, nonces: nat -> Nonces, rows: seq<Row>, ws: seq<Write>): seq<Row> {
    if ws == [] then rows
    else Execute(ctx, sem, nonces(|ws| - 1), ExecuteAll(ctx, sem, nonces, rows, ws[..|ws| - 1]), ws[|ws| - 1])
  }

  function ExecuteDocsAll(ctx: Context, sem: Semantics, docs: seq<Doc>, ws: seq<Write>): seq<Doc> {
    if ws == [] then docs
    else ExecuteDocs(ctx, sem, ExecuteDocsAll(ctx, sem, docs, ws[..|ws| - 1]), ws[|ws| - 1])
  }

  lemma ExecuteRefines(ctx: Context, sem: Semantics, nonce: Nonces, rows: seq<Row>, w: Write)
    requires WellFormedTable(ctx) && Sound(ctx, rows) && WriteOk(ctx, w)
    ensures Docs(ctx, Execute(ctx, sem, nonce, rows, w)) == ExecuteDocs(ctx, sem, Docs(ctx, rows), w)
    ensures Sound(ctx, Execute(ctx, sem, nonce, rows, w))
  {
    match w
    case Insert(doc) =>
      if !NothingToStore(doc) { InsertRefines(ctx, nonce, rows, doc); }
    case Update(filter, changes) =>
      if !NothingToStore(changes) { UpdateRefines(ctx, sem, nonce, rows, filter, changes); }
  }

  lemma InsertRefines(ctx: Context, nonce: Nonces, rows: seq<Row>, doc: Dict)
    requires WellFormedTable(ctx) && Sound(ctx, rows) && Storable(ctx, doc)
    ensures Docs(ctx, rows + [InsertedRow(ctx, nonce, doc)]) == Docs(ctx, rows) + [Overlay(ctx, map[], ToDoc(doc))]
    ensures Sound(ctx, rows + [InsertedRow(ctx, nonce, doc)])
  {
    InsertedRowReads(ctx, nonce, doc);
  }

  lemma UpdateRefines(ctx: Context, sem: Semantics, nonce: Nonces, rows: seq<Row>, filter: Filter, changes: Dict)
    requires WellFormedTable(ctx) && Sound(ctx, rows) && Storable(ctx, changes) && Supported(ctx, filter)
    ensures Docs(ctx, UpdatedRows(ctx, sem, nonce, filter, changes, rows)) ==
            UpdatedDocs(ctx, sem, filter, ToDoc(changes), Docs(ctx, rows))
    ensures Sound(ctx, UpdatedRows(ctx, sem, nonce, filter, changes, rows))
  {
    var rows' := UpdatedRows(ctx, sem, nonce, filter, changes, rows);
    forall i | 0 <= i < |rows|
      ensures ReadsAsUpdated(ctx, sem, filter, ToDoc(changes), rows[i], rows'[i])
    {
      UpdatedRowReads(ctx, sem, nonce, filter, changes, rows[i]);
    }
    UpdatedDocsFromRows(ctx, sem, filter, ToDoc(changes), rows, rows');
  }

  ghost predicate ReadsAsUpdated(ctx: Context, sem: Semantics, filter: Filter, s: Doc, row: Row, row': Row) {
    && RowOk(ctx, row') && TextOverflow(row')
    && RowToDoc(ctx, row') == if Matches(sem, filter, RowToDoc(ctx, row)) then Overlay(ctx, RowToDoc(ctx, row), s)
                              else RowToDoc(ctx, row)
  }

  lemma UpdatedDocsFromRows(ctx: Context, sem: Semantics, filter: Filter, s: Doc, rows: seq<Row>, rows': seq<Row>)
    requires |rows| == |rows'|
    requires forall i | 0 <= i < |rows| :: ReadsAsUpdated(ctx, sem, filter, s, rows[i], rows'[i])
    ensures Docs(ctx, rows') == UpdatedDocs(ctx, sem, filter, s, Docs(ctx, rows)) && Sound(ctx, rows')
  {
  }

  /**
   * The SQL table refines a plain list of documents: after any history of inserts and
   * updates, encrypted or not, it reads as the same history carried out on documents.
   */
  lemma {:induction false} HistoryRefines(ctx: Context, sem: Semantics, nonces: nat -> Nonces, rows: seq<Row>,
                                          ws: seq<Write>)
    requires WellFormedTable(ctx) && Sound(ctx, rows)
    requires forall i | 0 <= i < |ws| :: WriteOk(ctx, ws[i])
    ensures Docs(ctx, ExecuteAll(ctx, sem, nonces, rows, ws)) == ExecuteDocsAll(ctx, sem, Docs(ctx, rows), ws)
    ensures Sound(ctx, ExecuteAll(ctx, sem, nonces, rows, ws))
  {
    if ws != [] {
      hide Execute, ExecuteDocs, Sound, WriteOk, WellFormedTable, RowToDoc;
      var n := |ws| - 1;
      HistoryRefines(ctx, sem, nonces, rows, ws[..n]);
      ExecuteRefines(ctx, sem, nonces(n), ExecuteAll(ctx, sem, nonces, rows, ws[..n]), ws[n]);
    }
  }

  /** The rows the database picks for a clause, in table order. */
  function SelectedRows(sem: Semantics, clause: Option<seq<Token>>, params: seq<Param>, rows: seq<Row>): seq<Row> {
    if rows == [] then []
    else (if Selects(sem, clause, rows[0], params) then [rows[0]] else []) +
         SelectedRows(sem, clause, params, rows[1..])
  }

  function QueryRows(ctx: Context, sem: Semantics, filter: Filter, rows: seq<Row>): seq<Doc> {
    Docs(ctx, SelectedRows(sem, WhereText(ctx, filter, []), EmitFilter(ctx, filter, []).params, rows))
  }

  /** A query, wherever its parameters start, picks the rows whose documents match. */
  lemma {:induction false} SelectionReadsMatches(ctx: Context, sem: Semantics, filter: Filter, params: seq<Param>,
                                                 rows: seq<Row>)
    requires WellFormedTable(ctx) && Sound(ctx, rows) && Supported(ctx, filter)
    ensures var all := EmitFilter(ctx, filter, params).params;
            Docs(ctx, SelectedRows(sem, WhereText(ctx, filter, params), all, rows)) ==
            MatchingDocs(sem, filter, Docs(ctx, rows))
  {
    if rows != [] {
      var row, all := rows[0], EmitFilter(ctx, filter, params).params;
      RowStores(ctx, row);
      WhereSelectsMatches(ctx, sem, filter, row, RowToDoc(ctx, row), params, all);
      SelectionReadsMatches(ctx, sem, filter, params, rows[1..]);
      assert Docs(ctx, rows)[1..] == Docs(ctx, rows[1..]);
      var more := SelectedRows(sem, WhereText(ctx, filter, params), all, rows[1..]);
      assert Docs(ctx, [row] + more) == [RowToDoc(ctx, row)] + Docs(ctx, more) by {
        assert ([row] + more)[1..] == more;
      }
    }
  }

  lemma QueryReturnsMatches(ctx: Context, sem: Semantics, filter: Filter, rows: seq<Row>)
    requires WellFormedTable(ctx) && Sound(ctx, rows) && Supported(ctx, filter)
    ensures QueryRows(ctx, sem, filter, rows) == MatchingDocs(sem, filter, Docs(ctx, rows))
  {
    SelectionReadsMatches(ctx, sem, filter, [], rows);
  }

  lemma {:induction false} MatchingAppend(sem: Semantics, filter: Filter, docs: seq<Doc>, doc: Doc)
    ensures MatchingDocs(sem, filter, docs + [doc]) ==
            MatchingDocs(sem, filter, docs) + if Matches(sem, filter, doc) then [doc] else []
  {
    if docs == [] {
      assert [] + [doc] == [doc];
      assert MatchingDocs(sem, filter, [doc][1..]) == [];
    } else {
      assert (docs + [doc])[1..] == docs[1..] + [doc];
      MatchingAppend(sem, filter, docs[1..], doc);
    }
  }

  /** Unmarked texts under declared text columns or undeclared keys. */
  predicate PlainTexts(ctx: Context, d: Doc) {
    forall k | k in d ::
      && !IsIndexColumn(ctx, k) && (k in ctx.columns ==> ctx.columns[k] == TextType)
      && d[k].Text? && !("pii1:" <= d[k].s)
  }

  lemma PlainTextsStore(ctx: Context, doc: Dict)
    requires WellFormedTable(ctx) && UniqueKeys(doc) && PlainTexts(ctx, ToDoc(doc))
    ensures Storable(ctx, doc)
  {
    hide ToDoc;
  }

  lemma AskingIsSupported(ctx: Context, c: string, s: string)
    requires WellFormedTable(ctx) && c in ctx.encrypted
    ensures Supported(ctx, Filter([On(c, Is(Text(s)))]))
  {
  }

  lemma AskingMatches(sem: Semantics, c: string, s: string, d: Doc)
    requires c in d && d[c] == Text(s)
    ensures Matches(sem, Filter([On(c, Is(Text(s)))]), d)
  {
  }

  lemma PlainOverlay(ctx: Context, d: Doc)
    requires PlainTexts(ctx, d)
    ensures Overlay(ctx, map[], d) == map k | k in d && k != "_id" :: d[k]
  {
  }

  /** A document of plain texts is found by its personal data as soon as it is inserted: the query
      for that value answers what it did before and then the new document. */
  lemma InsertedIsFound(ctx: Context, sem: Semantics, nonce: Nonces, rows: seq<Row>, doc: Dict, c: string, s: string)
    requires WellFormedTable(ctx) && Sound(ctx, rows) && UniqueKeys(doc) && PlainTexts(ctx, ToDoc(doc))
    requires c in ctx.encrypted && c in ToDoc(doc) && ToDoc(doc)[c] == Text(s)
    ensures var asking, d := Filter([On(c, Is(Text(s)))]), ToDoc(doc);
            QueryRows(ctx, sem, asking, Execute(ctx, sem, nonce, rows, Insert(doc))) ==
            QueryRows(ctx, sem, asking, rows) + [map k | k in d && k != "_id" :: d[k]]
  {
    hide PlainTexts, Storable, Supported, ToDoc, QueryRows, Matches, Sound;
    var asking, d := Filter([On(c, Is(Text(s)))]), ToDoc(doc);
    assert c != "_id";
    var rows' := Execute(ctx, sem, nonce, rows, Insert(doc));
    PlainTextsStore(ctx, doc);
    AskingIsSupported(ctx, c, s);
    ExecuteRefines(ctx, sem, nonce, rows, Insert(doc));
    QueryReturnsMatches(ctx, sem, asking, rows);
    QueryReturnsMatches(ctx, sem, asking, rows');
    var stored := map k | k in d && k != "_id" :: d[k];
    PlainOverlay(ctx, d);
    MatchingAppend(sem, asking, Docs(ctx, rows), stored);
    AskingMatches(sem, c, s, stored);
  }

  // --------------------------------------------------------- nothing left in plaintext

  /** With a key, every encrypted cell is empty or carries the ciphertext marker. */
  predicate AtRest(ctx: Context, row: Row) {
    ctx.crypto.enabled ==> forall c | c in ctx.encrypted ::
      Get(row.cols, c) == Null || (Get(row.cols, c).Text? && "pii1:" <= Get(row.cols, c).s)
  }

  lemma WrittenAtRest(ctx: Context, nonce: Nonces, row: Row, changes: Dict)
    requires WellFormedTable(ctx) && Acceptable(ctx, changes) && AtRest(ctx, row)
    ensures AtRest(ctx, Written(ctx, nonce, row, changes))
  {
    hide Written;
    forall c | Ciphered(ctx, c)
      ensures var v := Get(Written(ctx, nonce, row, changes).cols, c); v == Null || (v.Text? && "pii1:" <= v.s)
    {
      WrittenCell(ctx, nonce, row, changes, c);
      if c in ToDoc(changes) {
        assert TypedEntry(ctx, c, ToDoc(changes)[c]);
        if ToDoc(changes)[c].Text? { EncryptRoundTrip(ctx.crypto, nonce(c), ToDoc(changes)[c].s); }
      }
    }
  }

  lemma UpdateIsWrite(ctx: Context, sem: Semantics, nonce: Nonces, filter: Filter, changes: Dict, row: Row)
    requires WellFormedTable(ctx) && Acceptable(ctx, changes)
    ensures UpdatedRow(ctx, sem, nonce, filter, changes, row) in {row, Written(ctx, nonce, row, changes)}
  {
    var (assigns, params) := UpdateSet(ctx, nonce, changes, []);
    hide UpdateSet, EncryptedDict, AssignedAll, Selects, WhereText;
    EncryptedDictEffect(ctx, nonce, changes);
    UpdateSetEffect(ctx, nonce, changes, [], EmitFilter(ctx, filter, params).params, row);
  }

  /** After any history of acceptable writes no personal data stands in plaintext in an encrypted
      column of the table, whatever was matched and overwritten on the way. */
  lemma {:induction false} NothingInPlaintext(ctx: Context, sem: Semantics, nonces: nat -> Nonces, ws: seq<Write>)
    requires WellFormedTable(ctx) && forall i | 0 <= i < |ws| :: WriteOk(ctx, ws[i])
    ensures forall row | row in ExecuteAll(ctx, sem, nonces, [], ws) :: AtRest(ctx, row)
  {
    if ws != [] {
      var n := |ws| - 1;
      NothingInPlaintext(ctx, sem, nonces, ws[..n]);
      ExecuteAtRest(ctx, sem, nonces(n), ExecuteAll(ctx, sem, nonces, [], ws[..n]), ws[n]);
    }
  }

  lemma ExecuteAtRest(ctx: Context, sem: Semantics, nonce: Nonces, rows: seq<Row>, w: Write)
    requires WellFormedTable(ctx) && WriteOk(ctx, w) && forall row | row in rows :: AtRest(ctx, row)
    ensures forall row | row in Execute(ctx, sem, nonce, rows, w) :: AtRest(ctx, row)
  {
    hide AtRest, Written, UpdatedRow, InsertedRow;
    match w
    case Insert(doc) =>
      InsertIsWrite(ctx, nonce, doc);
      EmptyAtRest(ctx);
      WrittenAtRest(ctx, nonce, Row(map[], map[]), doc);
    case Update(filter, changes) =>
      forall i | 0 <= i < |rows|
        ensures AtRest(ctx, UpdatedRow(ctx, sem, nonce, filter, changes, rows[i]))
      {
        assert rows[i] in rows;
        UpdateIsWrite(ctx, sem, nonce, filter, changes, rows[i]);
        WrittenAtRest(ctx, nonce, rows[i], changes);
      }
  }

  lemma EmptyAtRest(ctx: Context)
    ensures AtRest(ctx, Row(map[], map[]))
  {
  }

  // ------------------------------------------------------ encryption is transparent

  function WithoutKey(ctx: Context): Context {
    ctx.(crypto := ctx.crypto.(enabled := false))
  }

  lemma {:induction false} SupportedWithoutKey(ctx: Context, filter: Filter)
    requires WellFormedTable(ctx) && Supported(ctx, filter)
    ensures Supported(WithoutKey(ctx), filter)
    decreases filter
  {
    forall i | 0 <= i < |filter.clauses|
      ensures SupportedClause(WithoutKey(ctx), filter.clauses[i])
    {
      var clause := filter.clauses[i];
      assert SupportedClause(ctx, clause);
      match clause
      case On(key, cond) => ConditionWithoutKey(ctx, key, cond);
      case Or(branches) =>
        forall j | 0 <= j < |branches|
          ensures Supported(WithoutKey(ctx), branches[j])
        {
          SupportedWithoutKey(ctx, branches[j]);
        }
    }
  }

  lemma ConditionWithoutKey(ctx: Context, key: string, cond: Cond)
    requires WellFormedTable(ctx) && SupportedCond(ctx, key, cond)
    ensures SupportedCond(WithoutKey(ctx), key, cond)
  {
    var plain := WithoutKey(ctx);
    if Ciphered(ctx, key) {
      assert TypeOf(plain, key) == TextType;
    }
  }

  lemma OverlayWithoutKey(ctx: Context, docs: seq<Doc>, sem: Semantics, ws: seq<Write>)
    ensures ExecuteDocsAll(ctx, sem, docs, ws) == ExecuteDocsAll(WithoutKey(ctx), sem, docs, ws)
  {
    if ws != [] {
      var n := |ws| - 1;
      OverlayWithoutKey(ctx, docs, sem, ws[..n]);
      var before := ExecuteDocsAll(ctx, sem, docs, ws[..n]);
      forall d, s
        ensures Overlay(ctx, d, s) == Overlay(WithoutKey(ctx), d, s)
      {
      }
      if ws[n].Update? {
        assert UpdatedDocs(ctx, sem, ws[n].filter, ToDoc(ws[n].changes), before) ==
               UpdatedDocs(WithoutKey(ctx), sem, ws[n].filter, ToDoc(ws[n].changes), before);
      }
    }
  }

  /**
   * Encryption is transparent: an encrypted table and a plaintext table that start empty and
   * receive the same history answer every supported query with the same documents in the
   * same order, whatever nonces either of them drew.
   */
  lemma EncryptionTransparent(ctx: Context, sem: Semantics, nonces: nat -> Nonces, nonces': nat -> Nonces,
                              ws: seq<Write>, filter: Filter)
    requires WellFormedTable(ctx) && Supported(ctx, filter)
    requires forall i | 0 <= i < |ws| :: WriteOk(ctx, ws[i])
    ensures QueryRows(ctx, sem, filter, ExecuteAll(ctx, sem, nonces, [], ws)) ==
            QueryRows(WithoutKey(ctx), sem, filter, ExecuteAll(WithoutKey(ctx), sem, nonces', [], ws))
  {
    var plain := WithoutKey(ctx);
    assert WellFormedTable(plain);
    forall i | 0 <= i < |ws|
      ensures WriteOk(plain, ws[i])
    {
      assert WriteOk(ctx, ws[i]);
      var d := if ws[i].Insert? then ws[i].doc else ws[i].changes;
      assert forall k | k in ToDoc(d) :: TypedEntry(ctx, k, ToDoc(d)[k]) ==> TypedEntry(plain, k, ToDoc(d)[k]);
      if ws[i].Update? { SupportedWithoutKey(ctx, ws[i].filter); }
    }
    SupportedWithoutKey(ctx, filter);
    HistoryRefines(ctx, sem, nonces, [], ws);
    HistoryRefines(plain, sem, nonces', [], ws);
    OverlayWithoutKey(ctx, [], sem, ws);
    QueryReturnsMatches(ctx, sem, filter, ExecuteAll(ctx, sem, nonces, [], ws));
    QueryReturnsMatches(plain, sem, filter, ExecuteAll(plain, sem, nonces', [], ws));
  }

  // ------------------------------------------------------------------ the running code

  method EncryptDoc(ctx: Context, nonce: Nonces, doc: Dict) returns (out: Dict)
    ensures out == EncryptedDict(ctx, nonce, doc)
  {
    out := doc;
    if !ctx.crypto.enabled {
      return;
    }
    var enc := ctx.encrypted;
    assert enc[0..] == enc;
    for i := 0 to |enc|
      invariant EncryptColumns(ctx, nonce, enc[i..], out) == EncryptColumns(ctx, nonce, enc, doc)
    {
      var col := enc[i];
      assert enc[i..][0] == col && enc[i..][1..] == enc[i + 1..];
      var held := ToDoc(out);
      if col in held {
        var val := held[col];
        if val == Null {
          out := Put(out, IndexColumn(col), Null);
        } else {
          out := Put(out, IndexColumn(col), Text(ctx.crypto.hmac(Str(ctx, val))));
          out := Put(out, col, Text(Encrypt(ctx.crypto, nonce(col), Str(ctx, val))));
        }
      }
    }
  }

  lemma SplitStep(ctx: Context, doc: Dict, i: nat)
    requires i < |doc|
    ensures var e, more := doc[i], doc[i + 1..];
            && Declared(ctx, doc[i..]) ==
               (if e.key != "_id" && e.key in ctx.columns then [Entry(e.key, ctx.coerce(ctx.columns[e.key], e.value))]
                else []) + Declared(ctx, more)
            && Extra(ctx, doc[i..]) == (if e.key != "_id" && e.key !in ctx.columns then [e] else []) + Extra(ctx, more)
  {
    assert doc[i..][0] == doc[i] && doc[i..][1..] == doc[i + 1..];
  }

  method SplitDoc(ctx: Context, doc: Dict) returns (declared: Dict, extra: Dict)
    ensures declared == Declared(ctx, doc) && extra == Extra(ctx, doc)
  {
    declared, extra := [], [];
    assert doc[0..] == doc;
    assert declared + Declared(ctx, doc) == Declared(ctx, doc) && extra + Extra(ctx, doc) == Extra(ctx, doc);
    for i := 0 to |doc|
      invariant declared + Declared(ctx, doc[i..]) == Declared(ctx, doc)
      invariant extra + Extra(ctx, doc[i..]) == Extra(ctx, doc)
    {
      var e := doc[i];
      SplitStep(ctx, doc, i);
      if e.key != "_id" {
        if e.key in ctx.columns {
          declared := declared + [Entry(e.key, ctx.coerce(ctx.columns[e.key], e.value))];
        } else {
          extra := extra + [e];
        }
      }
    }
    assert declared + [] == declared && extra + [] == extra;
  }

  method ColumnParts(declared: Dict, params: ParamList) returns (parts: seq<Assign>)
    modifies params
    ensures (parts, params.items) == AssignColumns(declared, old(params.items))
  {
    parts := [];
    ghost var whole := AssignColumns(declared, params.items);
    assert declared[0..] == declared && parts + whole.0 == whole.0;
    for i := 0 to |declared|
      invariant var (rest, items) := AssignColumns(declared[i..], params.items);
                whole == (parts + rest, items)
    {
      assert declared[i..][0] == declared[i] && declared[i..][1..] == declared[i + 1..];
      ghost var before := params.items;
      var ph := params.Append(Scalar(declared[i].value));
      ghost var (rest, items) := AssignColumns(declared[i + 1..], params.items);
      var part := SetColumn(declared[i].key, ph);
      assert ph == |before| + 1 && parts + ([part] + rest) == (parts + [part]) + rest;
      parts := parts + [part];
    }
    assert parts + [] == parts;
  }

  /** The SET list, its parameters appended to the shared list. */
  method BuildUpdateSet(ctx: Context, nonce: Nonces, changes: Dict, params: ParamList) returns (parts: seq<Assign>)
    modifies params
    ensures (parts, params.items) == UpdateSet(ctx, nonce, changes, old(params.items))
  {
    var doc := EncryptDoc(ctx, nonce, changes);
    var declared, extra := SplitDoc(ctx, doc);
    parts := ColumnParts(declared, params);
    if ToDoc(extra) != map[] {
      var ph := params.Append(Object(ToDoc(extra)));
      parts := parts + [MergeExtra(ph)];
    }
  }

  method BuildInsert(ctx: Context, nonce: Nonces, doc: Dict) returns (parts: seq<Assign>, items: seq<Param>)
    ensures (parts, items) == InsertSet(ctx, nonce, doc)
  {
    var params := new ParamList();
    var enc := EncryptDoc(ctx, nonce, doc);
    var declared, extra := SplitDoc(ctx, enc);
    parts := ColumnParts(declared, params);
    if ToDoc(extra) != map[] {
      var ph := params.Append(Object(ToDoc(extra)));
      parts := parts + [SetExtra(ph)];
    }
    items := params.items;
  }

  /** Rebuild a document column by column, then lay the overflow object over it. */
  method ReadRow(ctx: Context, row: Row) returns (doc: Doc)
    ensures doc == RowToDoc(ctx, row)
  {
    doc := map[];
    var todo := ctx.columns.Keys;
    while todo != {}
      invariant todo <= ctx.columns.Keys
      invariant doc == ReadColumns(ctx, row, ctx.columns.Keys - todo)
      decreases todo
    {
      var col :| col in todo;
      ReadOneMore(ctx, row, ctx.columns.Keys - todo, col);
      assert ctx.columns.Keys - (todo - {col}) == ctx.columns.Keys - todo + {col};
      todo := todo - {col};
      if !IsIndexColumn(ctx, col) && Get(row.cols, col) != Null {
        doc := doc[col := Plain(ctx, col, row.cols[col])];
      }
    }
    assert ReadColumns(ctx, row, ctx.columns.Keys) + row.extra == RowToDoc(ctx, row);
    doc := doc + row.extra;
  }

  function ReadColumns(ctx: Context, row: Row, cols: set<string>): Doc {
    map k | k in cols && !IsIndexColumn(ctx, k) && Get(row.cols, k) != Null :: Plain(ctx, k, row.cols[k])
  }

  lemma ReadOneMore(ctx: Context, row: Row, cols: set<string>, col: string)
    ensures ReadColumns(ctx, row, cols + {col}) ==
            if !IsIndexColumn(ctx, col) && Get(row.cols, col) != Null
            then ReadColumns(ctx, row, cols)[col := Plain(ctx, col, row.cols[col])]
            else ReadColumns(ctx, row, cols)
  {
  }

  class Collection {
    const ctx: Context
    const sem: Semantics
    var rows: seq<Row>

    ghost predicate Valid()
      reads this
    {
      WellFormedTable(ctx) && Sound(ctx, rows)
    }

    constructor (ctx: Context, sem: Semantics)
      requires WellFormedTable(ctx)
      ensures Valid() && this.ctx == ctx && this.sem == sem && rows == []
    {
      this.ctx, this.sem, rows := ctx, sem, [];
    }

    method InsertOne(nonce: Nonces, doc: Dict) returns (stored: bool)
      requires Valid() && Storable(ctx, doc)
      modifies this
      ensures Valid() && stored == !NothingToStore(doc)
      ensures rows == Execute(ctx, sem, nonce, old(rows), Insert(doc))
      ensures Docs(ctx, rows) == Docs(ctx, old(rows)) + if stored then [Overlay(ctx, map[], ToDoc(doc))] else []
    {
      var parts, items := BuildInsert(ctx, nonce, doc);
      EmptyAssigns(ctx, nonce, doc, []);
      stored := parts != [];
      ExecuteRefines(ctx, sem, nonce, rows, Insert(doc));
      if stored {
        rows := rows + [AssignedAll(Row(map[], map[]), parts, items)];
      }
    }

    /** Every matching row is updated. None: the statement was refused and nothing changed. */
    method UpdateOne(nonce: Nonces, filter: Filter, changes: Dict) returns (matched: Option<nat>)
      requires Valid() && Storable(ctx, changes) && Supported(ctx, filter)
      modifies this
      ensures Valid()
      ensures rows == Execute(ctx, sem, nonce, old(rows), Update(filter, changes))
      ensures matched == if NothingToStore(changes) then None
                         else Some(|MatchingDocs(sem, filter, Docs(ctx, old(rows)))|)
      ensures Docs(ctx, rows) == if NothingToStore(changes) then Docs(ctx, old(rows))
                                 else UpdatedDocs(ctx, sem, filter, ToDoc(changes), Docs(ctx, old(rows)))
    {
      hide NothingToStore, Acceptable, Supported, WellFormedTable, Sound, WhereText, EmitFilter, UpdateSet;
      var params := new ParamList();
      var parts := BuildUpdateSet(ctx, nonce, changes, params);
      EmptyAssigns(ctx, nonce, changes, []);
      ghost var setParams := params.items;
      ExecuteRefines(ctx, sem, nonce, rows, Update(filter, changes));
      if parts == [] {
        return None;
      }
      var clause := BuildWhere(ctx, filter, params);
      SelectionReadsMatches(ctx, sem, filter, setParams, rows);
      var updated, count := RunUpdate(sem, parts, clause, params.items, rows);
      assert updated == UpdatedRows(ctx, sem, nonce, filter, changes, rows);
      rows := updated;
      matched := Some(count);
    }

    method Find(filter: Filter) returns (docs: seq<Doc>)
      requires Valid() && Supported(ctx, filter)
      ensures docs == MatchingDocs(sem, filter, Docs(ctx, rows))
    {
      var params := new ParamList();
      var clause := BuildWhere(ctx, filter, params);
      QueryReturnsMatches(ctx, sem, filter, rows);
      docs := ReadRows(ctx, SelectedRows(sem, clause, params.items, rows));
    }
  }

  method ReadRows(ctx: Context, fetched: seq<Row>) returns (docs: seq<Doc>)
    ensures docs == Docs(ctx, fetched)
  {
    hide RowToDoc;
    docs := [];
    for i := 0 to |fetched|
      invariant docs == Docs(ctx, fetched)[..i]
    {
      var doc := ReadRow(ctx, fetched[i]);
      docs := docs + [doc];
    }
  }

  /** The database's side of an UPDATE: every selected row is rewritten, and they are counted. */
  method RunUpdate(sem: Semantics, parts: seq<Assign>, clause: Option<seq<Token>>, params: seq<Param>, rows: seq<Row>)
    returns (updated: seq<Row>, count: nat)
    ensures |updated| == |rows|
    ensures forall i | 0 <= i < |rows| ::
              updated[i] == if Selects(sem, clause, rows[i], params)
                            then AssignedAll(rows[i], parts, params) else rows[i]
    ensures count == |SelectedRows(sem, clause, params, rows)|
  {
    updated, count := rows, 0;
    assert rows[0..] == rows;
    for i := 0 to |rows|
      invariant |updated| == |rows|
      invariant forall j | 0 <= j < |rows| ::
                  updated[j] == if j < i && Selects(sem, clause, rows[j], params)
                                then AssignedAll(rows[j], parts, params) else rows[j]
      invariant count + |SelectedRows(sem, clause, params, rows[i..])| == |SelectedRows(sem, clause, params, rows)|
    {
      assert rows[i..][0] == rows[i] && rows[i..][1..] == rows[i + 1..];
      if Selects(sem, clause, rows[i], params) {
        updated := updated[i := AssignedAll(rows[i], parts, params)];
        count := count + 1;
      }
    }
  }
}
