/** Documents into rows and back: field encryption, column / overflow split, SET lists. */
module Documents {
  import opened Values
  import opened PiiCrypto
  import opened Sql
  import opened QueryCompiler

  datatype Entry = Entry(key: string, value: Value)

  /** A Python dict: entries in insertion order, no key twice. */
  type Dict = seq<Entry>

  function ToDoc(d: Dict): Doc {
    if d == [] then map[] else ToDoc(d[1..])[d[0].key := d[0].value]
  }

  predicate UniqueKeys(d: Dict) {
    d == [] || (d[0].key !in ToDoc(d[1..]) && UniqueKeys(d[1..]))
  }

  /** `d[k] = v`: in place when the key exists, else at the end. */
  function Put(d: Dict, k: string, v: Value): Dict {
    if d == [] then [Entry(k, v)]
    else if d[0].key == k then [Entry(k, v)] + d[1..]
    else [d[0]] + Put(d[1..], k, v)
  }

  lemma ConsEffect(e: Entry, d: Dict)
    ensures ToDoc([e] + d) == ToDoc(d)[e.key := e.value]
    ensures UniqueKeys([e] + d) <==> e.key !in ToDoc(d) && UniqueKeys(d)
  {
    assert ([e] + d)[1..] == d;
  }

  lemma {:induction false} PutEffect(d: Dict, k: string, v: Value)
    requires UniqueKeys(d)
    ensures ToDoc(Put(d, k, v)) == ToDoc(d)[k := v] && UniqueKeys(Put(d, k, v))
  {
    if d == [] {
      ConsEffect(Entry(k, v), []);
      assert [Entry(k, v)] + [] == [Entry(k, v)];
    } else if d[0].key == k {
      ConsEffect(Entry(k, v), d[1..]);
    } else {
      PutEffect(d[1..], k, v);
      ConsEffect(d[0], Put(d[1..], k, v));
    }
  }

  // ------------------------------------------------------------------ specification

  /** The value an encrypted column receives, and the value of its blind index. */
  function CipherOf(ctx: Context, nonce: string -> string, col: string, v: Value): Value {
    if v == Null then Null else Text(Encrypt(ctx.crypto, nonce(col), Str(ctx, v)))
  }

  function IndexOf(ctx: Context, v: Value): Value {
    if v == Null then Null else Text(ctx.crypto.hmac(Str(ctx, v)))
  }

  function EncryptColumn(ctx: Context, nonce: string -> string, col: string, d: Dict): Dict {
    var doc := ToDoc(d);
    if col !in doc then d
    else if doc[col] == Null then Put(d, IndexColumn(col), Null)
    else Put(Put(d, IndexColumn(col), IndexOf(ctx, doc[col])), col, CipherOf(ctx, nonce, col, doc[col]))
  }

  function EncryptColumns(ctx: Context, nonce: string -> string, cols: seq<string>, d: Dict): Dict {
    if cols == [] then d
    else EncryptColumns(ctx, nonce, cols[1..], EncryptColumn(ctx, nonce, cols[0], d))
  }

  function EncryptedDict(ctx: Context, nonce: string -> string, d: Dict): Dict {
    if ctx.crypto.enabled then EncryptColumns(ctx, nonce, ctx.encrypted, d) else d
  }

  function Declared(ctx: Context, d: Dict): Dict {
    if d == [] then []
    else if d[0].key != "_id" && d[0].key in ctx.columns then
      [Entry(d[0].key, ctx.coerce(ctx.columns[d[0].key], d[0].value))] + Declared(ctx, d[1..])
    else Declared(ctx, d[1..])
  }

  function Extra(ctx: Context, d: Dict): Dict {
    if d == [] then []
    else if d[0].key != "_id" && d[0].key !in ctx.columns then [d[0]] + Extra(ctx, d[1..])
    else Extra(ctx, d[1..])
  }

  /** One item of a SET list or of an INSERT's column list. */
  datatype Assign = SetColumn(name: string, ph: nat) | MergeExtra(ph: nat) | SetExtra(ph: nat)

  function AssignColumns(declared: Dict, params: seq<Param>): (seq<Assign>, seq<Param>) {
    if declared == [] then ([], params)
    else
      var (more, params') := AssignColumns(declared[1..], params + [Scalar(declared[0].value)]);
      ([SetColumn(declared[0].key, |params| + 1)] + more, params')
  }

  function UpdateSet(ctx: Context, nonce: string -> string, changes: Dict, params: seq<Param>)
    : (seq<Assign>, seq<Param>)
  {
    var d := EncryptedDict(ctx, nonce, changes);
    var (assigns, params') := AssignColumns(Declared(ctx, d), params);
    var extra := ToDoc(Extra(ctx, d));
    if extra == map[] then (assigns, params')
    else (assigns + [MergeExtra(|params'| + 1)], params' + [Object(extra)])
  }

  function InsertSet(ctx: Context, nonce: string -> string, doc: Dict): (seq<Assign>, seq<Param>) {
    var d := EncryptedDict(ctx, nonce, doc);
    var (assigns, params) := AssignColumns(Declared(ctx, d), []);
    var extra := ToDoc(Extra(ctx, d));
    if extra == map[] then (assigns, params)
    else (assigns + [SetExtra(|params| + 1)], params + [Object(extra)])
  }

  /** How the database carries out one item. */
  function Assigned(row: Row, a: Assign, params: seq<Param>): Row {
    match a
    case SetColumn(name, ph) =>
      if 1 <= ph <= |params| && params[ph - 1].Scalar? then
        row.(cols := row.cols[name := params[ph - 1].v])
      else row
    case MergeExtra(ph) =>
      if 1 <= ph <= |params| && params[ph - 1].Object? then
        row.(extra := row.extra + params[ph - 1].fields)
      else row
    case SetExtra(ph) =>
      if 1 <= ph <= |params| && params[ph - 1].Object? then
        row.(extra := params[ph - 1].fields)
      else row
  }

  function AssignedAll(row: Row, assigns: seq<Assign>, params: seq<Param>): Row
    decreases |assigns|
  {
    if assigns == [] then row
    else AssignedAll(Assigned(row, assigns[0], params), assigns[1..], params)
  }

  function Plain(ctx: Context, col: string, v: Value): Value {
    if col in ctx.encrypted && v.Text? then Text(Decrypt(ctx.crypto, v.s)) else v
  }

  /** The document a row is read back as. */
  function RowToDoc(ctx: Context, row: Row): Doc {
    (map k | k in ctx.columns && !IsIndexColumn(ctx, k) && Get(row.cols, k) != Null ::
       Plain(ctx, k, row.cols[k])) + row.extra
  }

  // ------------------------------------------------------------------ invariants

  /** A ciphered cell and its blind index agree: both null, or the index is that of the plaintext. */
  predicate CellOk(ctx: Context, row: Row, col: string) {
    match Get(row.cols, col)
    case Null => Get(row.cols, IndexColumn(col)) == Null
    case Text(s) => Get(row.cols, IndexColumn(col)) == Text(ctx.crypto.hmac(Decrypt(ctx.crypto, s)))
    case _ => false
  }

  predicate RowOk(ctx: Context, row: Row) {
    && (forall k | k in row.extra :: k !in ctx.columns)
    && (ctx.crypto.enabled ==> forall c | c in ctx.encrypted :: CellOk(ctx, row, c))
  }

  /** What callers hand to insert and update: no surrogate keys, typed values. */
  predicate Typed(ctx: Context, d: Dict) {
    && UniqueKeys(d)
    && forall k | k in ToDoc(d) :: TypedEntry(ctx, k, ToDoc(d)[k])
  }

  predicate TypedEntry(ctx: Context, k: string, v: Value) {
    && !IsIndexColumn(ctx, k)
    && (k in ctx.columns ==> ctx.coerce(ctx.columns[k], v) == v)
    && (k in ctx.encrypted ==> v == Null || v.Text?)
  }

  /** Personal data that is not taken for a ciphertext of something else. */
  predicate FaithfulEntry(ctx: Context, k: string, v: Value) {
    k in ctx.encrypted && v.Text? ==> Faithful(ctx.crypto, v.s)
  }

  predicate Acceptable(ctx: Context, d: Dict) {
    Typed(ctx, d) && forall k | k in ToDoc(d) :: FaithfulEntry(ctx, k, ToDoc(d)[k])
  }

  lemma RowStores(ctx: Context, row: Row)
    requires WellFormedTable(ctx) && RowOk(ctx, row)
    ensures Stores(ctx, row, RowToDoc(ctx, row))
  {
    var doc := RowToDoc(ctx, row);
    forall k | k in ctx.columns && !IsIndexColumn(ctx, k) && !Ciphered(ctx, k)
      ensures Get(row.cols, k) == Get(doc, k)
    {
      if k in ctx.encrypted && Get(row.cols, k).Text? {
        DisabledIsIdentity(ctx.crypto, "", row.cols[k].s);
      }
    }
    forall k | Ciphered(ctx, k)
      ensures StoresCiphered(ctx, row, k, Get(doc, k))
    {
      assert CellOk(ctx, row, k);
    }
  }

  // ------------------------------------------------------------ encryption of a document

  lemma {:induction false} EncryptColumnsLeave(ctx: Context, nonce: string -> string, cols: seq<string>, d: Dict,
                                               k: string)
    requires UniqueKeys(d)
    requires forall c | c in cols :: k != c && k != IndexColumn(c)
    ensures var before, after := ToDoc(d), ToDoc(EncryptColumns(ctx, nonce, cols, d));
            (k in after <==> k in before) && (k in before ==> after[k] == before[k])
  {
    if cols != [] {
      assert cols[0] in cols && forall c | c in cols[1..] :: c in cols;
      EncryptColumnEffect(ctx, nonce, cols[0], d);
      EncryptColumnsLeave(ctx, nonce, cols[1..], EncryptColumn(ctx, nonce, cols[0], d), k);
    }
  }

  lemma EncryptColumnEffect(ctx: Context, nonce: string -> string, c: string, d: Dict)
    requires UniqueKeys(d)
    ensures UniqueKeys(EncryptColumn(ctx, nonce, c, d))
    ensures var before, after := ToDoc(d), ToDoc(EncryptColumn(ctx, nonce, c, d));
            after == if c in before
                     then before[IndexColumn(c) := IndexOf(ctx, before[c])][c := CipherOf(ctx, nonce, c, before[c])]
                     else before
  {
    assert |IndexColumn(c)| != |c|;
    var before := ToDoc(d);
    if c in before {
      PutEffect(d, IndexColumn(c), IndexOf(ctx, before[c]));
      PutEffect(Put(d, IndexColumn(c), IndexOf(ctx, before[c])), c, CipherOf(ctx, nonce, c, before[c]));
      if before[c] == Null {
        assert before[IndexColumn(c) := Null][c := Null] == before[IndexColumn(c) := Null];
      }
    }
  }

  lemma {:induction false} EncryptColumnsReach(ctx: Context, nonce: string -> string, cols: seq<string>, d: Dict,
                                               c: string)
    requires UniqueKeys(d) && c in cols
    requires forall i, j | 0 <= i < j < |cols| :: cols[i] != cols[j]
    requires forall a, b | a in cols && b in cols :: a != IndexColumn(b)
    ensures var before, after := ToDoc(d), ToDoc(EncryptColumns(ctx, nonce, cols, d));
            if c in before then
              && c in after && after[c] == CipherOf(ctx, nonce, c, before[c])
              && IndexColumn(c) in after && after[IndexColumn(c)] == IndexOf(ctx, before[c])
            else c !in after && (IndexColumn(c) in after <==> IndexColumn(c) in before)
  {
    var first, more := cols[0], cols[1..];
    var d' := EncryptColumn(ctx, nonce, first, d);
    EncryptColumnEffect(ctx, nonce, first, d);
    assert first in cols && forall x | x in more :: x in cols;
    forall x | x in cols && x != c
      ensures IndexColumn(x) != IndexColumn(c)
    {
      if IndexColumn(x) == IndexColumn(c) { IndexColumnInjective(x, c); }
    }
    if first == c {
      EncryptColumnsLeave(ctx, nonce, more, d', c);
      EncryptColumnsLeave(ctx, nonce, more, d', IndexColumn(c));
    } else {
      EncryptColumnsReach(ctx, nonce, more, d', c);
    }
  }

  // ------------------------------------------------------------------- SET lists

  lemma {:induction false} SplitEffect(ctx: Context, d: Dict)
    requires UniqueKeys(d)
    ensures UniqueKeys(Declared(ctx, d)) && UniqueKeys(Extra(ctx, d))
    ensures forall k :: k in ToDoc(Declared(ctx, d)) <==> k in ToDoc(d) && k != "_id" && k in ctx.columns
    ensures forall k :: k in ToDoc(Extra(ctx, d)) <==> k in ToDoc(d) && k != "_id" && k !in ctx.columns
    ensures forall k | k in ToDoc(Declared(ctx, d)) ::
              ToDoc(Declared(ctx, d))[k] == ctx.coerce(ctx.columns[k], ToDoc(d)[k])
    ensures forall k | k in ToDoc(Extra(ctx, d)) :: ToDoc(Extra(ctx, d))[k] == ToDoc(d)[k]
  {
    if d != [] {
      var e, rest := d[0], d[1..];
      SplitEffect(ctx, rest);
      if e.key != "_id" && e.key in ctx.columns {
        ConsEffect(Entry(e.key, ctx.coerce(ctx.columns[e.key], e.value)), Declared(ctx, rest));
      }
      if e.key != "_id" && e.key !in ctx.columns {
        ConsEffect(e, Extra(ctx, rest));
      }
    }
  }

  /** The split, seen by one key. */
  lemma SplitAt(ctx: Context, d: Dict, k: string)
    requires UniqueKeys(d)
    ensures var doc, declared, extra := ToDoc(d), ToDoc(Declared(ctx, d)), ToDoc(Extra(ctx, d));
            && (k in declared <==> k in doc && k != "_id" && k in ctx.columns)
            && (k in extra <==> k in doc && k != "_id" && k !in ctx.columns)
            && (k in declared ==> declared[k] == ctx.coerce(ctx.columns[k], doc[k]))
            && (k in extra ==> extra[k] == doc[k])
  {
    SplitEffect(ctx, d);
  }

  lemma {:induction false} AssignColumnsEffect(declared: Dict, params: seq<Param>, all: seq<Param>, row: Row)
    requires UniqueKeys(declared)
    requires AssignColumns(declared, params).1 <= all
    ensures params <= AssignColumns(declared, params).1
    ensures AssignedAll(row, AssignColumns(declared, params).0, all) == row.(cols := row.cols + ToDoc(declared))
  {
    if declared == [] {
      assert row.cols + map[] == row.cols;
    } else {
      var e, rest := declared[0], declared[1..];
      var params' := params + [Scalar(e.value)];
      var (more, last) := AssignColumns(rest, params');
      PrefixOfAssign(rest, params');
      var row' := row.(cols := row.cols[e.key := e.value]);
      assert all[|params|] == params'[|params|];
      var assigns := AssignColumns(declared, params).0;
      assert assigns[1..] == more;
      AssignColumnsEffect(rest, params', all, row');
      assert row'.cols + ToDoc(rest) == row.cols + ToDoc(declared);
    }
  }

  lemma {:induction false} PrefixOfAssign(declared: Dict, params: seq<Param>)
    ensures params <= AssignColumns(declared, params).1
  {
    if declared != [] {
      PrefixOfAssign(declared[1..], params + [Scalar(declared[0].value)]);
    }
  }

  lemma {:induction false} AssignedAllSnoc(row: Row, assigns: seq<Assign>, a: Assign, params: seq<Param>)
    ensures AssignedAll(row, assigns + [a], params) == Assigned(AssignedAll(row, assigns, params), a, params)
    decreases |assigns|
  {
    if assigns == [] {
      assert [a][1..] == [];
    } else {
      assert (assigns + [a])[1..] == assigns[1..] + [a];
      AssignedAllSnoc(Assigned(row, assigns[0], params), assigns[1..], a, params);
    }
  }

  /** A column list followed by one item for the overflow object. */
  lemma WithExtra(row: Row, declared: Dict, extra: Doc, params: seq<Param>, all: seq<Param>)
    requires UniqueKeys(declared)
    requires AssignColumns(declared, params).1 + [Object(extra)] <= all
    ensures var (assigns, params') := AssignColumns(declared, params);
            && AssignedAll(row, assigns + [MergeExtra(|params'| + 1)], all) ==
               Row(row.cols + ToDoc(declared), row.extra + extra)
            && AssignedAll(row, assigns + [SetExtra(|params'| + 1)], all) == Row(row.cols + ToDoc(declared), extra)
  {
    hide AssignColumns, AssignedAll, ToDoc;
    var (assigns, params') := AssignColumns(declared, params);
    assert all[|params'|] == (params' + [Object(extra)])[|params'|];
    AssignColumnsEffect(declared, params, all, row);
    AssignedAllSnoc(row, assigns, MergeExtra(|params'| + 1), all);
    AssignedAllSnoc(row, assigns, SetExtra(|params'| + 1), all);
  }

  /** The row an UPDATE leaves, under any later extension of the shared parameter list. */
  lemma UpdateSetEffect(ctx: Context, nonce: string -> string, changes: Dict, params: seq<Param>, all: seq<Param>,
                        row: Row)
    requires UniqueKeys(EncryptedDict(ctx, nonce, changes))
    requires UpdateSet(ctx, nonce, changes, params).1 <= all
    ensures params <= UpdateSet(ctx, nonce, changes, params).1
    ensures AssignedAll(row, UpdateSet(ctx, nonce, changes, params).0, all) ==
            Row(row.cols + ToDoc(Declared(ctx, EncryptedDict(ctx, nonce, changes))),
                row.extra + ToDoc(Extra(ctx, EncryptedDict(ctx, nonce, changes))))
  {
    hide EncryptedDict, Declared, Extra, AssignColumns, AssignedAll, ToDoc, UniqueKeys;
    var d := EncryptedDict(ctx, nonce, changes);
    SplitEffect(ctx, d);
    var extra := ToDoc(Extra(ctx, d));
    PrefixOfAssign(Declared(ctx, d), params);
    if extra == map[] {
      assert row.extra + extra == row.extra;
      AssignColumnsEffect(Declared(ctx, d), params, all, row);
    } else {
      WithExtra(row, Declared(ctx, d), extra, params, all);
    }
  }

  lemma InsertSetEffect(ctx: Context, nonce: string -> string, doc: Dict)
    requires UniqueKeys(EncryptedDict(ctx, nonce, doc))
    ensures AssignedAll(Row(map[], map[]), InsertSet(ctx, nonce, doc).0, InsertSet(ctx, nonce, doc).1) ==
            Row(ToDoc(Declared(ctx, EncryptedDict(ctx, nonce, doc))),
                ToDoc(Extra(ctx, EncryptedDict(ctx, nonce, doc))))
  {
    hide EncryptedDict, Declared, Extra, AssignColumns, AssignedAll, ToDoc, UniqueKeys;
    var d := EncryptedDict(ctx, nonce, doc);
    var row := Row(map[], map[]);
    SplitEffect(ctx, d);
    var (assigns, params) := AssignColumns(Declared(ctx, d), []);
    var extra := ToDoc(Extra(ctx, d));
    assert row.cols + ToDoc(Declared(ctx, d)) == ToDoc(Declared(ctx, d));
    if extra == map[] {
      AssignColumnsEffect(Declared(ctx, d), [], params, row);
    } else {
      WithExtra(row, Declared(ctx, d), extra, [], params + [Object(extra)]);
    }
  }

  // ---------------------------------------------------------------- read after write

  /** A document overlaid by a set document: declared keys set to None disappear, undeclared
      keys are kept even when None, and `_id` is never stored. */
  function Overlay(ctx: Context, doc: Doc, changes: Doc): Doc {
    map k | k in doc.Keys + changes.Keys &&
            if k in changes && k != "_id" then !(k in ctx.columns && changes[k] == Null) else k in doc
          :: if k in changes && k != "_id" then changes[k] else doc[k]
  }

  /** What encryption does to a typed document, key by key. */
  lemma EncryptedDictEffect(ctx: Context, nonce: string -> string, d: Dict)
    requires WellFormedTable(ctx) && Typed(ctx, d)
    ensures UniqueKeys(EncryptedDict(ctx, nonce, d))
    ensures var before, after := ToDoc(d), ToDoc(EncryptedDict(ctx, nonce, d));
            && (forall k | !IsIndexColumn(ctx, k) :: k in after <==> k in before)
            && (forall k | k in before && !Ciphered(ctx, k) :: k in after && after[k] == before[k])
            && (forall c | Ciphered(ctx, c) ::
                  && (IndexColumn(c) in after <==> c in before)
                  && (c in before ==>
                        && c in after && after[c] == CipherOf(ctx, nonce, c, before[c])
                        && after[IndexColumn(c)] == IndexOf(ctx, before[c])))
  {
    if ctx.crypto.enabled {
      var before, after := ToDoc(d), ToDoc(EncryptedDict(ctx, nonce, d));
      forall c | c in ctx.encrypted
        ensures if c in before then
                  && c in after && after[c] == CipherOf(ctx, nonce, c, before[c])
                  && IndexColumn(c) in after && after[IndexColumn(c)] == IndexOf(ctx, before[c])
                else c !in after && IndexColumn(c) !in after
      {
        forall a, b | a in ctx.encrypted && b in ctx.encrypted
          ensures a != IndexColumn(b)
        {
          assert !IsIndexColumn(ctx, a);
        }
        EncryptColumnsReach(ctx, nonce, ctx.encrypted, d, c);
        assert IsIndexColumn(ctx, IndexColumn(c));
        assert IndexColumn(c) !in before;
      }
      forall k | !IsIndexColumn(ctx, k) && k !in ctx.encrypted
        ensures (k in after <==> k in before) && (k in before ==> after[k] == before[k])
      {
        EncryptColumnsLeave(ctx, nonce, ctx.encrypted, d, k);
      }
      EncryptColumnsUnique(ctx, nonce, ctx.encrypted, d);
    }
  }

  /** The same for one cell that is not a blind index. */
  lemma EncryptedAt(ctx: Context, nonce: string -> string, d: Dict, k: string)
    requires WellFormedTable(ctx) && Typed(ctx, d) && !IsIndexColumn(ctx, k)
    ensures var before, after := ToDoc(d), ToDoc(EncryptedDict(ctx, nonce, d));
            && UniqueKeys(EncryptedDict(ctx, nonce, d))
            && (k in after <==> k in before)
            && (k in before ==> after[k] == if Ciphered(ctx, k) then CipherOf(ctx, nonce, k, before[k]) else before[k])
  {
    EncryptedDictEffect(ctx, nonce, d);
  }

  /** And for the blind index of an encrypted column. */
  lemma EncryptedIndexAt(ctx: Context, nonce: string -> string, d: Dict, c: string)
    requires WellFormedTable(ctx) && Typed(ctx, d) && Ciphered(ctx, c)
    ensures var before, after := ToDoc(d), ToDoc(EncryptedDict(ctx, nonce, d));
            && UniqueKeys(EncryptedDict(ctx, nonce, d))
            && (IndexColumn(c) in after <==> c in before)
            && (c in before ==> after[IndexColumn(c)] == IndexOf(ctx, before[c]))
  {
    EncryptedDictEffect(ctx, nonce, d);
  }

  lemma {:induction false} EncryptColumnsUnique(ctx: Context, nonce: string -> string, cols: seq<string>, d: Dict)
    requires UniqueKeys(d)
    ensures UniqueKeys(EncryptColumns(ctx, nonce, cols, d))
  {
    if cols != [] {
      EncryptColumnEffect(ctx, nonce, cols[0], d);
      EncryptColumnsUnique(ctx, nonce, cols[1..], EncryptColumn(ctx, nonce, cols[0], d));
    }
  }

  /** The row with the encrypted document laid over it. */
  function Written(ctx: Context, nonce: string -> string, row: Row, changes: Dict): Row {
    var d := EncryptedDict(ctx, nonce, changes);
    Row(row.cols + ToDoc(Declared(ctx, d)), row.extra + ToDoc(Extra(ctx, d)))
  }

  lemma IndexIsText(ctx: Context, v: Value)
    ensures IndexOf(ctx, v) == Null || IndexOf(ctx, v).Text?
  {
  }

  /** What a blind index holds after a write. */
  lemma WrittenIndex(ctx: Context, nonce: string -> string, row: Row, changes: Dict, k: string)
    requires WellFormedTable(ctx) && Typed(ctx, changes) && Ciphered(ctx, k)
    ensures Get(Written(ctx, nonce, row, changes).cols, IndexColumn(k)) ==
            if k !in ToDoc(changes) then Get(row.cols, IndexColumn(k)) else IndexOf(ctx, ToDoc(changes)[k])
  {
    hide EncryptedDict, Declared, Extra, ToDoc, UniqueKeys, CipherOf;
    EncryptedIndexAt(ctx, nonce, changes, k);
    SplitAt(ctx, EncryptedDict(ctx, nonce, changes), IndexColumn(k));
    assert |IndexColumn(k)| >= 5;
    assert IndexColumn(k) != "_id";
    if k in ToDoc(changes) { IndexIsText(ctx, ToDoc(changes)[k]); }
  }

  /** What one cell holds after a write. */
  lemma WrittenCell(ctx: Context, nonce: string -> string, row: Row, changes: Dict, k: string)
    requires WellFormedTable(ctx) && Typed(ctx, changes) && k in ctx.columns && !IsIndexColumn(ctx, k)
    ensures Get(Written(ctx, nonce, row, changes).cols, k) ==
            if k !in ToDoc(changes) then Get(row.cols, k)
            else if Ciphered(ctx, k) then CipherOf(ctx, nonce, k, ToDoc(changes)[k])
            else ToDoc(changes)[k]
  {
    hide EncryptedDict, Declared, Extra, ToDoc, UniqueKeys, IndexOf;
    var d := EncryptedDict(ctx, nonce, changes);
    EncryptedAt(ctx, nonce, changes, k);
    SplitAt(ctx, d, k);
    assert k in ToDoc(changes) ==> TypedEntry(ctx, k, ToDoc(changes)[k]);
  }

  /** Personal data reaches its cell as one encryption under the nonce drawn for the column, behind
      the marker, and its blind index as the keyed hash of the plaintext. */
  lemma WrittenCiphertext(ctx: Context, nonce: string -> string, row: Row, changes: Dict, c: string, s: string)
    requires WellFormedTable(ctx) && Typed(ctx, changes) && ctx.crypto.enabled && c in ctx.encrypted
    requires c in ToDoc(changes) && ToDoc(changes)[c] == Text(s) && !("pii1:" <= s)
    ensures Get(Written(ctx, nonce, row, changes).cols, c) == Text("pii1:" + ctx.crypto.cipher(nonce(c), s))
    ensures Get(Written(ctx, nonce, row, changes).cols, c + "_bidx") == Text(ctx.crypto.hmac(s))
  {
    hide Written;
    WrittenCell(ctx, nonce, row, changes, c);
    WrittenIndex(ctx, nonce, row, changes, c);
  }

  /** What the overflow object holds after a write. */
  lemma WrittenExtra(ctx: Context, nonce: string -> string, row: Row, changes: Dict, k: string)
    requires WellFormedTable(ctx) && Typed(ctx, changes)
    ensures var extra, d := Written(ctx, nonce, row, changes).extra, ToDoc(changes);
            if k in d && k != "_id" && k !in ctx.columns then k in extra && extra[k] == d[k]
            else (k in extra <==> k in row.extra) && (k in extra ==> extra[k] == row.extra[k])
  {
    hide EncryptedDict, IndexOf, CipherOf;
    EncryptedDictEffect(ctx, nonce, changes);
    SplitAt(ctx, EncryptedDict(ctx, nonce, changes), k);
    assert k in ToDoc(changes) ==> TypedEntry(ctx, k, ToDoc(changes)[k]);
    assert IsIndexColumn(ctx, k) ==> k in ctx.columns;
  }

  /** One encrypted cell after a write: in step with its index exactly when what was written,
      if anything was, is not taken for a ciphertext of something else. */
  lemma WrittenCellOk(ctx: Context, nonce: string -> string, row: Row, changes: Dict, c: string)
    requires WellFormedTable(ctx) && RowOk(ctx, row) && Typed(ctx, changes) && Ciphered(ctx, c)
    ensures CellOk(ctx, Written(ctx, nonce, row, changes), c) <==>
            (c in ToDoc(changes) ==> FaithfulEntry(ctx, c, ToDoc(changes)[c]))
  {
    WrittenCell(ctx, nonce, row, changes, c);
    WrittenIndex(ctx, nonce, row, changes, c);
    assert CellOk(ctx, row, c);
    if c in ToDoc(changes) {
      assert TypedEntry(ctx, c, ToDoc(changes)[c]);
      if ToDoc(changes)[c].Text? {
        EncryptRoundTrip(ctx.crypto, nonce(c), ToDoc(changes)[c].s);
      }
    }
  }

  /** A typed write keeps the row sound exactly when it is acceptable. */
  lemma WrittenStaysSound(ctx: Context, nonce: string -> string, row: Row, changes: Dict)
    requires WellFormedTable(ctx) && RowOk(ctx, row) && Typed(ctx, changes)
    ensures RowOk(ctx, Written(ctx, nonce, row, changes)) <==> Acceptable(ctx, changes)
  {
    var row' := Written(ctx, nonce, row, changes);
    forall k | k in row'.extra
      ensures k !in ctx.columns
    {
      WrittenExtra(ctx, nonce, row, changes, k);
    }
    forall c | Ciphered(ctx, c)
      ensures CellOk(ctx, row', c) <==> (c in ToDoc(changes) ==> FaithfulEntry(ctx, c, ToDoc(changes)[c]))
    {
      WrittenCellOk(ctx, nonce, row, changes, c);
    }
    if k :| k in ToDoc(changes) && !FaithfulEntry(ctx, k, ToDoc(changes)[k]) {
      assert Ciphered(ctx, k);
    }
  }

  lemma NotEncrypted(ctx: Context, changes: Dict, k: string)
    requires WellFormedTable(ctx) && Typed(ctx, changes) && (k !in ctx.columns || IsIndexColumn(ctx, k))
    ensures k in ToDoc(changes) ==> FaithfulEntry(ctx, k, ToDoc(changes)[k])
  {
    assert k in ToDoc(changes) ==> TypedEntry(ctx, k, ToDoc(changes)[k]);
  }

  predicate Agree(a: Doc, b: Doc, k: string) {
    (k in a <==> k in b) && (k in a ==> a[k] == b[k])
  }

  lemma AgreeEverywhere(a: Doc, b: Doc)
    ensures a == b <==> forall k :: Agree(a, b, k)
  {
    if forall k :: Agree(a, b, k) {
      forall k
        ensures k in a <==> k in b
        ensures k in a && k in b ==> a[k] == b[k]
      {
        assert Agree(a, b, k);
      }
      assert a == b;
    }
  }

  /** A key reads after a write as the overlaid document says. */
  predicate ReadsAs(ctx: Context, nonce: string -> string, row: Row, changes: Dict, k: string) {
    Agree(RowToDoc(ctx, Written(ctx, nonce, row, changes)), Overlay(ctx, RowToDoc(ctx, row), ToDoc(changes)), k)
  }

  /** A declared column after a write. */
  lemma ReadColumn(ctx: Context, nonce: string -> string, row: Row, changes: Dict, k: string)
    requires WellFormedTable(ctx) && RowOk(ctx, row) && Typed(ctx, changes)
    requires k in ctx.columns && !IsIndexColumn(ctx, k)
    ensures ReadsAs(ctx, nonce, row, changes, k) <==>
            (k in ToDoc(changes) ==> FaithfulEntry(ctx, k, ToDoc(changes)[k]))
  {
    hide Written, CipherOf, FaithfulEntry;
    var row' := Written(ctx, nonce, row, changes);
    WrittenCell(ctx, nonce, row, changes, k);
    WrittenExtra(ctx, nonce, row, changes, k);
    assert k !in row.extra && k !in row'.extra;
    assert k in RowToDoc(ctx, row') <==> Get(row'.cols, k) != Null;
    if k in ToDoc(changes) {
      assert TypedEntry(ctx, k, ToDoc(changes)[k]);
      PlainOfWritten(ctx, nonce, ToDoc(changes)[k], k);
    }
  }

  lemma PlainOfWritten(ctx: Context, nonce: string -> string, v: Value, k: string)
    requires WellFormedTable(ctx)
    requires k in ctx.encrypted ==> v == Null || v.Text?
    ensures var stored := if Ciphered(ctx, k) then CipherOf(ctx, nonce, k, v) else v;
            (stored == Null <==> v == Null) && (Plain(ctx, k, stored) == v <==> FaithfulEntry(ctx, k, v))
  {
    if k in ctx.encrypted && v.Text? {
      EncryptRoundTrip(ctx.crypto, nonce(k), v.s);
    }
  }

  /** Any other key after a write lives in the overflow object. */
  lemma ReadOverflow(ctx: Context, nonce: string -> string, row: Row, changes: Dict, k: string)
    requires WellFormedTable(ctx) && RowOk(ctx, row) && Typed(ctx, changes)
    requires k !in ctx.columns || IsIndexColumn(ctx, k)
    ensures ReadsAs(ctx, nonce, row, changes, k)
  {
    WrittenExtra(ctx, nonce, row, changes, k);
    assert k in ToDoc(changes) ==> TypedEntry(ctx, k, ToDoc(changes)[k]);
    assert k in row.extra ==> k !in ctx.columns;
  }

  /** Any key after a write. */
  lemma KeyReads(ctx: Context, nonce: string -> string, row: Row, changes: Dict, k: string)
    requires WellFormedTable(ctx) && RowOk(ctx, row) && Typed(ctx, changes)
    ensures ReadsAs(ctx, nonce, row, changes, k) <==>
            (k in ToDoc(changes) ==> FaithfulEntry(ctx, k, ToDoc(changes)[k]))
  {
    hide Written, Overlay, RowToDoc, RowOk, FaithfulEntry, Agree;
    if k in ctx.columns && !IsIndexColumn(ctx, k) {
      ReadColumn(ctx, nonce, row, changes, k);
    } else {
      ReadOverflow(ctx, nonce, row, changes, k);
      NotEncrypted(ctx, changes, k);
    }
  }

  /** Two documents that agree exactly on the faithful keys are equal exactly when all are. */
  lemma EqualExactly(ctx: Context, read: Doc, want: Doc, changes: Dict)
    requires Typed(ctx, changes)
    requires forall k :: Agree(read, want, k) <==> (k in ToDoc(changes) ==> FaithfulEntry(ctx, k, ToDoc(changes)[k]))
    ensures read == want <==> Acceptable(ctx, changes)
  {
    hide FaithfulEntry, Typed, Agree;
    AgreeEverywhere(read, want);
    if k :| k in ToDoc(changes) && !FaithfulEntry(ctx, k, ToDoc(changes)[k]) {
      assert !Agree(read, want, k);
    }
  }

  /**
   * Read after write: a typed set document, written over a sound row, is read back as the old
   * document overlaid by it exactly when none of its personal data passes for a ciphertext of
   * something else; the same condition keeps the row sound.
   */
  lemma ReadAfterWrite(ctx: Context, nonce: string -> string, row: Row, changes: Dict)
    requires WellFormedTable(ctx) && RowOk(ctx, row) && Typed(ctx, changes)
    ensures RowToDoc(ctx, Written(ctx, nonce, row, changes)) == Overlay(ctx, RowToDoc(ctx, row), ToDoc(changes)) <==>
            Acceptable(ctx, changes)
    ensures RowOk(ctx, Written(ctx, nonce, row, changes)) <==> Acceptable(ctx, changes)
  {
    hide Written, Overlay, RowToDoc, RowOk, FaithfulEntry, Agree, Acceptable, Typed, WellFormedTable;
    WrittenStaysSound(ctx, nonce, row, changes);
    var read := RowToDoc(ctx, Written(ctx, nonce, row, changes));
    var want := Overlay(ctx, RowToDoc(ctx, row), ToDoc(changes));
    forall k
      ensures Agree(read, want, k) <==> (k in ToDoc(changes) ==> FaithfulEntry(ctx, k, ToDoc(changes)[k]))
    {
      KeyReads(ctx, nonce, row, changes, k);
    }
    EqualExactly(ctx, read, want, changes);
  }
}
