/** Translation of filters into SQL conditions with positional parameters. */
module QueryCompiler {
  import opened Values
  import opened Filters
  import opened PiiCrypto
  import opened Sql

  datatype SqlType = TextType | NumberType | BooleanType

  /**
   * One table and its surroundings: declared columns, encrypted columns, the field
   * codec, the coercion to a column's type and Python's `str` on non-strings.
   */
  datatype Context = Context(
    columns: map<string, SqlType>,
    encrypted: seq<string>,
    crypto: Crypto,
    coerce: (SqlType, Value) -> Value,
    show: Value -> string)

  function IndexColumn(col: string): string {
    col + "_bidx"
  }

  /** Blind-index columns, which documents never show. */
  predicate IsIndexColumn(ctx: Context, key: string) {
    exists c | c in ctx.encrypted :: key == IndexColumn(c)
  }

  lemma IndexColumnInjective(a: string, b: string)
    requires IndexColumn(a) == IndexColumn(b)
    ensures a == b
  {
    assert IndexColumn(a)[..|a|] == a;
    assert IndexColumn(b)[..|b|] == b;
  }

  ghost predicate WellFormedTable(ctx: Context) {
    && Lawful(ctx.crypto)
    && "_id" !in ctx.columns
    && (forall i, j | 0 <= i < j < |ctx.encrypted| :: ctx.encrypted[i] != ctx.encrypted[j])
    && (forall c | c in ctx.encrypted ::
          && c in ctx.columns
          && ctx.columns[c] == TextType
          && IndexColumn(c) in ctx.columns
          && ctx.columns[IndexColumn(c)] == TextType
          && !IsIndexColumn(ctx, c))
    && (forall t :: ctx.coerce(t, Null) == Null)
    && (forall s :: ctx.coerce(TextType, Text(s)) == Text(s))
  }

  function Str(ctx: Context, v: Value): string {
    if v.Text? then v.s else ctx.show(v)
  }

  function RefOf(ctx: Context, key: string): Ref {
    if key in ctx.columns then Column(key) else Overflow(key)
  }

  function TypeOf(ctx: Context, key: string): SqlType {
    if key in ctx.columns then ctx.columns[key] else TextType
  }

  predicate Ciphered(ctx: Context, key: string) {
    ctx.crypto.enabled && key in ctx.encrypted
  }

  // ------------------------------------------------------------------ specification

  /** AND-ed factors and the parameter list as it stands after emitting them. */
  datatype Emitted = Emitted(factors: seq<Prim>, params: seq<Param>)

  function CoerceAll(ctx: Context, t: SqlType, vs: seq<Value>): (r: seq<Value>)
    ensures |r| == |vs| && forall i | 0 <= i < |vs| :: r[i] == ctx.coerce(t, vs[i])
  {
    if vs == [] then [] else [ctx.coerce(t, vs[0])] + CoerceAll(ctx, t, vs[1..])
  }

  function IndexAll(ctx: Context, vs: seq<Value>): seq<Value> {
    if vs == [] then []
    else if vs[0] == Null then IndexAll(ctx, vs[1..])
    else [Text(ctx.crypto.hmac(Str(ctx, vs[0])))] + IndexAll(ctx, vs[1..])
  }

  function FirstIn(ops: seq<Operator>): Option<seq<Value>> {
    if ops == [] then None
    else if ops[0].In? then Some(ops[0].items)
    else FirstIn(ops[1..])
  }

  function FirstNe(ops: seq<Operator>): Value {
    if ops == [] then Null
    else if ops[0].Ne? then ops[0].value
    else FirstNe(ops[1..])
  }

  function EmitOp(ctx: Context, key: string, insensitive: bool, op: Operator, params: seq<Param>): Emitted {
    var ref, t, ph := RefOf(ctx, key), TypeOf(ctx, key), |params| + 1;
    match op
    case In(items) =>
      if items == [] then Emitted([Leaf(Never)], params)
      else Emitted([Leaf(AnyOf(ref, ph))], params + [List(CoerceAll(ctx, t, items))])
    case Ne(v) => Emitted([Leaf(Distinct(ref, ph))], params + [Scalar(ctx.coerce(t, v))])
    case Gte(v) => Emitted([Leaf(Test(ref, AtLeast, ph))], params + [Scalar(ctx.coerce(t, v))])
    case Lte(v) => Emitted([Leaf(Test(ref, AtMost, ph))], params + [Scalar(ctx.coerce(t, v))])
    case Gt(v) => Emitted([Leaf(Test(ref, Above, ph))], params + [Scalar(ctx.coerce(t, v))])
    case Lt(v) => Emitted([Leaf(Test(ref, Below, ph))], params + [Scalar(ctx.coerce(t, v))])
    case Regex(p) => Emitted([Leaf(Like(ref, insensitive, ph))], params + [Scalar(Text(p))])
    case Options(_) => Emitted([], params)
    case Unsupported(_) => Emitted([], params)
  }

  function EmitOps(ctx: Context, key: string, insensitive: bool, ops: seq<Operator>, params: seq<Param>): (e: Emitted)
    ensures params <= e.params
  {
    if ops == [] then Emitted([], params)
    else
      var first := EmitOp(ctx, key, insensitive, ops[0], params);
      var more := EmitOps(ctx, key, insensitive, ops[1..], first.params);
      Emitted(first.factors + more.factors, more.params)
  }

  function OrAlways(e: Emitted): Emitted {
    if e.factors == [] then Emitted([Leaf(Always)], e.params) else e
  }

  /** The condition on a column or overflow key read as it is stored. */
  function EmitStored(ctx: Context, key: string, cond: Cond, params: seq<Param>): Emitted {
    match cond
    case Where(ops) => OrAlways(EmitOps(ctx, key, 'i' in FlagsOf(ops), ops, params))
    case Is(Null) => Emitted([Leaf(Missing(RefOf(ctx, key)))], params)
    case Is(v) =>
      Emitted([Leaf(Test(RefOf(ctx, key), Equal, |params| + 1))],
              params + [Scalar(ctx.coerce(TypeOf(ctx, key), v))])
  }

  function EmitOn(ctx: Context, key: string, cond: Cond, params: seq<Param>): Emitted {
    if Ciphered(ctx, key) && cond != Is(Null) then
      var ref, ph := Column(IndexColumn(key)), |params| + 1;
      match cond
      case Is(v) =>
        Emitted([Leaf(Test(ref, Equal, ph))], params + [Scalar(Text(ctx.crypto.hmac(Str(ctx, v))))])
      case Where(ops) =>
        if FirstIn(ops).Some? then
          var items := IndexAll(ctx, FirstIn(ops).value);
          if items == [] then Emitted([Leaf(Never)], params)
          else Emitted([Leaf(AnyOf(ref, ph))], params + [List(items)])
        else if FirstNe(ops) != Null then
          Emitted([Leaf(Distinct(ref, ph))], params + [Scalar(Text(ctx.crypto.hmac(Str(ctx, FirstNe(ops)))))])
        else EmitStored(ctx, key, cond, params)
    else EmitStored(ctx, key, cond, params)
  }

  function EmitClause(ctx: Context, clause: Clause, params: seq<Param>): (e: Emitted)
    ensures params <= e.params
    decreases clause, 0
  {
    match clause
    case On(key, cond) => EmitOn(ctx, key, cond, params)
    case Or(branches) =>
      if branches == [] then Emitted([Leaf(Always)], params)
      else
        var (terms, params') := EmitBranches(ctx, branches, params);
        Emitted([Group(Expr(terms))], params')
  }

  function EmitBranches(ctx: Context, branches: seq<Filter>, params: seq<Param>): (r: (seq<Conj>, seq<Param>))
    ensures params <= r.1 && |r.0| == |branches|
    decreases branches, 2
  {
    if branches == [] then ([], params)
    else
      assert branches[0] in branches;
      var first := EmitFilter(ctx, branches[0], params);
      var (more, params') := EmitBranches(ctx, branches[1..], first.params);
      ([Conj([Group(Expr([Conj(first.factors)]))])] + more, params')
  }

  function EmitClauses(ctx: Context, clauses: seq<Clause>, params: seq<Param>): (e: Emitted)
    ensures params <= e.params
    decreases clauses, 1
  {
    if clauses == [] then Emitted([], params)
    else
      var first := EmitClause(ctx, clauses[0], params);
      var more := EmitClauses(ctx, clauses[1..], first.params);
      Emitted(first.factors + more.factors, more.params)
  }

  function EmitFilter(ctx: Context, filter: Filter, params: seq<Param>): (e: Emitted)
    ensures params <= e.params
    decreases filter, 0
  {
    OrAlways(EmitClauses(ctx, filter.clauses, params))
  }

  // ------------------------------------------------------- placeholders and well-formedness

  function AtomPlaceholders(a: Atom): seq<nat> {
    match a
    case Test(_, _, ph) => [ph]
    case Like(_, _, ph) => [ph]
    case AnyOf(_, ph) => [ph]
    case Distinct(_, ph) => [ph]
    case _ => []
  }

  function PrimPlaceholders(p: Prim): seq<nat>
    decreases p, 0
  {
    match p
    case Leaf(a) => AtomPlaceholders(a)
    case Group(e) => TermPlaceholders(e.terms)
  }

  /** The placeholders of a condition, left to right. */
  function Placeholders(factors: seq<Prim>): seq<nat>
    decreases factors, 1
  {
    if factors == [] then []
    else PrimPlaceholders(factors[0]) + Placeholders(factors[1..])
  }

  function TermPlaceholders(terms: seq<Conj>): seq<nat>
    decreases terms, 2
  {
    if terms == [] then []
    else
      assert terms[0] in terms;
      Placeholders(terms[0].factors) + TermPlaceholders(terms[1..])
  }

  /** `lo + 1, lo + 2, .., hi` */
  function Numbers(lo: nat, hi: nat): seq<nat>
    requires lo <= hi
  {
    seq(hi - lo, i requires 0 <= i => lo + 1 + i)
  }

  lemma NumbersConcat(lo: nat, mid: nat, hi: nat)
    requires lo <= mid <= hi
    ensures Numbers(lo, mid) + Numbers(mid, hi) == Numbers(lo, hi)
  {
  }

  lemma {:induction false} PlaceholdersConcat(a: seq<Prim>, b: seq<Prim>)
    ensures Placeholders(a + b) == Placeholders(a) + Placeholders(b)
  {
    hide PrimPlaceholders;
    if a == [] {
      assert a + b == b;
    } else {
      PlaceholdersConcat(a[1..], b);
      assert (a + b)[0] == a[0] && (a + b)[1..] == a[1..] + b;
      var p, q, r := PrimPlaceholders(a[0]), Placeholders(a[1..]), Placeholders(b);
      assert p + (q + r) == (p + q) + r;
    }
  }

  /** What every piece of the translation keeps about its text and its parameters. */
  ghost predicate Threaded(e: Emitted, params: seq<Param>) {
    && params <= e.params
    && Placeholders(e.factors) == Numbers(|params|, |e.params|)
    && forall i | 0 <= i < |e.factors| :: WritablePrim(e.factors[i])
  }

  lemma ThreadedJoin(a: Emitted, b: Emitted, params: seq<Param>)
    requires Threaded(a, params) && Threaded(b, a.params)
    ensures Threaded(Emitted(a.factors + b.factors, b.params), params)
  {
    PlaceholdersConcat(a.factors, b.factors);
    NumbersConcat(|params|, |a.params|, |b.params|);
  }

  lemma OpThreaded(ctx: Context, key: string, insensitive: bool, op: Operator, params: seq<Param>)
    ensures Threaded(EmitOp(ctx, key, insensitive, op, params), params)
  {
    var e := EmitOp(ctx, key, insensitive, op, params);
    if e.factors != [] {
      SingleLeaf(e.factors[0].atom);
      assert e.factors == [Leaf(e.factors[0].atom)];
    }
  }

  lemma {:induction false} OpsThreaded(ctx: Context, key: string, insensitive: bool, ops: seq<Operator>,
                                       params: seq<Param>)
    ensures Threaded(EmitOps(ctx, key, insensitive, ops, params), params)
  {
    if ops != [] {
      var first := EmitOp(ctx, key, insensitive, ops[0], params);
      OpThreaded(ctx, key, insensitive, ops[0], params);
      OpsThreaded(ctx, key, insensitive, ops[1..], first.params);
      ThreadedJoin(first, EmitOps(ctx, key, insensitive, ops[1..], first.params), params);
    }
  }

  lemma OnThreaded(ctx: Context, key: string, cond: Cond, params: seq<Param>)
    ensures Threaded(EmitOn(ctx, key, cond, params), params)
    ensures EmitOn(ctx, key, cond, params).factors != []
  {
    var e := EmitOn(ctx, key, cond, params);
    if e != EmitStored(ctx, key, cond, params) {
      assert |e.factors| == 1 && e.factors[0].Leaf?;
      SingleLeaf(e.factors[0].atom);
      assert e.factors == [e.factors[0]];
    } else {
      StoredThreaded(ctx, key, cond, params);
    }
  }

  lemma StoredThreaded(ctx: Context, key: string, cond: Cond, params: seq<Param>)
    ensures Threaded(EmitStored(ctx, key, cond, params), params)
    ensures EmitStored(ctx, key, cond, params).factors != []
  {
    var e := EmitStored(ctx, key, cond, params);
    match cond
    case Where(ops) =>
      OpsThreaded(ctx, key, 'i' in FlagsOf(ops), ops, params);
      SingleLeaf(Always);
    case Is(_) =>
      SingleLeaf(e.factors[0].atom);
      assert e.factors == [Leaf(e.factors[0].atom)];
  }

  lemma SingleLeaf(a: Atom)
    ensures Placeholders([Leaf(a)]) == AtomPlaceholders(a)
  {
    assert [Leaf(a)][1..] == [];
  }

  lemma {:induction false} ClauseThreaded(ctx: Context, clause: Clause, params: seq<Param>)
    ensures Threaded(EmitClause(ctx, clause, params), params)
    ensures EmitClause(ctx, clause, params).factors != []
    decreases clause, 0
  {
    match clause
    case On(key, cond) => OnThreaded(ctx, key, cond, params);
    case Or(branches) =>
      if branches != [] {
        BranchesThreaded(ctx, branches, params);
        var (terms, _) := EmitBranches(ctx, branches, params);
        assert Placeholders([Group(Expr(terms))]) == TermPlaceholders(terms);
      }
  }

  lemma {:induction false} BranchesThreaded(ctx: Context, branches: seq<Filter>, params: seq<Param>)
    ensures var (terms, params') := EmitBranches(ctx, branches, params);
            && TermPlaceholders(terms) == Numbers(|params|, |params'|)
            && (forall i | 0 <= i < |terms| :: WritableFactors(terms[i].factors))
    decreases branches, 2
  {
    if branches != [] {
      assert branches[0] in branches;
      var first := EmitFilter(ctx, branches[0], params);
      FilterThreaded(ctx, branches[0], params);
      BranchesThreaded(ctx, branches[1..], first.params);
      var (more, params') := EmitBranches(ctx, branches[1..], first.params);
      var inner := Expr([Conj(first.factors)]);
      assert TermPlaceholders(inner.terms) == Placeholders(first.factors);
      assert Placeholders([Group(inner)]) == Placeholders(first.factors);
      NumbersConcat(|params|, |first.params|, |params'|);
      assert WritableTerms(inner.terms);
      assert WritablePrim(Group(inner));
    }
  }

  lemma {:induction false} ClausesThreaded(ctx: Context, clauses: seq<Clause>, params: seq<Param>)
    ensures Threaded(EmitClauses(ctx, clauses, params), params)
    decreases clauses, 1
  {
    if clauses != [] {
      var first := EmitClause(ctx, clauses[0], params);
      ClauseThreaded(ctx, clauses[0], params);
      ClausesThreaded(ctx, clauses[1..], first.params);
      ThreadedJoin(first, EmitClauses(ctx, clauses[1..], first.params), params);
    }
  }

  /**
   * Every filter, from any parameter list: the earlier parameters stay a prefix, the
   * condition uses exactly the placeholders of the parameters appended, once each and
   * in order, and its tree has no empty AND or OR.
   */
  lemma {:induction false} FilterThreaded(ctx: Context, filter: Filter, params: seq<Param>)
    ensures Threaded(EmitFilter(ctx, filter, params), params)
    ensures WritableFactors(EmitFilter(ctx, filter, params).factors)
    decreases filter, 0
  {
    ClausesThreaded(ctx, filter.clauses, params);
  }

  // ----------------------------------------------------------------------- meaning

  /** `row` is a stored form of `doc`: ciphertext stands behind its blind index. */
  ghost predicate Stores(ctx: Context, row: Row, doc: Doc) {
    && (forall k | k in ctx.columns && !IsIndexColumn(ctx, k) && !Ciphered(ctx, k) ::
          Get(row.cols, k) == Get(doc, k))
    && (forall k | k !in ctx.columns :: Get(row.extra, k) == Get(doc, k))
    && (forall k | Ciphered(ctx, k) :: StoresCiphered(ctx, row, k, Get(doc, k)))
  }

  ghost predicate StoresCiphered(ctx: Context, row: Row, key: string, plain: Value) {
    && (plain == Null || plain.Text?)
    && (Get(row.cols, key) == Null <==> plain == Null)
    && Get(row.cols, IndexColumn(key)) == (if plain == Null then Null else Text(ctx.crypto.hmac(plain.s)))
  }

  /** Overflow values are strings, the only JSON scalars `->>` returns unchanged. */
  predicate TextOverflow(row: Row) {
    forall k | k in row.extra :: row.extra[k] == Null || row.extra[k].Text?
  }

  /** A comparison operand the coercion to its column's type leaves alone. */
  predicate Settled(ctx: Context, key: string, v: Value) {
    v != Null && ctx.coerce(TypeOf(ctx, key), v) == v
  }

  predicate SupportedOp(ctx: Context, key: string, op: Operator) {
    match op
    case In(items) => forall v | v in items :: Settled(ctx, key, v)
    case Ne(v) => v == Null || Settled(ctx, key, v)
    case Gte(v) => Settled(ctx, key, v)
    case Lte(v) => Settled(ctx, key, v)
    case Gt(v) => Settled(ctx, key, v)
    case Lt(v) => Settled(ctx, key, v)
    case _ => true
  }

  /** On a ciphered column: equality, presence, one `$in` or one `$ne` of strings. */
  predicate SupportedCond(ctx: Context, key: string, cond: Cond) {
    if Ciphered(ctx, key) then
      match cond
      case Is(v) => v == Null || v.Text?
      case Where(ops) =>
        |ops| == 1 &&
        match ops[0]
        case In(items) => forall v | v in items :: v.Text?
        case Ne(v) => v == Null || v.Text?
        case _ => false
    else
      match cond
      case Is(v) => v == Null || Settled(ctx, key, v)
      case Where(ops) => forall i | 0 <= i < |ops| :: SupportedOp(ctx, key, ops[i])
  }

  predicate SupportedClause(ctx: Context, clause: Clause)
    decreases clause
  {
    match clause
    case On(key, cond) => !IsIndexColumn(ctx, key) && SupportedCond(ctx, key, cond)
    case Or(branches) => forall i | 0 <= i < |branches| :: Supported(ctx, branches[i])
  }

  predicate Supported(ctx: Context, filter: Filter)
    decreases filter
  {
    forall i | 0 <= i < |filter.clauses| :: SupportedClause(ctx, filter.clauses[i])
  }

  lemma ExtensionKeeps(params: seq<Param>, p: Param, all: seq<Param>)
    requires params + [p] <= all
    ensures |params| + 1 <= |all| && all[|params|] == p
  {
    assert (params + [p])[|params|] == p;
  }

  lemma StoredReads(ctx: Context, sem: Semantics, row: Row, doc: Doc, key: string)
    requires Stores(ctx, row, doc) && TextOverflow(row)
    requires !IsIndexColumn(ctx, key) && !Ciphered(ctx, key)
    ensures ReadRef(sem, row, RefOf(ctx, key)) == Get(doc, key)
  {
  }

  lemma EvalSingle(sem: Semantics, a: Atom, row: Row, params: seq<Param>)
    ensures EvalAll(sem, [Leaf(a)], row, params) == And3(EvalAtom(sem, a, row, params), True)
  {
    assert [Leaf(a)][1..] == [];
  }

  lemma OpMeaning(ctx: Context, sem: Semantics, key: string, insensitive: bool, op: Operator,
                  row: Row, v: Value, params: seq<Param>, all: seq<Param>)
    requires ReadRef(sem, row, RefOf(ctx, key)) == v
    requires SupportedOp(ctx, key, op) && ctx.coerce(TypeOf(ctx, key), Null) == Null
    requires EmitOp(ctx, key, insensitive, op, params).params <= all
    ensures EvalAll(sem, EmitOp(ctx, key, insensitive, op, params).factors, row, all) == True <==>
            MatchesOp(sem, op, insensitive, v)
  {
    var e := EmitOp(ctx, key, insensitive, op, params);
    if e.params != params {
      ExtensionKeeps(params, e.params[|params|], all);
    }
    if op.In? {
      CoerceSettled(ctx, key, op.items);
    }
    if e.factors != [] {
      assert e.factors == [Leaf(e.factors[0].atom)];
      EvalSingle(sem, e.factors[0].atom, row, all);
    }
  }

  lemma CoerceSettled(ctx: Context, key: string, items: seq<Value>)
    requires forall v | v in items :: ctx.coerce(TypeOf(ctx, key), v) == v
    ensures CoerceAll(ctx, TypeOf(ctx, key), items) == items
  {
    assert forall i | 0 <= i < |items| :: items[i] in items;
  }

  lemma {:induction false} OpsMeaning(ctx: Context, sem: Semantics, key: string, insensitive: bool, ops: seq<Operator>,
                                      row: Row, v: Value, params: seq<Param>, all: seq<Param>)
    requires ReadRef(sem, row, RefOf(ctx, key)) == v
    requires forall i | 0 <= i < |ops| :: SupportedOp(ctx, key, ops[i])
    requires ctx.coerce(TypeOf(ctx, key), Null) == Null
    requires EmitOps(ctx, key, insensitive, ops, params).params <= all
    ensures EvalAll(sem, EmitOps(ctx, key, insensitive, ops, params).factors, row, all) == True <==>
            forall i | 0 <= i < |ops| :: MatchesOp(sem, ops[i], insensitive, v)
  {
    if ops != [] {
      var first := EmitOp(ctx, key, insensitive, ops[0], params);
      var more := EmitOps(ctx, key, insensitive, ops[1..], first.params);
      OpMeaning(ctx, sem, key, insensitive, ops[0], row, v, params, all);
      OpsMeaning(ctx, sem, key, insensitive, ops[1..], row, v, first.params, all);
      EvalAllConcat(sem, first.factors, more.factors, row, all);
      assert forall i | 0 < i < |ops| :: ops[i] == ops[1..][i - 1];
    }
  }

  lemma StoredMeaning(ctx: Context, sem: Semantics, key: string, cond: Cond,
                      row: Row, v: Value, params: seq<Param>, all: seq<Param>)
    requires ReadRef(sem, row, RefOf(ctx, key)) == v
    requires match cond
             case Is(x) => x == Null || Settled(ctx, key, x)
             case Where(ops) => forall i | 0 <= i < |ops| :: SupportedOp(ctx, key, ops[i])
    requires ctx.coerce(TypeOf(ctx, key), Null) == Null
    requires EmitStored(ctx, key, cond, params).params <= all
    ensures EvalAll(sem, EmitStored(ctx, key, cond, params).factors, row, all) == True <==>
            MatchesCond(sem, cond, v)
  {
    var e := EmitStored(ctx, key, cond, params);
    match cond
    case Where(ops) =>
      OpsMeaning(ctx, sem, key, 'i' in FlagsOf(ops), ops, row, v, params, all);
      assert [Leaf(Always)][1..] == [];
    case Is(x) =>
      if x != Null {
        ExtensionKeeps(params, e.params[|params|], all);
      }
      assert e.factors[1..] == [];
  }

  /** Which strings a list of lookups finds: None is dropped, anything else is looked up as text. */
  predicate Finds(ctx: Context, vs: seq<Value>, s: string) {
    exists i :: 0 <= i < |vs| && vs[i] != Null && Str(ctx, vs[i]) == s
  }

  lemma {:induction false} IndexAllFinds(ctx: Context, vs: seq<Value>, s: string)
    requires Lawful(ctx.crypto)
    ensures Text(ctx.crypto.hmac(s)) in IndexAll(ctx, vs) <==> Finds(ctx, vs, s)
    ensures Null !in IndexAll(ctx, vs)
    ensures IndexAll(ctx, vs) == [] ==> !Finds(ctx, vs, s)
  {
    if vs != [] {
      IndexAllFinds(ctx, vs[1..], s);
      FindsCons(ctx, vs, s);
    }
  }

  lemma FindsCons(ctx: Context, vs: seq<Value>, s: string)
    requires vs != []
    ensures Finds(ctx, vs, s) <==> (vs[0] != Null && Str(ctx, vs[0]) == s) || Finds(ctx, vs[1..], s)
  {
    if i :| 0 < i < |vs| && vs[i] != Null && Str(ctx, vs[i]) == s {
      assert vs[1..][i - 1] == vs[i];
    }
    if i :| 0 <= i < |vs[1..]| && vs[1..][i] != Null && Str(ctx, vs[1..][i]) == s {
      assert vs[i + 1] == vs[1..][i];
    }
  }

  lemma CipheredMeaning(ctx: Context, sem: Semantics, key: string, cond: Cond,
                        row: Row, v: Value, params: seq<Param>, all: seq<Param>)
    requires WellFormedTable(ctx) && Ciphered(ctx, key)
    requires StoresCiphered(ctx, row, key, v)
    requires SupportedCond(ctx, key, cond)
    requires EmitOn(ctx, key, cond, params).params <= all
    ensures EvalAll(sem, EmitOn(ctx, key, cond, params).factors, row, all) == True <==>
            MatchesCond(sem, cond, v)
  {
    match cond
    case Where(ops) =>
      assert ops == [ops[0]];
      CipheredOpMeaning(ctx, sem, key, ops[0], row, v, params, all);
    case Is(x) =>
      var e := EmitOn(ctx, key, cond, params);
      if x != Null { ExtensionKeeps(params, e.params[|params|], all); }
      assert e.factors == [Leaf(e.factors[0].atom)];
      EvalSingle(sem, e.factors[0].atom, row, all);
  }

  lemma CipheredOpMeaning(ctx: Context, sem: Semantics, key: string, op: Operator,
                          row: Row, v: Value, params: seq<Param>, all: seq<Param>)
    requires WellFormedTable(ctx) && Ciphered(ctx, key)
    requires StoresCiphered(ctx, row, key, v)
    requires SupportedCond(ctx, key, Where([op]))
    requires EmitOn(ctx, key, Where([op]), params).params <= all
    ensures EvalAll(sem, EmitOn(ctx, key, Where([op]), params).factors, row, all) == True <==>
            MatchesCond(sem, Where([op]), v)
  {
    hide EmitOps, IndexAll;
    var e := EmitOn(ctx, key, Where([op]), params);
    assert [op][1..] == [] && [op][0] == op;
    assert FirstNe([op][1..]) == Null && FirstIn([op][1..]) == None;
    assert MatchesCond(sem, Where([op]), v) <==> MatchesOp(sem, op, false, v);
    SingleOp(ctx, key, op, params);
    assert |e.factors| == 1 && e.factors == [Leaf(e.factors[0].atom)];
    EvalSingle(sem, e.factors[0].atom, row, all);
    if e.params != params {
      ExtensionKeeps(params, e.params[|params|], all);
    }
    if op.In? {
      IndexAllFinds(ctx, op.items, if v.Text? then v.s else "");
    }
  }

  lemma SingleOp(ctx: Context, key: string, op: Operator, params: seq<Param>)
    ensures forall i: bool :: EmitOps(ctx, key, i, [op], params) == EmitOp(ctx, key, i, op, params)
  {
    forall i: bool
      ensures EmitOps(ctx, key, i, [op], params) == EmitOp(ctx, key, i, op, params)
    {
      var first := EmitOp(ctx, key, i, op, params);
      assert [op][1..] == [];
      assert first.factors + [] == first.factors;
    }
  }

  lemma {:induction false} ClauseMeaning(ctx: Context, sem: Semantics, clause: Clause,
                                         row: Row, doc: Doc, params: seq<Param>, all: seq<Param>)
    requires WellFormedTable(ctx) && Stores(ctx, row, doc) && TextOverflow(row)
    requires SupportedClause(ctx, clause)
    requires EmitClause(ctx, clause, params).params <= all
    ensures EvalAll(sem, EmitClause(ctx, clause, params).factors, row, all) == True <==>
            MatchesClause(sem, clause, doc)
    decreases clause, 0
  {
    match clause
    case On(key, cond) =>
      if Ciphered(ctx, key) {
        CipheredMeaning(ctx, sem, key, cond, row, Get(doc, key), params, all);
      } else {
        StoredReads(ctx, sem, row, doc, key);
        StoredMeaning(ctx, sem, key, cond, row, Get(doc, key), params, all);
      }
    case Or(branches) =>
      hide Stores, TextOverflow, WellFormedTable;
      var e := EmitClause(ctx, clause, params);
      assert e.factors[1..] == [];
      if branches != [] {
        var (terms, _) := EmitBranches(ctx, branches, params);
        BranchesMeaning(ctx, sem, branches, row, doc, params, all);
        AnyTrue(sem, terms, row, all);
      }
  }

  lemma {:induction false} BranchesMeaning(ctx: Context, sem: Semantics, branches: seq<Filter>,
                                           row: Row, doc: Doc, params: seq<Param>, all: seq<Param>)
    requires WellFormedTable(ctx) && Stores(ctx, row, doc) && TextOverflow(row)
    requires forall i | 0 <= i < |branches| :: Supported(ctx, branches[i])
    requires EmitBranches(ctx, branches, params).1 <= all
    ensures EvalAny(sem, EmitBranches(ctx, branches, params).0, row, all) == True <==>
            exists i | 0 <= i < |branches| :: Matches(sem, branches[i], doc)
    decreases branches, 2
  {
    if branches != [] {
      assert branches[0] in branches;
      var first := EmitFilter(ctx, branches[0], params);
      FilterMeaning(ctx, sem, branches[0], row, doc, params, all);
      BranchesMeaning(ctx, sem, branches[1..], row, doc, first.params, all);
      SingleGroup(sem, first.factors, row, all);
      assert forall i | 0 < i < |branches| :: branches[i] == branches[1..][i - 1];
    }
  }

  lemma SingleGroup(sem: Semantics, factors: seq<Prim>, row: Row, params: seq<Param>)
    ensures EvalAll(sem, [Group(Expr([Conj(factors)]))], row, params) == EvalAll(sem, factors, row, params)
  {
    var g := Group(Expr([Conj(factors)]));
    assert [g][1..] == [];
    assert [Conj(factors)][1..] == [];
    assert EvalPrim(sem, g, row, params) == EvalAny(sem, [Conj(factors)], row, params);
  }

  lemma {:induction false} ClausesMeaning(ctx: Context, sem: Semantics, clauses: seq<Clause>,
                                          row: Row, doc: Doc, params: seq<Param>, all: seq<Param>)
    requires WellFormedTable(ctx) && Stores(ctx, row, doc) && TextOverflow(row)
    requires forall i | 0 <= i < |clauses| :: SupportedClause(ctx, clauses[i])
    requires EmitClauses(ctx, clauses, params).params <= all
    ensures EvalAll(sem, EmitClauses(ctx, clauses, params).factors, row, all) == True <==>
            forall i | 0 <= i < |clauses| :: MatchesClause(sem, clauses[i], doc)
    decreases clauses, 1
  {
    if clauses != [] {
      var first := EmitClause(ctx, clauses[0], params);
      var more := EmitClauses(ctx, clauses[1..], first.params);
      ClauseMeaning(ctx, sem, clauses[0], row, doc, params, all);
      ClausesMeaning(ctx, sem, clauses[1..], row, doc, first.params, all);
      EvalAllConcat(sem, first.factors, more.factors, row, all);
      assert forall i | 0 < i < |clauses| :: clauses[i] == clauses[1..][i - 1];
    }
  }

  /**
   * Translation preserves meaning: on any row that stores a document, and under any later
   * extension of the parameter list, the condition is TRUE in SQL's three-valued logic
   * exactly when the filter matches the document.
   */
  lemma {:induction false} FilterMeaning(ctx: Context, sem: Semantics, filter: Filter,
                                         row: Row, doc: Doc, params: seq<Param>, all: seq<Param>)
    requires WellFormedTable(ctx) && Stores(ctx, row, doc) && TextOverflow(row)
    requires Supported(ctx, filter)
    requires EmitFilter(ctx, filter, params).params <= all
    ensures EvalAll(sem, EmitFilter(ctx, filter, params).factors, row, all) == True <==>
            Matches(sem, filter, doc)
    decreases filter, 0
  {
    ClausesMeaning(ctx, sem, filter.clauses, row, doc, params, all);
    assert [Leaf(Always)][1..] == [];
  }

  // ------------------------------------------------------------- case and coercion

  lemma {:induction false} LikesAreSo(ctx: Context, key: string, insensitive: bool, ops: seq<Operator>,
                                      params: seq<Param>)
    ensures forall p | p in EmitOps(ctx, key, insensitive, ops, params).factors ::
              p.Leaf? && (p.atom.Like? ==> p.atom.insensitive == insensitive)
  {
    if ops != [] {
      LikesAreSo(ctx, key, insensitive, ops[1..], EmitOp(ctx, key, insensitive, ops[0], params).params);
    }
  }

  /** Every pattern match of an emitted condition ignores case exactly when the object asks so,
      whether its `$options` stand before or after the `$regex`. */
  lemma CaseFollowsOptions(ctx: Context, key: string, ops: seq<Operator>, params: seq<Param>)
    requires OneOptions(ops)
    ensures forall p | p in EmitStored(ctx, key, Where(ops), params).factors && p.Leaf? && p.atom.Like? ::
              p.atom.insensitive <==> AsksInsensitive(ops)
  {
    FlagsAsked(ops);
    LikesAreSo(ctx, key, 'i' in FlagsOf(ops), ops, params);
  }

  /** Values and operands meet: a declared plaintext column written with any value is found by a
      query for that same value, both coerced to the column's type, however ill-typed it was. */
  lemma WrittenIsFound(ctx: Context, sem: Semantics, key: string, v: Value, row: Row,
                       params: seq<Param>, all: seq<Param>)
    requires key in ctx.columns && !Ciphered(ctx, key) && v != Null
    requires Get(row.cols, key) == ctx.coerce(ctx.columns[key], v) != Null
    requires EmitOn(ctx, key, Is(v), params).params <= all
    ensures EvalAll(sem, EmitOn(ctx, key, Is(v), params).factors, row, all) == True
  {
    var e := EmitOn(ctx, key, Is(v), params);
    assert e.factors == [Leaf(e.factors[0].atom)];
    EvalSingle(sem, e.factors[0].atom, row, all);
    ExtensionKeeps(params, e.params[|params|], all);
  }

  /** Undeclared keys hold text, and operands for them are coerced to text. */
  lemma OverflowIsFound(ctx: Context, sem: Semantics, key: string, v: Value, row: Row,
                        params: seq<Param>, all: seq<Param>)
    requires key !in ctx.columns && !Ciphered(ctx, key) && v != Null
    requires Get(row.extra, key) == ctx.coerce(TextType, v) && ctx.coerce(TextType, v).Text?
    requires EmitOn(ctx, key, Is(v), params).params <= all
    ensures EvalAll(sem, EmitOn(ctx, key, Is(v), params).factors, row, all) == True
  {
    var e := EmitOn(ctx, key, Is(v), params);
    assert e.factors == [Leaf(e.factors[0].atom)];
    EvalSingle(sem, e.factors[0].atom, row, all);
    ExtensionKeeps(params, e.params[|params|], all);
  }

  // -------------------------------------------------------- where the dialects part

  /** Does the condition emitted for `key` select a row? */
  ghost predicate SelectsOn(ctx: Context, sem: Semantics, key: string, cond: Cond, row: Row) {
    var e := EmitOn(ctx, key, cond, []);
    EvalAll(sem, e.factors, row, e.params) == True
  }

  /** The one row that stores a given plaintext in a ciphered column. */
  ghost function Sample(ctx: Context, key: string, plain: Value): (row: Row)
    requires plain == Null || plain.Text?
    ensures StoresCiphered(ctx, row, key, plain)
  {
    assert |IndexColumn(key)| != |key|;
    var index := if plain == Null then Null else Text(ctx.crypto.hmac(plain.s));
    Row(map[key := plain, IndexColumn(key) := index], map[])
  }

  lemma {:induction false} FirstInIsAnOperator(ops: seq<Operator>)
    ensures FirstIn(ops).Some? ==> In(FirstIn(ops).value) in ops
    ensures FirstIn(ops) == None ==> forall op | op in ops :: !op.In?
    ensures FirstNe(ops) != Null ==> Ne(FirstNe(ops)) in ops
  {
    if ops != [] {
      FirstInIsAnOperator(ops[1..]);
    }
  }

  /** On a ciphered column `$in` is answered alone, as text: it selects the strings its non-None
      items look up, whatever other operators the object has. */
  lemma CipheredInSelects(ctx: Context, sem: Semantics, key: string, ops: seq<Operator>, items: seq<Value>,
                          row: Row, v: Value)
    requires WellFormedTable(ctx) && Ciphered(ctx, key) && StoresCiphered(ctx, row, key, v)
    requires FirstIn(ops) == Some(items)
    ensures SelectsOn(ctx, sem, key, Where(ops), row) <==> v.Text? && Finds(ctx, items, v.s)
  {
    IndexAllFinds(ctx, items, if v.Text? then v.s else "");
    var e := EmitOn(ctx, key, Where(ops), []);
    assert |e.factors| == 1 && e.factors == [Leaf(e.factors[0].atom)];
    EvalSingle(sem, e.factors[0].atom, row, e.params);
    assert IndexAll(ctx, items) != [] ==> e.params[0] == List(IndexAll(ctx, items));
  }

  /** The dialect and the lookup agree about one listed item: a None must not match, anything
      else must match as the text it is looked up by. */
  predicate ItemAgrees(ctx: Context, sem: Semantics, ops: seq<Operator>, x: Value) {
    if x == Null then !MatchesCond(sem, Where(ops), Null) else MatchesCond(sem, Where(ops), Text(Str(ctx, x)))
  }

  /** So the object keeps its meaning on every row exactly when each listed item agrees. */
  lemma CipheredInExact(ctx: Context, sem: Semantics, key: string, ops: seq<Operator>, items: seq<Value>)
    requires WellFormedTable(ctx) && Ciphered(ctx, key) && FirstIn(ops) == Some(items)
    ensures (forall row, v | StoresCiphered(ctx, row, key, v) ::
               SelectsOn(ctx, sem, key, Where(ops), row) <==> MatchesCond(sem, Where(ops), v))
            <==> forall x | x in items :: ItemAgrees(ctx, sem, ops, x)
  {
    FirstInIsAnOperator(ops);
    var at :| 0 <= at < |ops| && ops[at] == In(items);
    forall row, v | StoresCiphered(ctx, row, key, v)
      ensures SelectsOn(ctx, sem, key, Where(ops), row) <==> v.Text? && Finds(ctx, items, v.s)
      ensures MatchesCond(sem, Where(ops), v) ==> v in items
    {
      CipheredInSelects(ctx, sem, key, ops, items, row, v);
      assert MatchesCond(sem, Where(ops), v) ==> MatchesOp(sem, ops[at], 'i' in FlagsOf(ops), v);
    }
    if forall x | x in items :: ItemAgrees(ctx, sem, ops, x) {
      forall row, v | StoresCiphered(ctx, row, key, v)
        ensures SelectsOn(ctx, sem, key, Where(ops), row) <==> MatchesCond(sem, Where(ops), v)
      {
        if v.Text? && Finds(ctx, items, v.s) {
          var i :| 0 <= i < |items| && items[i] != Null && Str(ctx, items[i]) == v.s;
          assert ItemAgrees(ctx, sem, ops, items[i]);
        } else if v in items {
          ListedIsFound(ctx, items, v);
          assert ItemAgrees(ctx, sem, ops, v);
        }
      }
    } else {
      var x :| x in items && !ItemAgrees(ctx, sem, ops, x);
      var v := if x == Null then Null else Text(Str(ctx, x));
      assert StoresCiphered(ctx, Sample(ctx, key, v), key, v);
      if x != Null { ListedIsFound(ctx, items, x); }
    }
  }

  lemma ListedIsFound(ctx: Context, items: seq<Value>, x: Value)
    requires x in items
    ensures x != Null ==> Finds(ctx, items, Str(ctx, x))
  {
    var i :| 0 <= i < |items| && items[i] == x;
  }

  /**
   * None inside `$in`, encrypted column or not: MongoDB lets it match a missing field, `= ANY`
   * never does. The two agree on a row exactly when the field has a value or the list has no None,
   * and, on an encrypted column, no item is taken for the value by its text alone.
   */
  lemma NullInListExact(ctx: Context, sem: Semantics, key: string, items: seq<Value>, row: Row, v: Value)
    requires if Ciphered(ctx, key) then WellFormedTable(ctx) && StoresCiphered(ctx, row, key, v)
             else
               ReadRef(sem, row, RefOf(ctx, key)) == v &&
               forall x | x in items :: ctx.coerce(TypeOf(ctx, key), x) == x
    ensures (SelectsOn(ctx, sem, key, Where([In(items)]), row) <==> MatchesCond(sem, Where([In(items)]), v))
            <==> !(v == Null && Null in items) &&
                 (Ciphered(ctx, key) && v.Text? && Finds(ctx, items, v.s) ==> v in items)
  {
    var ops := [In(items)];
    assert MatchesCond(sem, Where(ops), v) <==> MatchesOp(sem, ops[0], 'i' in FlagsOf(ops), v);
    if Ciphered(ctx, key) {
      CipheredInSelects(ctx, sem, key, ops, items, row, v);
      if v in items { ListedIsFound(ctx, items, v); }
    } else {
      StoredInSelects(ctx, sem, key, items, row, v);
    }
  }

  lemma StoredInSelects(ctx: Context, sem: Semantics, key: string, items: seq<Value>, row: Row, v: Value)
    requires !Ciphered(ctx, key) && ReadRef(sem, row, RefOf(ctx, key)) == v
    requires forall x | x in items :: ctx.coerce(TypeOf(ctx, key), x) == x
    ensures SelectsOn(ctx, sem, key, Where([In(items)]), row) <==> v != Null && v in items
  {
    SingleOp(ctx, key, In(items), []);
    var e := EmitOn(ctx, key, Where([In(items)]), []);
    assert e == EmitOp(ctx, key, 'i' in FlagsOf([In(items)]), In(items), []);
    CoerceSettled(ctx, key, items);
    assert |e.factors| == 1 && e.factors == [Leaf(e.factors[0].atom)];
    EvalSingle(sem, e.factors[0].atom, row, e.params);
    assert items != [] ==> e.params[0] == List(items);
  }

  /** Operators that make no difference to strings and missing fields beside a `$ne` of `t`; a
      `$ne` of anything but text or None is true of all of those. */
  predicate InertBeside(t: Value, op: Operator) {
    op.Options? || op.Unsupported? || (op.Ne? && (op.value == t || (op.value != Null && !op.value.Text?)))
  }

  lemma CipheredNeSelects(ctx: Context, sem: Semantics, key: string, ops: seq<Operator>, x: Value, row: Row, v: Value)
    requires WellFormedTable(ctx) && Ciphered(ctx, key) && StoresCiphered(ctx, row, key, v)
    requires FirstIn(ops) == None && FirstNe(ops) == x && x != Null
    ensures SelectsOn(ctx, sem, key, Where(ops), row) <==> v != Text(Str(ctx, x))
  {
    var e := EmitOn(ctx, key, Where(ops), []);
    assert |e.factors| == 1 && e.factors == [Leaf(e.factors[0].atom)];
    EvalSingle(sem, e.factors[0].atom, row, e.params);
    assert e.params[0] == Scalar(Text(ctx.crypto.hmac(Str(ctx, x))));
  }

  /** `$ne` on a ciphered column is answered alone too, as text. So the object keeps its meaning
      on every row exactly when that text is among its `$ne`s and every companion is inert: a
      range or pattern would already refuse a missing field. */
  lemma CipheredNeExact(ctx: Context, sem: Semantics, key: string, ops: seq<Operator>, x: Value)
    requires WellFormedTable(ctx) && Ciphered(ctx, key)
    requires FirstIn(ops) == None && FirstNe(ops) == x && x != Null
    ensures (forall row, v | StoresCiphered(ctx, row, key, v) ::
               SelectsOn(ctx, sem, key, Where(ops), row) <==> MatchesCond(sem, Where(ops), v))
            <==> Ne(Text(Str(ctx, x))) in ops && forall op | op in ops :: InertBeside(Text(Str(ctx, x)), op)
  {
    FirstInIsAnOperator(ops);
    var t := Text(Str(ctx, x));
    forall row, v | StoresCiphered(ctx, row, key, v)
      ensures SelectsOn(ctx, sem, key, Where(ops), row) <==> v != t
    {
      CipheredNeSelects(ctx, sem, key, ops, x, row, v);
    }
    NeAlone(sem, ops, t);
    if v: Value :| (v == Null || v.Text?) && !(MatchesCond(sem, Where(ops), v) <==> v != t) {
      assert StoresCiphered(ctx, Sample(ctx, key, v), key, v);
    }
  }

  /** Over missing fields and strings, an object means "not `t`" exactly when it says so and its
      other operators are inert. */
  lemma NeAlone(sem: Semantics, ops: seq<Operator>, t: Value)
    requires t.Text? && forall op | op in ops :: !op.In?
    ensures (forall v: Value | v == Null || v.Text? :: MatchesCond(sem, Where(ops), v) <==> v != t)
            <==> Ne(t) in ops && forall op | op in ops :: InertBeside(t, op)
  {
    assert forall i | 0 <= i < |ops| :: ops[i] in ops;
    if op :| op in ops && !InertBeside(t, op) {
      var i :| 0 <= i < |ops| && ops[i] == op;
      var v := if op.Ne? then op.value else Null;
      assert !MatchesOp(sem, ops[i], 'i' in FlagsOf(ops), v);
      assert !MatchesCond(sem, Where(ops), v) && v != t;
    } else {
      forall v: Value | v == Null || v.Text?
        ensures MatchesCond(sem, Where(ops), v) <==> v != t || Ne(t) !in ops
      {
        if Ne(t) in ops {
          var at :| 0 <= at < |ops| && ops[at] == Ne(t);
          assert MatchesCond(sem, Where(ops), v) ==> MatchesOp(sem, ops[at], 'i' in FlagsOf(ops), v);
        }
      }
      assert MatchesCond(sem, Where(ops), t) <==> Ne(t) !in ops;
    }
  }

  // -------------------------------------------------------------- the text that is sent

  /** The WHERE clause as text; a body that is just TRUE is left out. */
  function WhereText(ctx: Context, filter: Filter, params: seq<Param>): Option<seq<Token>> {
    var body := PrintFactors(EmitFilter(ctx, filter, params).factors);
    if body == [AtomText(Always)] then None else Some(body)
  }

  /** What the database does with such a clause: read it by its grammar, keep rows that are TRUE. */
  predicate Selects(sem: Semantics, clause: Option<seq<Token>>, row: Row, params: seq<Param>) {
    match clause
    case None => true
    case Some(text) =>
      match ParseTerms(text)
      case Got(terms, rest) => rest == [] && EvalAny(sem, terms, row, params) == True
      case Stuck => false
  }

  /**
   * From text back to meaning, at any `$or` depth: the database, reading the clause with AND
   * binding tighter than OR, keeps exactly the rows whose document the filter matches.
   */
  lemma WhereSelectsMatches(ctx: Context, sem: Semantics, filter: Filter, row: Row, doc: Doc,
                            params: seq<Param>, all: seq<Param>)
    requires WellFormedTable(ctx) && Stores(ctx, row, doc) && TextOverflow(row)
    requires Supported(ctx, filter)
    requires EmitFilter(ctx, filter, params).params <= all
    ensures Selects(sem, WhereText(ctx, filter, params), row, all) <==> Matches(sem, filter, doc)
  {
    var factors := EmitFilter(ctx, filter, params).factors;
    FilterThreaded(ctx, filter, params);
    FilterMeaning(ctx, sem, filter, row, doc, params, all);
    var terms := [Conj(factors)];
    assert terms[1..] == [];
    assert EvalAny(sem, terms, row, all) == EvalAll(sem, factors, row, all);
    assert WritableTerms(terms);
    ReadBackTerms(terms, []);
    assert PrintTerms(terms) + [] == PrintFactors(factors);
    if PrintFactors(factors) == [AtomText(Always)] {
      ReadBackTerms([Conj([Leaf(Always)])], []);
      assert PrintTerms([Conj([Leaf(Always)])]) + [] == [AtomText(Always)];
      assert factors == [Leaf(Always)];
      assert factors[1..] == [];
    }
  }

  /** The search over several fields at once: each by pattern, any of them sufficing. */
  function Search(fields: seq<string>, term: string): Filter {
    Filter([Or(seq(|fields|, i requires 0 <= i < |fields| =>
      Filter([On(fields[i], Where([Regex(term), Options("i")]))])))])
  }

  /** The search keeps exactly the rows in which some field matches, whatever its case. */
  lemma SearchSelects(ctx: Context, sem: Semantics, fields: seq<string>, term: string, row: Row, doc: Doc,
                      params: seq<Param>, all: seq<Param>)
    requires WellFormedTable(ctx) && Stores(ctx, row, doc) && TextOverflow(row) && fields != []
    requires forall f | f in fields :: f !in ctx.encrypted && !IsIndexColumn(ctx, f)
    requires EmitFilter(ctx, Search(fields, term), params).params <= all
    ensures Selects(sem, WhereText(ctx, Search(fields, term), params), row, all) <==>
            exists f | f in fields :: f in doc && doc[f] != Null && sem.matches(term, true, doc[f])
  {
    hide Selects, WhereText, Stores, WellFormedTable, EmitFilter;
    var ops, filter := [Regex(term), Options("i")], Search(fields, term);
    var clause := filter.clauses[0];
    forall i | 0 <= i < |fields|
      ensures Supported(ctx, clause.branches[i])
      ensures Matches(sem, clause.branches[i], doc) <==>
              fields[i] in doc && doc[fields[i]] != Null && sem.matches(term, true, doc[fields[i]])
    {
      assert fields[i] in fields;
      BranchMeans(ctx, sem, fields[i], term, doc);
    }
    assert Supported(ctx, filter);
    WhereSelectsMatches(ctx, sem, filter, row, doc, params, all);
    assert Matches(sem, filter, doc) <==> MatchesClause(sem, clause, doc);
  }

  lemma BranchMeans(ctx: Context, sem: Semantics, f: string, term: string, doc: Doc)
    requires f !in ctx.encrypted && !IsIndexColumn(ctx, f)
    ensures var branch := Filter([On(f, Where([Regex(term), Options("i")]))]);
            && Supported(ctx, branch)
            && (Matches(sem, branch, doc) <==> f in doc && doc[f] != Null && sem.matches(term, true, doc[f]))
  {
    var ops := [Regex(term), Options("i")];
    assert OneOptions(ops) && ops[1].Options? && 'i' in ops[1].flags;
    assert AsksInsensitive(ops);
    RegexMeans(sem, ops, Get(doc, f));
    var branch := Filter([On(f, Where(ops))]);
    assert Matches(sem, branch, doc) <==> MatchesClause(sem, branch.clauses[0], doc);
    assert ops[0].Regex?;
  }

  /** The one encrypted table, as declared, meets what is asked of a table. */
  lemma CustomersAreWellFormed(ctx: Context)
    requires ctx.encrypted == ["phone", "email"]
    requires forall k | k in {"phone", "email", "phone_bidx", "email_bidx"} ::
               k in ctx.columns && ctx.columns[k] == TextType
    requires "_id" !in ctx.columns
    requires forall n, s :: ctx.crypto.decipher(ctx.crypto.cipher(n, s)) == Some(s)
    requires forall a, b :: ctx.crypto.hmac(a) == ctx.crypto.hmac(b) ==> a == b
    requires forall t :: ctx.coerce(t, Null) == Null
    requires forall s :: ctx.coerce(TextType, Text(s)) == Text(s)
    ensures WellFormedTable(ctx)
    ensures forall k :: IsIndexColumn(ctx, k) <==> k in {"phone_bidx", "email_bidx"}
  {
    assert IndexColumn("phone") == "phone_bidx" && IndexColumn("email") == "email_bidx";
    assert |"phone"| == 5 && |"email"| == 5 && |"phone_bidx"| == 10 && |"email_bidx"| == 10;
    assert "phone"[0] != "email"[0];
  }
}
