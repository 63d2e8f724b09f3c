/** The Mongo filter dialect the routers use, with its meaning on documents. */
module Filters {
  import opened Values

  /** One `$`-operator of an operator object, in the object's order. */
  datatype Operator =
    | In(items: seq<Value>)
    | Ne(value: Value)
    | Gte(value: Value)
    | Lte(value: Value)
    | Gt(value: Value)
    | Lt(value: Value)
    | Regex(pattern: string)
    | Options(flags: string)
    | Unsupported(name: string)

  /** `Is(Null)` is a plain None; `Where` is a non-empty operator object. */
  datatype Cond = Is(value: Value) | Where(ops: seq<Operator>)

  datatype Clause = On(key: string, cond: Cond) | Or(branches: seq<Filter>)

  datatype Filter = Filter(clauses: seq<Clause>)

  datatype Comparison = Equal | AtLeast | AtMost | Above | Below

  /**
   * What the database decides about non-null values: a strict order, regular
   * expression matching, and the text form `->>` gives a non-string JSON value.
   */
  datatype Semantics = Semantics(
    below: (Value, Value) -> bool,
    matches: (string, bool, Value) -> bool,
    render: Value -> string)

  predicate Compare(sem: Semantics, op: Comparison, a: Value, b: Value) {
    match op
    case Equal => a == b
    case AtLeast => !sem.below(a, b)
    case AtMost => !sem.below(b, a)
    case Above => sem.below(b, a)
    case Below => sem.below(a, b)
  }

  /** The flags that accompany a `$regex`: those of the object's `$options`. */
  function FlagsOf(ops: seq<Operator>): string {
    if ops == [] then ""
    else if ops[0].Options? then ops[0].flags
    else FlagsOf(ops[1..])
  }

  /** An object asks for case-insensitive matching: some `$options` of it, wherever it stands. */
  predicate AsksInsensitive(ops: seq<Operator>) {
    exists i :: 0 <= i < |ops| && ops[i].Options? && 'i' in ops[i].flags
  }

  /** An object is a dict: no operator twice, so at most one `$options`. */
  predicate OneOptions(ops: seq<Operator>) {
    forall i, j | 0 <= i < j < |ops| :: !(ops[i].Options? && ops[j].Options?)
  }

  lemma {:induction false} FlagsAsked(ops: seq<Operator>)
    requires OneOptions(ops)
    ensures 'i' in FlagsOf(ops) <==> AsksInsensitive(ops)
  {
    if ops != [] && !ops[0].Options? {
      assert OneOptions(ops[1..]) by {
        assert forall i | 0 <= i < |ops| - 1 :: ops[1..][i] == ops[i + 1];
      }
      FlagsAsked(ops[1..]);
      if AsksInsensitive(ops) {
        var i :| 0 <= i < |ops| && ops[i].Options? && 'i' in ops[i].flags;
        assert ops[1..][i - 1] == ops[i];
      }
      if AsksInsensitive(ops[1..]) {
        var i :| 0 <= i < |ops[1..]| && ops[1..][i].Options? && 'i' in ops[1..][i].flags;
        assert ops[i + 1] == ops[1..][i];
      }
    }
  }

  /** A strict total order, as the database keeps on the values of one type. */
  ghost predicate TotalOrder(sem: Semantics) {
    && (forall a :: !sem.below(a, a))
    && (forall a, b :: sem.below(a, b) || a == b || sem.below(b, a))
    && (forall a, b :: sem.below(a, b) ==> !sem.below(b, a))
  }

  /** The comparisons are the ones their names say, in terms of the order alone. */
  lemma CompareMeans(sem: Semantics, a: Value, b: Value)
    requires TotalOrder(sem)
    ensures Compare(sem, Above, a, b) <==> sem.below(b, a)
    ensures Compare(sem, Below, a, b) <==> sem.below(a, b)
    ensures Compare(sem, AtLeast, a, b) <==> a == b || sem.below(b, a)
    ensures Compare(sem, AtMost, a, b) <==> a == b || sem.below(a, b)
    ensures Compare(sem, Equal, a, b) <==> !sem.below(a, b) && !sem.below(b, a)
  {
  }

  predicate MatchesOp(sem: Semantics, op: Operator, insensitive: bool, v: Value) {
    match op
    case In(items) => v in items
    case Ne(x) => v != x
    case Gte(x) => v != Null && x != Null && Compare(sem, AtLeast, v, x)
    case Lte(x) => v != Null && x != Null && Compare(sem, AtMost, v, x)
    case Gt(x) => v != Null && x != Null && Compare(sem, Above, v, x)
    case Lt(x) => v != Null && x != Null && Compare(sem, Below, v, x)
    case Regex(p) => v != Null && sem.matches(p, insensitive, v)
    case Options(_) => true
    case Unsupported(_) => true
  }

  predicate MatchesCond(sem: Semantics, cond: Cond, v: Value) {
    match cond
    case Is(x) => v == x
    case Where(ops) =>
      forall i | 0 <= i < |ops| :: MatchesOp(sem, ops[i], 'i' in FlagsOf(ops), v)
  }

  /** A `$regex` matches with the case rule its object asks for, beside the other operators. */
  lemma RegexMeans(sem: Semantics, ops: seq<Operator>, v: Value)
    requires OneOptions(ops)
    ensures MatchesCond(sem, Where(ops), v) <==>
            forall i | 0 <= i < |ops| ::
              if ops[i].Regex? then v != Null && sem.matches(ops[i].pattern, AsksInsensitive(ops), v)
              else MatchesOp(sem, ops[i], false, v)
  {
    FlagsAsked(ops);
    forall i | 0 <= i < |ops|
      ensures MatchesOp(sem, ops[i], 'i' in FlagsOf(ops), v) <==>
              if ops[i].Regex? then v != Null && sem.matches(ops[i].pattern, AsksInsensitive(ops), v)
              else MatchesOp(sem, ops[i], false, v)
    {
    }
  }

  predicate MatchesClause(sem: Semantics, clause: Clause, doc: Doc)
    decreases clause
  {
    match clause
    case On(key, cond) => MatchesCond(sem, cond, Get(doc, key))
    case Or(branches) =>
      // MongoDB refuses an empty `$or`; the application reads it as no constraint.
      branches == [] || exists i | 0 <= i < |branches| :: Matches(sem, branches[i], doc)
  }

  predicate Matches(sem: Semantics, filter: Filter, doc: Doc)
    decreases filter
  {
    forall i | 0 <= i < |filter.clauses| :: MatchesClause(sem, filter.clauses[i], doc)
  }
}
