/** SQL conditions: syntax, three-valued meaning, and the token form they are sent in. */
module Sql {
  import opened Values
  import opened Filters

  /** A typed column, or a key of the JSONB overflow object read with `->>`. */
  datatype Ref = Column(name: string) | Overflow(key: string)

  datatype Param = Scalar(v: Value) | List(vs: seq<Value>) | Object(fields: map<string, Value>)

  /** An indivisible condition; `ph` is the number n of a placeholder `$n`, from 1. */
  datatype Atom =
    | Always
    | Never
    | Missing(ref: Ref)
    | Test(ref: Ref, op: Comparison, ph: nat)
    | Like(ref: Ref, insensitive: bool, ph: nat)
    | AnyOf(ref: Ref, ph: nat)
    | Distinct(ref: Ref, ph: nat)

  // The grammar the emitted text lives in: OR of ANDs of atoms or parenthesised conditions.
  datatype Expr = Expr(terms: seq<Conj>)
  datatype Conj = Conj(factors: seq<Prim>)
  datatype Prim = Leaf(atom: Atom) | Group(inner: Expr)

  datatype Row = Row(cols: map<string, Value>, extra: map<string, Value>)

  datatype Tri = True | False | Unknown

  function And3(a: Tri, b: Tri): Tri {
    if a == False || b == False then False
    else if a == True && b == True then True
    else Unknown
  }

  function Or3(a: Tri, b: Tri): Tri {
    if a == True || b == True then True
    else if a == False && b == False then False
    else Unknown
  }

  function Lift(b: bool): Tri {
    if b then True else False
  }

  function ReadRef(sem: Semantics, row: Row, ref: Ref): Value {
    match ref
    case Column(name) => Get(row.cols, name)
    case Overflow(key) =>
      match Get(row.extra, key)
      case Null => Null
      case Text(s) => Text(s)
      case v => Text(sem.render(v))
  }

  /** `x = ANY(list)`: NULL elements can turn "not found" into unknown, never into true. */
  function AnyOf3(x: Value, items: seq<Value>): Tri {
    if items == [] then False
    else if x == Null then Unknown
    else if x in items then True
    else if Null in items then Unknown
    else False
  }

  function EvalAtom(sem: Semantics, a: Atom, row: Row, params: seq<Param>): Tri {
    match a
    case Always => True
    case Never => False
    case Missing(ref) => Lift(ReadRef(sem, row, ref) == Null)
    case Test(ref, op, ph) =>
      if 1 <= ph <= |params| && params[ph - 1].Scalar? then
        var x, y := ReadRef(sem, row, ref), params[ph - 1].v;
        if x == Null || y == Null then Unknown else Lift(Compare(sem, op, x, y))
      else Unknown
    case Like(ref, insensitive, ph) =>
      if 1 <= ph <= |params| && params[ph - 1].Scalar? then
        var x, y := ReadRef(sem, row, ref), params[ph - 1].v;
        if x == Null || !y.Text? then Unknown else Lift(sem.matches(y.s, insensitive, x))
      else Unknown
    case AnyOf(ref, ph) =>
      if 1 <= ph <= |params| && params[ph - 1].List? then
        AnyOf3(ReadRef(sem, row, ref), params[ph - 1].vs)
      else Unknown
    case Distinct(ref, ph) =>
      if 1 <= ph <= |params| && params[ph - 1].Scalar? then
        Lift(ReadRef(sem, row, ref) != params[ph - 1].v)
      else Unknown
  }

  function EvalPrim(sem: Semantics, p: Prim, row: Row, params: seq<Param>): Tri
    decreases p, 0
  {
    match p
    case Leaf(a) => EvalAtom(sem, a, row, params)
    case Group(e) => EvalAny(sem, e.terms, row, params)
  }

  function EvalAll(sem: Semantics, factors: seq<Prim>, row: Row, params: seq<Param>): Tri
    decreases factors, 1
  {
    if factors == [] then True
    else And3(EvalPrim(sem, factors[0], row, params), EvalAll(sem, factors[1..], row, params))
  }

  function EvalAny(sem: Semantics, terms: seq<Conj>, row: Row, params: seq<Param>): Tri
    decreases terms, 2
  {
    if terms == [] then False
    else
      assert terms[0] in terms;
      Or3(EvalAll(sem, terms[0].factors, row, params), EvalAny(sem, terms[1..], row, params))
  }

  lemma {:induction false} AnyTrue(sem: Semantics, terms: seq<Conj>, row: Row, params: seq<Param>)
    ensures EvalAny(sem, terms, row, params) == True <==>
            exists i | 0 <= i < |terms| :: EvalAll(sem, terms[i].factors, row, params) == True
  {
    if terms != [] {
      AnyTrue(sem, terms[1..], row, params);
      assert forall i | 0 < i < |terms| :: terms[i] == terms[1..][i - 1];
    }
  }

  lemma {:induction false} EvalAllConcat(sem: Semantics, a: seq<Prim>, b: seq<Prim>, row: Row, params: seq<Param>)
    ensures EvalAll(sem, a + b, row, params) ==
            And3(EvalAll(sem, a, row, params), EvalAll(sem, b, row, params))
  {
    if a == [] {
      assert a + b == b;
    } else {
      EvalAllConcat(sem, a[1..], b, row, params);
      assert (a + b)[1..] == a[1..] + b;
    }
  }

  // ------------------------------------------------------------ tokens and their reading

  datatype Token = OpenParen | CloseParen | AndWord | OrWord | AtomText(atom: Atom)

  function PrintPrim(p: Prim): seq<Token>
    decreases p, 0
  {
    match p
    case Leaf(a) => [AtomText(a)]
    case Group(e) => [OpenParen] + PrintTerms(e.terms) + [CloseParen]
  }

  function PrintFactors(factors: seq<Prim>): seq<Token>
    decreases factors, 1
  {
    if factors == [] then []
    else if |factors| == 1 then PrintPrim(factors[0])
    else PrintPrim(factors[0]) + [AndWord] + PrintFactors(factors[1..])
  }

  function PrintTerms(terms: seq<Conj>): seq<Token>
    decreases terms, 2
  {
    if terms == [] then []
    else
      assert terms[0] in terms;
      if |terms| == 1 then PrintFactors(terms[0].factors)
      else PrintFactors(terms[0].factors) + [OrWord] + PrintTerms(terms[1..])
  }

  /** A tree the grammar can write: no empty AND or OR anywhere. */
  predicate WritablePrim(p: Prim)
    decreases p, 0
  {
    p.Group? ==> WritableTerms(p.inner.terms)
  }

  predicate WritableFactors(factors: seq<Prim>)
    decreases factors, 1
  {
    factors != [] && forall i | 0 <= i < |factors| :: WritablePrim(factors[i])
  }

  predicate WritableTerms(terms: seq<Conj>)
    decreases terms, 2
  {
    terms != [] && forall i | 0 <= i < |terms| ::
      assert terms[i] in terms; WritableFactors(terms[i].factors)
  }

  datatype Parsed<T> = Stuck | Got(tree: T, rest: seq<Token>)

  /** Recursive-descent reading in which AND binds tighter than OR. */
  function ParsePrim(ts: seq<Token>): (r: Parsed<Prim>)
    ensures r.Got? ==> |r.rest| < |ts|
    decreases |ts|, 0
  {
    if ts == [] then Stuck
    else if ts[0].AtomText? then Got(Leaf(ts[0].atom), ts[1..])
    else if ts[0] == OpenParen then
      match ParseTerms(ts[1..])
      case Stuck => Stuck
      case Got(terms, rest) =>
        if rest != [] && rest[0] == CloseParen then Got(Group(Expr(terms)), rest[1..]) else Stuck
    else Stuck
  }

  function ParseFactors(ts: seq<Token>): (r: Parsed<seq<Prim>>)
    ensures r.Got? ==> |r.rest| < |ts|
    decreases |ts|, 1
  {
    match ParsePrim(ts)
    case Stuck => Stuck
    case Got(p, rest) =>
      if rest != [] && rest[0] == AndWord then
        match ParseFactors(rest[1..])
        case Stuck => Stuck
        case Got(ps, rest') => Got([p] + ps, rest')
      else Got([p], rest)
  }

  function ParseTerms(ts: seq<Token>): (r: Parsed<seq<Conj>>)
    ensures r.Got? ==> |r.rest| < |ts|
    decreases |ts|, 2
  {
    match ParseFactors(ts)
    case Stuck => Stuck
    case Got(fs, rest) =>
      if rest != [] && rest[0] == OrWord then
        match ParseTerms(rest[1..])
        case Stuck => Stuck
        case Got(cs, rest') => Got([Conj(fs)] + cs, rest')
      else Got([Conj(fs)], rest)
  }

  predicate Ends(rest: seq<Token>) {
    rest == [] || rest[0] == CloseParen
  }

  lemma {:induction false} ReadBackPrim(p: Prim, rest: seq<Token>)
    requires WritablePrim(p)
    ensures ParsePrim(PrintPrim(p) + rest) == Got(p, rest)
    decreases p, 0
  {
    if p.Group? {
      var body := PrintTerms(p.inner.terms);
      assert (PrintPrim(p) + rest)[1..] == body + ([CloseParen] + rest);
      ReadBackTerms(p.inner.terms, [CloseParen] + rest);
      assert ([CloseParen] + rest)[1..] == rest;
    }
  }

  lemma {:induction false} ReadBackFactors(factors: seq<Prim>, rest: seq<Token>)
    requires WritableFactors(factors)
    requires rest == [] || rest[0] != AndWord
    ensures ParseFactors(PrintFactors(factors) + rest) == Got(factors, rest)
    decreases factors, 1
  {
    hide ParsePrim, PrintPrim;
    if |factors| == 1 {
      ReadBackPrim(factors[0], rest);
      assert factors == [factors[0]];
    } else {
      var tail := PrintFactors(factors[1..]) + rest;
      ReadBackPrim(factors[0], [AndWord] + tail);
      Regroup(PrintPrim(factors[0]), AndWord, PrintFactors(factors[1..]), rest);
      assert ([AndWord] + tail)[1..] == tail;
      ReadBackFactors(factors[1..], rest);
      assert factors == [factors[0]] + factors[1..];
    }
  }

  /** Printing loses nothing: whatever tree was written, the reader recovers that tree. */
  lemma {:induction false} ReadBackTerms(terms: seq<Conj>, rest: seq<Token>)
    requires WritableTerms(terms) && Ends(rest)
    ensures ParseTerms(PrintTerms(terms) + rest) == Got(terms, rest)
    decreases terms, 2
  {
    var first, more := terms[0], terms[1..];
    assert first in terms;
    if |terms| == 1 {
      ReadBackFactors(first.factors, rest);
      assert terms == [first];
    } else {
      var tail := PrintTerms(more) + rest;
      assert WritableTerms(more) by {
        assert forall i | 0 <= i < |more| :: more[i] == terms[i + 1];
      }
      ReadBackFactors(first.factors, [OrWord] + tail);
      ReadBackTerms(more, rest);
      TermsStep(first, more, terms, rest);
    }
  }

  lemma Regroup(a: seq<Token>, t: Token, b: seq<Token>, rest: seq<Token>)
    ensures (a + [t] + b) + rest == a + ([t] + (b + rest))
  {
  }

  lemma TermsStep(first: Conj, more: seq<Conj>, terms: seq<Conj>, rest: seq<Token>)
    requires terms == [first] + more && more != []
    requires ParseFactors(PrintFactors(first.factors) + ([OrWord] + (PrintTerms(more) + rest))) ==
             Got(first.factors, [OrWord] + (PrintTerms(more) + rest))
    requires ParseTerms(PrintTerms(more) + rest) == Got(more, rest)
    ensures ParseTerms(PrintTerms(terms) + rest) == Got(terms, rest)
  {
    hide ParseFactors, PrintFactors;
    var tail := PrintTerms(more) + rest;
    assert terms[1..] == more && terms[0] == first;
    assert PrintTerms(terms) == PrintFactors(first.factors) + [OrWord] + PrintTerms(more);
    Regroup(PrintFactors(first.factors), OrWord, PrintTerms(more), rest);
    assert ([OrWord] + tail)[1..] == tail;
  }

  /** Two conditions never share their text. */
  lemma PrintingIsUnambiguous(a: seq<Conj>, b: seq<Conj>)
    requires WritableTerms(a) && WritableTerms(b)
    requires PrintTerms(a) == PrintTerms(b)
    ensures a == b
  {
    ReadBackTerms(a, []);
    ReadBackTerms(b, []);
    assert PrintTerms(a) + [] == PrintTerms(b) + [];
  }
}
