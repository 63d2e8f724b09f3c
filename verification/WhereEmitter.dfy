/** The emitter as it runs: text fragments joined in loops over one shared parameter list. */
module WhereEmitter {
  import opened Values
  import opened Filters
  import opened Sql
  import opened QueryCompiler

  class ParamList {
    var items: seq<Param>

    constructor ()
      ensures items == []
    {
      items := [];
    }

    /** Append a value; the result is the number of its placeholder. */
    method Append(p: Param) returns (ph: nat)
      modifies this
      ensures items == old(items) + [p] && ph == |items|
    {
      items := items + [p];
      ph := |items|;
    }
  }

  /** `sep.join(parts)` on token texts. */
  function Join(sep: Token, parts: seq<seq<Token>>): seq<Token> {
    if parts == [] then []
    else if |parts| == 1 then parts[0]
    else Join(sep, parts[..|parts| - 1]) + [sep] + parts[|parts| - 1]
  }

  lemma JoinSnoc(sep: Token, parts: seq<seq<Token>>, part: seq<Token>)
    ensures Join(sep, parts + [part]) == if parts == [] then part else Join(sep, parts) + [sep] + part
  {
    assert (parts + [part])[..|parts|] == parts;
  }

  lemma {:induction false} PrintFactorsConcat(a: seq<Prim>, b: seq<Prim>)
    requires a != [] && b != []
    ensures PrintFactors(a + b) == PrintFactors(a) + [AndWord] + PrintFactors(b)
  {
    assert (a + b)[1..] == a[1..] + b;
    if |a| > 1 {
      PrintFactorsConcat(a[1..], b);
    } else {
      assert a[1..] + b == b;
    }
  }

  lemma {:induction false} PrintTermsSnoc(terms: seq<Conj>, t: Conj)
    requires terms != []
    ensures PrintTerms(terms + [t]) == PrintTerms(terms) + [OrWord] + PrintFactors(t.factors)
  {
    assert (terms + [t])[1..] == terms[1..] + [t];
    assert terms[0] in terms && (terms + [t])[0] in terms + [t];
    if |terms| > 1 {
      PrintTermsSnoc(terms[1..], t);
    } else {
      assert terms[1..] + [t] == [t];
      assert PrintTerms([t]) == PrintFactors(t.factors);
    }
  }

  /** `parts` are the texts of `factors`, cut anywhere between factors. */
  ghost predicate Texts(parts: seq<seq<Token>>, factors: seq<Prim>) {
    && (parts == [] <==> factors == [])
    && Join(AndWord, parts) == PrintFactors(factors)
  }

  lemma TextsSnoc(parts: seq<seq<Token>>, factors: seq<Prim>, more: seq<Prim>)
    requires Texts(parts, factors) && more != []
    ensures Texts(parts + [PrintFactors(more)], factors + more)
  {
    JoinSnoc(AndWord, parts, PrintFactors(more));
    if factors == [] {
      assert factors + more == more;
    } else {
      PrintFactorsConcat(factors, more);
    }
  }

  /** The fragment of one operator; None for the operators that emit nothing. */
  method Fragment(ctx: Context, key: string, insensitive: bool, op: Operator, params: ParamList)
    returns (text: Option<seq<Token>>)
    modifies params
    ensures var e := EmitOp(ctx, key, insensitive, op, old(params.items));
            && params.items == e.params
            && (if e.factors == [] then text == None else text == Some(PrintFactors(e.factors)))
  {
    var ref, t := RefOf(ctx, key), TypeOf(ctx, key);
    var ph: nat;
    match op {
      case In(items) =>
        if items == [] {
          return Some([AtomText(Never)]);
        }
        ph := params.Append(List(CoerceAll(ctx, t, items)));
        return Some([AtomText(AnyOf(ref, ph))]);
      case Ne(v) =>
        ph := params.Append(Scalar(ctx.coerce(t, v)));
        return Some([AtomText(Distinct(ref, ph))]);
      case Gte(v) =>
        ph := params.Append(Scalar(ctx.coerce(t, v)));
        return Some([AtomText(Test(ref, AtLeast, ph))]);
      case Lte(v) =>
        ph := params.Append(Scalar(ctx.coerce(t, v)));
        return Some([AtomText(Test(ref, AtMost, ph))]);
      case Gt(v) =>
        ph := params.Append(Scalar(ctx.coerce(t, v)));
        return Some([AtomText(Test(ref, Above, ph))]);
      case Lt(v) =>
        ph := params.Append(Scalar(ctx.coerce(t, v)));
        return Some([AtomText(Test(ref, Below, ph))]);
      case Regex(p) =>
        ph := params.Append(Scalar(Text(p)));
        return Some([AtomText(Like(ref, insensitive, ph))]);
      case Options(_) => return None;
      case Unsupported(_) => return None;
    }
  }

  lemma OpsAdvance(ctx: Context, key: string, insensitive: bool, ops: seq<Operator>, i: nat,
                   params: seq<Param>, done: seq<Prim>, whole: Emitted)
    requires i < |ops|
    requires var rest := EmitOps(ctx, key, insensitive, ops[i..], params);
             whole == Emitted(done + rest.factors, rest.params)
    ensures var e := EmitOp(ctx, key, insensitive, ops[i], params);
            var rest := EmitOps(ctx, key, insensitive, ops[i + 1..], e.params);
            whole == Emitted((done + e.factors) + rest.factors, rest.params)
  {
    assert ops[i..][0] == ops[i] && ops[i..][1..] == ops[i + 1..];
    var e := EmitOp(ctx, key, insensitive, ops[i], params);
    var rest := EmitOps(ctx, key, insensitive, ops[i + 1..], e.params);
    assert done + (e.factors + rest.factors) == (done + e.factors) + rest.factors;
  }

  method Fragments(ctx: Context, key: string, ops: seq<Operator>, params: ParamList) returns (frags: seq<seq<Token>>)
    modifies params
    ensures var e := EmitOps(ctx, key, 'i' in FlagsOf(ops), ops, old(params.items));
            params.items == e.params && Texts(frags, e.factors)
  {
    var insensitive := 'i' in FlagsOf(ops);
    ghost var whole := EmitOps(ctx, key, insensitive, ops, params.items);
    ghost var done: seq<Prim> := [];
    frags := [];
    assert ops[0..] == ops && done + whole.factors == whole.factors;
    for i := 0 to |ops|
      invariant Texts(frags, done)
      invariant var rest := EmitOps(ctx, key, insensitive, ops[i..], params.items);
                whole == Emitted(done + rest.factors, rest.params)
    {
      ghost var e := EmitOp(ctx, key, insensitive, ops[i], params.items);
      OpsAdvance(ctx, key, insensitive, ops, i, params.items, done, whole);
      var frag := Fragment(ctx, key, insensitive, ops[i], params);
      if frag.Some? {
        TextsSnoc(frags, done, e.factors);
        frags := frags + [frag.value];
      } else {
        assert done + e.factors == done;
      }
      done := done + e.factors;
    }
    assert done + [] == done;
  }

  method StoredCondition(ctx: Context, key: string, cond: Cond, params: ParamList) returns (text: seq<Token>)
    modifies params
    ensures var e := EmitStored(ctx, key, cond, old(params.items));
            params.items == e.params && text == PrintFactors(e.factors)
  {
    match cond {
      case Is(v) =>
        if v == Null {
          return [AtomText(Missing(RefOf(ctx, key)))];
        }
        var ph := params.Append(Scalar(ctx.coerce(TypeOf(ctx, key), v)));
        return [AtomText(Test(RefOf(ctx, key), Equal, ph))];
      case Where(ops) =>
        var frags := Fragments(ctx, key, ops, params);
        text := if frags == [] then [AtomText(Always)] else Join(AndWord, frags);
    }
  }

  /** A field condition, rewritten to the blind index when the column is ciphered. */
  method FieldCondition(ctx: Context, key: string, cond: Cond, params: ParamList) returns (text: seq<Token>)
    modifies params
    ensures var e := EmitOn(ctx, key, cond, old(params.items));
            params.items == e.params && text == PrintFactors(e.factors)
  {
    if cond != Is(Null) && Ciphered(ctx, key) {
      var ref := Column(IndexColumn(key));
      if cond.Is? {
        var ph := params.Append(Scalar(Text(ctx.crypto.hmac(Str(ctx, cond.value)))));
        return [AtomText(Test(ref, Equal, ph))];
      }
      if FirstIn(cond.ops).Some? {
        var items := IndexAll(ctx, FirstIn(cond.ops).value);
        if items == [] {
          return [AtomText(Never)];
        }
        var ph := params.Append(List(items));
        return [AtomText(AnyOf(ref, ph))];
      }
      if FirstNe(cond.ops) != Null {
        var ph := params.Append(Scalar(Text(ctx.crypto.hmac(Str(ctx, FirstNe(cond.ops))))));
        return [AtomText(Distinct(ref, ph))];
      }
    }
    text := StoredCondition(ctx, key, cond, params);
  }

  lemma BranchesAdvance(ctx: Context, branches: seq<Filter>, i: nat, params: seq<Param>,
                        done: seq<Conj>, whole: (seq<Conj>, seq<Param>))
    requires i < |branches|
    requires var (rest, params') := EmitBranches(ctx, branches[i..], params);
             whole == (done + rest, params')
    ensures var e := EmitFilter(ctx, branches[i], params);
            var (rest, params') := EmitBranches(ctx, branches[i + 1..], e.params);
            whole == ((done + [Conj([Group(Expr([Conj(e.factors)]))])]) + rest, params')
  {
    assert branches[i..][0] == branches[i] && branches[i..][1..] == branches[i + 1..];
    var e := EmitFilter(ctx, branches[i], params);
    var (rest, params') := EmitBranches(ctx, branches[i + 1..], e.params);
    var term := Conj([Group(Expr([Conj(e.factors)]))]);
    assert done + ([term] + rest) == (done + [term]) + rest;
  }

  lemma BranchText(ors: seq<seq<Token>>, done: seq<Conj>, factors: seq<Prim>)
    requires |ors| == |done| && Join(OrWord, ors) == PrintTerms(done)
    ensures Join(OrWord, ors + [[OpenParen] + PrintFactors(factors) + [CloseParen]]) ==
            PrintTerms(done + [Conj([Group(Expr([Conj(factors)]))])])
  {
    var term := Conj([Group(Expr([Conj(factors)]))]);
    BracketedText(factors);
    JoinSnoc(OrWord, ors, [OpenParen] + PrintFactors(factors) + [CloseParen]);
    if done != [] {
      PrintTermsSnoc(done, term);
    } else {
      assert done + [term] == [term];
      assert PrintTerms([term]) == PrintFactors(term.factors);
    }
  }

  /** The bracketed sub-filters of an `$or`. */
  method OrTexts(ctx: Context, branches: seq<Filter>, params: ParamList) returns (ors: seq<seq<Token>>)
    modifies params
    ensures var (terms, params') := EmitBranches(ctx, branches, old(params.items));
            && params.items == params' && |ors| == |branches|
            && Join(OrWord, ors) == PrintTerms(terms)
    decreases branches, 1
  {
    ghost var whole := EmitBranches(ctx, branches, params.items);
    ghost var done: seq<Conj> := [];
    ors := [];
    assert branches[0..] == branches && done + whole.0 == whole.0;
    for i := 0 to |branches|
      invariant |ors| == |done| == i
      invariant Join(OrWord, ors) == PrintTerms(done)
      invariant var (rest, params') := EmitBranches(ctx, branches[i..], params.items);
                whole == (done + rest, params')
    {
      assert branches[i] in branches;
      ghost var e := EmitFilter(ctx, branches[i], params.items);
      BranchesAdvance(ctx, branches, i, params.items, done, whole);
      var inline := BuildWhereInline(ctx, branches[i], params);
      BranchText(ors, done, e.factors);
      ors := ors + [[OpenParen] + inline + [CloseParen]];
      done := done + [Conj([Group(Expr([Conj(e.factors)]))])];
    }
    assert done + [] == done;
  }

  /** One `{field: condition}` pair, or an `$or`, as text. */
  method Condition(ctx: Context, clause: Clause, params: ParamList) returns (text: seq<Token>)
    modifies params
    ensures var e := EmitClause(ctx, clause, old(params.items));
            params.items == e.params && text == PrintFactors(e.factors)
    decreases clause, 0
  {
    match clause {
      case Or(branches) =>
        var ors := OrTexts(ctx, branches, params);
        text := if ors != [] then [OpenParen] + Join(OrWord, ors) + [CloseParen] else [AtomText(Always)];
      case On(key, cond) =>
        text := FieldCondition(ctx, key, cond, params);
    }
  }

  lemma BracketedText(factors: seq<Prim>)
    ensures PrintFactors([Group(Expr([Conj(factors)]))]) == [OpenParen] + PrintFactors(factors) + [CloseParen]
  {
    var terms := [Conj(factors)];
    assert PrintTerms(terms) == PrintFactors(factors);
    assert PrintPrim(Group(Expr(terms))) == [OpenParen] + PrintTerms(terms) + [CloseParen];
  }

  lemma ClausesAdvance(ctx: Context, clauses: seq<Clause>, i: nat, params: seq<Param>, done: seq<Prim>, whole: Emitted)
    requires i < |clauses|
    requires var rest := EmitClauses(ctx, clauses[i..], params);
             whole == Emitted(done + rest.factors, rest.params)
    ensures var e := EmitClause(ctx, clauses[i], params);
            var rest := EmitClauses(ctx, clauses[i + 1..], e.params);
            whole == Emitted((done + e.factors) + rest.factors, rest.params)
  {
    assert clauses[i..][0] == clauses[i] && clauses[i..][1..] == clauses[i + 1..];
    var e := EmitClause(ctx, clauses[i], params);
    var rest := EmitClauses(ctx, clauses[i + 1..], e.params);
    assert done + (e.factors + rest.factors) == (done + e.factors) + rest.factors;
  }

  /** The AND-joined body of a WHERE clause. */
  method BuildWhereInline(ctx: Context, filter: Filter, params: ParamList) returns (text: seq<Token>)
    modifies params
    ensures var e := EmitFilter(ctx, filter, old(params.items));
            params.items == e.params && text == PrintFactors(e.factors)
    decreases filter, 0
  {
    var clauses := filter.clauses;
    if clauses == [] {
      return [AtomText(Always)];
    }
    ghost var whole := EmitClauses(ctx, clauses, params.items);
    ghost var done: seq<Prim> := [];
    var parts: seq<seq<Token>> := [];
    assert clauses[0..] == clauses && done + whole.factors == whole.factors;
    for i := 0 to |clauses|
      invariant i > 0 ==> done != []
      invariant Texts(parts, done)
      invariant var rest := EmitClauses(ctx, clauses[i..], params.items);
                whole == Emitted(done + rest.factors, rest.params)
    {
      ghost var e := EmitClause(ctx, clauses[i], params.items);
      ClauseThreaded(ctx, clauses[i], params.items);
      ClausesAdvance(ctx, clauses, i, params.items, done, whole);
      var part := Condition(ctx, clauses[i], params);
      TextsSnoc(parts, done, e.factors);
      parts := parts + [part];
      done := done + e.factors;
    }
    assert done + [] == done;
    text := Join(AndWord, parts);
  }

  /** The full clause, left out when its body is the constant TRUE. */
  method BuildWhere(ctx: Context, filter: Filter, params: ParamList) returns (clause: Option<seq<Token>>)
    modifies params
    ensures clause == WhereText(ctx, filter, old(params.items))
    ensures params.items == EmitFilter(ctx, filter, old(params.items)).params
  {
    var body := BuildWhereInline(ctx, filter, params);
    clause := if body == [AtomText(Always)] then None else Some(body);
  }
}
