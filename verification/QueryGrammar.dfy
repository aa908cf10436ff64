/**
 * The grammar the filter language promises, stated without the parser:
 *
 *   Or      ::= And | Or "," And
 *   And     ::= Primary | And ";" Primary
 *   Primary ::= "(" Or ")" | Ident operator value
 *
 * and the proof that the parser accepts exactly it.
 */
module QueryGrammar {
  import opened Wrappers
  import opened QueryAst
  import opened QueryLexer
  import opened QueryParser

  /** The names of the nine operators. */
  predicate Names(name: string, op: Op) {
    || (name == "eq" && op == Eq) || (name == "ne" && op == Ne)
    || (name == "gt" && op == Gt) || (name == "gte" && op == Gte)
    || (name == "lt" && op == Lt) || (name == "lte" && op == Lte)
    || (name == "prefix" && op == Prefix) || (name == "suffix" && op == Suffix) || (name == "like" && op == Like)
  }

  /** Which operator a token denotes: six have a symbol, and all a name, in any letter case. */
  predicate Denotes(a: Alphabet, t: Token, op: Op) {
    || (t == EqEq && op == Eq) || (t == Neq && op == Ne)
    || (t == GT && op == Gt) || (t == GTE && op == Gte)
    || (t == LT && op == Lt) || (t == LTE && op == Lte)
    || (t.NamedOp? && Names(a.LowerAll(t.val), op))
  }

  /** A token is read as the operator it denotes; otherwise it is an unknown name or no operator at all. */
  lemma TokenIsOperator(a: Alphabet, t: Token)
    ensures forall op :: TokToOp(a, t) == Ok(op) <==> Denotes(a, t, op)
    ensures forall name :: TokToOp(a, t) == Err(UnknownOperator(name)) <==>
      t == NamedOp(name) && forall op :: !Names(a.LowerAll(name), op)
    ensures forall text :: TokToOp(a, t) == Err(ExpectedOperator(text)) <==>
      !t.NamedOp? && text == TokenText(t) && forall op :: !Denotes(a, t, op)
  {
    if t.NamedOp? {
      NameIsOperator(a.LowerAll(t.val));
    } else {
      assert TokToOp(a, t).Ok? ==> Denotes(a, t, TokToOp(a, t).value);
    }
  }

  lemma NameIsOperator(name: string)
    ensures forall op :: NamedToOp(name) == Some(op) <==> Names(name, op)
    ensures NamedToOp(name) == None <==> forall op :: !Names(name, op)
  {
    assert NamedToOp(name).Some? ==> Names(name, NamedToOp(name).value);
  }

  ghost predicate DerivesOr(a: Alphabet, ts: seq<Token>, n: Node)
    decreases |ts|, 3
  {
    || DerivesAnd(a, ts, n)
    || (n.Logical? && n.lop == Or &&
        exists i :: 0 <= i < |ts| && ts[i] == Comma
          && DerivesOr(a, ts[..i], n.left) && DerivesAnd(a, ts[i + 1..], n.right))
  }

  ghost predicate DerivesAnd(a: Alphabet, ts: seq<Token>, n: Node)
    decreases |ts|, 2
  {
    || DerivesPrimary(a, ts, n)
    || (n.Logical? && n.lop == And &&
        exists i :: 0 <= i < |ts| && ts[i] == Semi
          && DerivesAnd(a, ts[..i], n.left) && DerivesPrimary(a, ts[i + 1..], n.right))
  }

  ghost predicate DerivesPrimary(a: Alphabet, ts: seq<Token>, n: Node)
    decreases |ts|, 1
  {
    || (|ts| >= 2 && ts[0] == LParen && ts[|ts| - 1] == RParen && DerivesOr(a, ts[1..|ts| - 1], n))
    || (|ts| == 3 && n.Comparison?
        && ts[0] == Ident(n.field) && Denotes(a, ts[1], n.op)
        && (ts[2] == Ident(n.value) || ts[2] == Str(n.value) || ts[2] == Value(n.value)))
  }

  lemma JoinOr(a: Alphabet, l: seq<Token>, left: Node, r: seq<Token>, right: Node)
    requires DerivesOr(a, l, left) && DerivesAnd(a, r, right)
    ensures DerivesOr(a, l + [Comma] + r, Logical(Or, left, right))
  {
    var ts := l + [Comma] + r;
    assert ts[..|l|] == l && ts[|l|] == Comma && ts[|l| + 1..] == r;
  }

  lemma JoinAnd(a: Alphabet, l: seq<Token>, left: Node, r: seq<Token>, right: Node)
    requires DerivesAnd(a, l, left) && DerivesPrimary(a, r, right)
    ensures DerivesAnd(a, l + [Semi] + r, Logical(And, left, right))
  {
    var ts := l + [Semi] + r;
    assert ts[..|l|] == l && ts[|l|] == Semi && ts[|l| + 1..] == r;
  }

  lemma Parenthesise(a: Alphabet, ts: seq<Token>, n: Node)
    requires DerivesOr(a, ts, n)
    ensures DerivesPrimary(a, [LParen] + ts + [RParen], n)
  {
    var wrapped := [LParen] + ts + [RParen];
    assert wrapped[1..|wrapped| - 1] == ts;
  }

  /** `used` is what `ts` has in front of `rest`. */
  ghost function Used(ts: seq<Token>, rest: seq<Token>): (used: seq<Token>)
    requires |rest| <= |ts|
  {
    ts[..|ts| - |rest|]
  }

  // ─── Soundness ──────────────────────────────────────────────────────────────

  lemma {:induction false} OrSound(a: Alphabet, ts: seq<Token>)
    requires POr(a, ts).Parsed?
    ensures var p := POr(a, ts); ts == Used(ts, p.rest) + p.rest && DerivesOr(a, Used(ts, p.rest), p.node)
    decreases |ts|, 3
  {
    AndSound(a, ts);
    var p := PAnd(a, ts);
    OrTailSound(a, Used(ts, p.rest), p.node, p.rest);
    assert ts == Used(ts, p.rest) + p.rest;
  }

  lemma {:induction false} OrTailSound(a: Alphabet, used: seq<Token>, left: Node, ts: seq<Token>)
    requires DerivesOr(a, used, left)
    requires POrTail(a, left, ts).Parsed?
    ensures var p := POrTail(a, left, ts);
      used + ts == Used(used + ts, p.rest) + p.rest && DerivesOr(a, Used(used + ts, p.rest), p.node)
    decreases |ts|, 4
  {
    if Head(ts) == Comma {
      AndSound(a, ts[1..]);
      var p := PAnd(a, ts[1..]);
      var right := Used(ts[1..], p.rest);
      JoinOr(a, used, left, right, p.node);
      Regroup(used, Comma, right, p.rest, ts);
      OrTailSound(a, used + [Comma] + right, Logical(Or, left, p.node), p.rest);
    } else {
      assert Used(used + ts, ts) == used;
    }
  }

  lemma Regroup(used: seq<Token>, sep: Token, right: seq<Token>, rest: seq<Token>, ts: seq<Token>)
    requires ts != [] && ts[0] == sep && ts[1..] == right + rest
    ensures used + ts == (used + [sep] + right) + rest
  {
  }

  lemma {:induction false} AndSound(a: Alphabet, ts: seq<Token>)
    requires PAnd(a, ts).Parsed?
    ensures var p := PAnd(a, ts); ts == Used(ts, p.rest) + p.rest && DerivesAnd(a, Used(ts, p.rest), p.node)
    decreases |ts|, 2
  {
    PrimarySound(a, ts);
    var p := PPrimary(a, ts);
    AndTailSound(a, Used(ts, p.rest), p.node, p.rest);
    assert ts == Used(ts, p.rest) + p.rest;
  }

  lemma {:induction false} AndTailSound(a: Alphabet, used: seq<Token>, left: Node, ts: seq<Token>)
    requires DerivesAnd(a, used, left)
    requires PAndTail(a, left, ts).Parsed?
    ensures var p := PAndTail(a, left, ts);
      used + ts == Used(used + ts, p.rest) + p.rest && DerivesAnd(a, Used(used + ts, p.rest), p.node)
    decreases |ts|, 4
  {
    if Head(ts) == Semi {
      PrimarySound(a, ts[1..]);
      var p := PPrimary(a, ts[1..]);
      var right := Used(ts[1..], p.rest);
      JoinAnd(a, used, left, right, p.node);
      Regroup(used, Semi, right, p.rest, ts);
      AndTailSound(a, used + [Semi] + right, Logical(And, left, p.node), p.rest);
    } else {
      assert Used(used + ts, ts) == used;
    }
  }

  lemma {:induction false} PrimarySound(a: Alphabet, ts: seq<Token>)
    requires PPrimary(a, ts).Parsed?
    ensures var p := PPrimary(a, ts); ts == Used(ts, p.rest) + p.rest && DerivesPrimary(a, Used(ts, p.rest), p.node)
    decreases |ts|, 1
  {
    hide DerivesPrimary, DerivesOr, PComparison, Used;
    if Head(ts) == LParen {
      OrSound(a, ts[1..]);
      ParenthesisSound(a, ts);
    } else {
      ComparisonSound(a, ts);
    }
  }

  lemma ParenthesisSound(a: Alphabet, ts: seq<Token>)
    requires Head(ts) == LParen && PPrimary(a, ts).Parsed?
    requires var p := POr(a, ts[1..]);
      p.Parsed? ==> ts[1..] == Used(ts[1..], p.rest) + p.rest && DerivesOr(a, Used(ts[1..], p.rest), p.node)
    ensures var p := PPrimary(a, ts); ts == Used(ts, p.rest) + p.rest && DerivesPrimary(a, Used(ts, p.rest), p.node)
  {
    hide DerivesPrimary, DerivesOr, POr;
    var inner, p := POr(a, ts[1..]), PPrimary(a, ts);
    var body := Used(ts[1..], inner.rest);
    assert ts == [LParen] + (body + inner.rest);
    assert inner.rest == [RParen] + p.rest;
    var used := [LParen] + body + [RParen];
    assert ts == used + p.rest;
    assert Used(ts, p.rest) == used;
    Parenthesise(a, body, p.node);
  }

  lemma ComparisonSound(a: Alphabet, ts: seq<Token>)
    requires PComparison(a, ts).Parsed?
    ensures var p := PComparison(a, ts); ts == Used(ts, p.rest) + p.rest && DerivesPrimary(a, Used(ts, p.rest), p.node)
  {
    TokenIsOperator(a, Head(Tail(ts)));
    hide TokToOp, Denotes, DerivesOr;
    var p := PComparison(a, ts);
    assert |ts| >= 3 && p.rest == Tail(Tail(Tail(ts))) == ts[3..];
    assert Head(ts) == ts[0] && Head(Tail(ts)) == ts[1] && Head(Tail(Tail(ts))) == ts[2];
    var used := Used(ts, p.rest);
    assert used == ts[..3] && used == [ts[0], ts[1], ts[2]];
  }

  // ─── Completeness ───────────────────────────────────────────────────────────

  lemma {:induction false} OrComplete(a: Alphabet, ts: seq<Token>, n: Node, rest: seq<Token>)
    requires DerivesOr(a, ts, n) && Head(rest) != Semi
    ensures POr(a, ts + rest) == POrTail(a, n, rest)
    decreases |ts|, 3
  {
    hide TokToOp, DerivesPrimary, PComparison;
    if DerivesAnd(a, ts, n) {
      AndComplete(a, ts, n, rest);
    } else {
      var i :| 0 <= i < |ts| && ts[i] == Comma
        && DerivesOr(a, ts[..i], n.left) && DerivesAnd(a, ts[i + 1..], n.right);
      var more := [Comma] + (ts[i + 1..] + rest);
      assert ts + rest == ts[..i] + more;
      OrComplete(a, ts[..i], n.left, more);
      assert more[1..] == ts[i + 1..] + rest;
      AndComplete(a, ts[i + 1..], n.right, rest);
    }
  }

  lemma {:induction false} AndComplete(a: Alphabet, ts: seq<Token>, n: Node, rest: seq<Token>)
    requires DerivesAnd(a, ts, n)
    ensures PAnd(a, ts + rest) == PAndTail(a, n, rest)
    decreases |ts|, 2
  {
    if DerivesPrimary(a, ts, n) {
      PrimaryComplete(a, ts, n, rest);
    } else {
      var i :| 0 <= i < |ts| && ts[i] == Semi
        && DerivesAnd(a, ts[..i], n.left) && DerivesPrimary(a, ts[i + 1..], n.right);
      AndSplitComplete(a, ts, n.left, n.right, i, rest);
    }
  }

  lemma {:induction false} AndSplitComplete(a: Alphabet, ts: seq<Token>, left: Node, right: Node, i: nat,
      rest: seq<Token>)
    requires i < |ts| && ts[i] == Semi
    requires DerivesAnd(a, ts[..i], left) && DerivesPrimary(a, ts[i + 1..], right)
    ensures PAnd(a, ts + rest) == PAndTail(a, Logical(And, left, right), rest)
    decreases |ts|, 1
  {
    hide TokToOp, DerivesPrimary, DerivesAnd, PComparison;
    var more := [Semi] + (ts[i + 1..] + rest);
    assert ts + rest == ts[..i] + more;
    AndComplete(a, ts[..i], left, more);
    PrimaryComplete(a, ts[i + 1..], right, rest);
    AndTailStep(a, left, right, more, ts[i + 1..] + rest, rest);
  }

  lemma AndTailStep(a: Alphabet, left: Node, right: Node, more: seq<Token>, ts: seq<Token>, rest: seq<Token>)
    requires more == [Semi] + ts && PPrimary(a, ts) == Parsed(right, rest)
    ensures PAndTail(a, left, more) == PAndTail(a, Logical(And, left, right), rest)
  {
    assert more[1..] == ts;
  }

  lemma {:induction false} PrimaryComplete(a: Alphabet, ts: seq<Token>, n: Node, rest: seq<Token>)
    requires DerivesPrimary(a, ts, n)
    ensures PPrimary(a, ts + rest) == Parsed(n, rest)
    decreases |ts|, 1
  {
    if |ts| >= 2 && ts[0] == LParen && ts[|ts| - 1] == RParen && DerivesOr(a, ts[1..|ts| - 1], n) {
      hide TokToOp, DerivesOr, PComparison;
      var body := ts[1..|ts| - 1];
      OrComplete(a, body, n, [RParen] + rest);
      assert (ts + rest)[1..] == body + ([RParen] + rest);
      assert ([RParen] + rest)[1..] == rest;
    } else {
      hide DerivesOr, Denotes;
      ComparisonComplete(a, ts, n, rest);
    }
  }

  lemma ComparisonComplete(a: Alphabet, ts: seq<Token>, n: Node, rest: seq<Token>)
    requires |ts| == 3 && n.Comparison? && ts[0] == Ident(n.field) && Denotes(a, ts[1], n.op)
    requires ts[2] == Ident(n.value) || ts[2] == Str(n.value) || ts[2] == Value(n.value)
    ensures PPrimary(a, ts + rest) == Parsed(n, rest)
  {
    TokenIsOperator(a, ts[1]);
    hide TokToOp, Denotes;
    assert Head(ts + rest) == ts[0] && Head(Tail(ts + rest)) == ts[1] && Head(Tail(Tail(ts + rest))) == ts[2];
    assert Tail(Tail(Tail(ts + rest))) == rest;
  }

  // ─── Main results ───────────────────────────────────────────────────────────

  /** On a whole token list the parser and the grammar agree. */
  lemma ParsesIffDerives(a: Alphabet, ts: seq<Token>, n: Node)
    ensures POr(a, ts) == Parsed(n, []) <==> DerivesOr(a, ts, n)
  {
    if DerivesOr(a, ts, n) {
      OrComplete(a, ts, n, []);
      assert ts + [] == ts;
    }
    if POr(a, ts) == Parsed(n, []) {
      OrSound(a, ts);
      assert Used(ts, []) == ts;
    }
  }

  /** The grammar is unambiguous: a token list derives at most one tree. */
  lemma Unambiguous(a: Alphabet, ts: seq<Token>, m: Node, n: Node)
    requires DerivesOr(a, ts, m) && DerivesOr(a, ts, n)
    ensures m == n
  {
    ParsesIffDerives(a, ts, m);
    ParsesIffDerives(a, ts, n);
  }

  /**
   * A filter string yields the tree `n` iff it is not blank, all of it lexes without error,
   * and its tokens derive `n`. No lexer error is lost, although each read overwrites it.
   */
  lemma ParseExact(a: Alphabet, q: string, n: Node)
    ensures Parse(a, q) == Ok(Some(n)) <==>
      && (exists i :: 0 <= i < |q| && q[i] !in a.spaces)
      && Tokens(a, q, 0).err.None?
      && DerivesOr(a, Tokens(a, q, 0).toks, n)
    ensures Parse(a, q) == Ok(None) <==> forall i :: 0 <= i < |q| ==> q[i] in a.spaces
  {
    ParsesIffDerives(a, Tokens(a, q, 0).toks, n);
  }

  // ─── Errors ─────────────────────────────────────────────────────────────────

  /** A comparison is refused for the first of its three tokens that does not fit. */
  lemma ComparisonErrors(a: Alphabet, ts: seq<Token>)
    ensures var x, y, z := Head(ts), Head(Tail(ts)), Head(Tail(Tail(ts)));
      var p := PComparison(a, ts);
      && (!x.Ident? ==> p == Failed(ExpectedField(TokenText(x))))
      && (x.Ident? && (forall op :: !Denotes(a, y, op)) ==>
            p == Failed(if y.NamedOp? then UnknownOperator(y.val) else ExpectedOperator(TokenText(y))))
      && (x.Ident? && (exists op :: Denotes(a, y, op)) && !z.Ident? && !z.Str? && !z.Value? ==>
            p == Failed(ExpectedValue(TokenText(z))))
  {
    var y := Head(Tail(ts));
    TokenIsOperator(a, y);
    hide TokToOp, Denotes, Names;
    assert TokToOp(a, y).Ok? ==> Denotes(a, y, TokToOp(a, y).value);
    if TokToOp(a, y).Err? { OperatorErrors(a, y); }
  }

  lemma OperatorErrors(a: Alphabet, t: Token)
    requires TokToOp(a, t).Err?
    ensures TokToOp(a, t).error == if t.NamedOp? then UnknownOperator(t.val) else ExpectedOperator(TokenText(t))
  {
  }

  lemma OpenParenthesis(a: Alphabet, ts: seq<Token>, n: Node, rest: seq<Token>)
    requires POr(a, ts) == Parsed(n, rest) && Head(rest) != RParen
    ensures PPrimary(a, [LParen] + ts) == Failed(ExpectedRParen)
  {
    hide POr, PComparison;
    assert ([LParen] + ts)[1..] == ts;
  }

  /** An opened parenthesis has to be closed right after the expression in it. */
  lemma MissingParenthesis(a: Alphabet, ts: seq<Token>, n: Node, rest: seq<Token>)
    requires DerivesOr(a, ts, n)
    requires Head(rest) != Semi && Head(rest) != Comma && Head(rest) != RParen
    ensures PPrimary(a, [LParen] + (ts + rest)) == Failed(ExpectedRParen)
  {
    OrComplete(a, ts, n, rest);
    assert POrTail(a, n, rest) == Parsed(n, rest);
    hide *;
    OpenParenthesis(a, ts + rest, n, rest);
  }

  /** After a whole expression only the end of the input may follow, and it has to lex. */
  lemma TrailingInput(a: Alphabet, q: string, ts: seq<Token>, n: Node, rest: seq<Token>)
    requires !Blank(a, q) && Tokens(a, q, 0).toks == ts + rest && DerivesOr(a, ts, n)
    requires Head(rest) != Semi && Head(rest) != Comma
    ensures rest != [] ==> Parse(a, q) == Err(UnexpectedToken(TokenText(rest[0])))
    ensures rest == [] && Tokens(a, q, 0).err.Some? ==> Parse(a, q) == Err(Lexical(Tokens(a, q, 0).err.value))
  {
    OrComplete(a, ts, n, rest);
    hide DerivesOr, POr, Tokens, Blank;
  }
}
