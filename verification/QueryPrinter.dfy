/**
 * A printer for filter trees. The repository has none: it is the specification partner of
 * the parser, which must read back every tree it prints.
 */
module QueryPrinter {
  import opened Wrappers
  import opened QueryAst
  import opened QueryLexer
  import opened QueryParser
  import opened QueryGrammar

  predicate Quotable(v: string) { Closed(v, '"', 0) || Closed(v, '\'', 0) }

  /** Values are kept raw, so what can be written is what some quote or no quote delimits. */
  predicate Writable(a: Alphabet, v: string) { Quotable(v) || BareText(a, v) }

  predicate Printable(a: Alphabet, n: Node) {
    match n
    case Comparison(f, op, v) => IdentText(a, f) && !op.Other? && Writable(a, v)
    case Logical(_, l, r) => Printable(a, l) && Printable(a, r)
  }

  function OpToken(op: Op): Token
    requires !op.Other?
  {
    match op
    case Eq => EqEq
    case Ne => Neq
    case Gt => GT
    case Lt => LT
    case Gte => GTE
    case Lte => LTE
    case Prefix => NamedOp("prefix")
    case Suffix => NamedOp("suffix")
    case Like => NamedOp("like")
  }

  function ValueToken(v: string): Token {
    if Quotable(v) then Str(v) else Value(v)
  }

  /** Binding strength: a subtree weaker than its context is parenthesised. */
  function Strength(n: Node): nat {
    match n
    case Comparison(_, _, _) => 2
    case Logical(lop, _, _) => if lop == And then 1 else 0
  }

  function Print(a: Alphabet, n: Node, context: nat): seq<Token>
    requires Printable(a, n)
    decreases n, 1
  {
    if Strength(n) < context then [LParen] + PrintBody(a, n) + [RParen] else PrintBody(a, n)
  }

  function PrintBody(a: Alphabet, n: Node): seq<Token>
    requires Printable(a, n)
    decreases n, 0
  {
    match n
    case Comparison(f, op, v) => [Ident(f), OpToken(op), ValueToken(v)]
    case Logical(And, l, r) => Print(a, l, 1) + [Semi] + Print(a, r, 2)
    case Logical(Or, l, r) => Print(a, l, 0) + [Comma] + Print(a, r, 1)
  }

  function Spelling(t: Token): string {
    match t
    case Str(v) => if Closed(v, '"', 0) then "\"" + v + "\"" else "'" + v + "'"
    case NamedOp(v) => "=" + v + "="
    case Comma => ","
    case Semi => ";"
    case LParen => "("
    case RParen => ")"
    case _ => TokenText(t)
  }

  function Text(ts: seq<Token>): string {
    if ts == [] then "" else Spelling(ts[0]) + Text(ts[1..])
  }

  function PrintText(a: Alphabet, n: Node): string
    requires Printable(a, n)
  {
    Text(Print(a, n, 0))
  }

  // ─── The printed tokens derive the tree ─────────────────────────────────────

  /** `name` is `lower` with any of its letters in upper case. */
  predicate InSomeCase(name: string, lower: string) {
    && |name| == |lower|
    && forall i :: 0 <= i < |name| ==>
         'a' <= lower[i] <= 'z' && (name[i] == lower[i] || name[i] as int + 32 == lower[i] as int)
  }

  lemma CaseDoesNotMatter(a: Alphabet, name: string, lower: string)
    requires a.Valid() && InSomeCase(name, lower)
    ensures a.LowerAll(name) == lower && forall i :: 0 <= i < |name| ==> name[i] in a.letters
  {
    forall i | 0 <= i < |name|
      ensures a.Lower(name[i]) == lower[i] && name[i] in a.letters
    {
      assert name[i] != lower[i] ==> 'A' <= name[i] <= 'Z';
    }
  }

  lemma OpTokenReads(a: Alphabet, op: Op)
    requires a.Valid() && !op.Other?
    ensures Denotes(a, OpToken(op), op)
    ensures Spells(a, OpToken(op), Spelling(OpToken(op)))
  {
    CaseDoesNotMatter(a, "prefix", "prefix");
    CaseDoesNotMatter(a, "suffix", "suffix");
    CaseDoesNotMatter(a, "like", "like");
    hide Alphabet.Valid, InSomeCase, Alphabet.LowerAll;
  }

  lemma LeafDerives(a: Alphabet, f: string, op: Op, v: string)
    requires a.Valid() && !op.Other?
    ensures DerivesPrimary(a, [Ident(f), OpToken(op), ValueToken(v)], Comparison(f, op, v))
  {
    OpTokenReads(a, op);
    hide OpToken, Denotes, Quotable, Alphabet.Valid, DerivesOr;
  }

  lemma Weaken(a: Alphabet, ts: seq<Token>, n: Node)
    ensures DerivesPrimary(a, ts, n) ==> DerivesAnd(a, ts, n)
    ensures DerivesAnd(a, ts, n) ==> DerivesOr(a, ts, n)
  {
    hide DerivesPrimary;
  }

  lemma {:induction false} PrintDerives(a: Alphabet, n: Node)
    requires a.Valid() && Printable(a, n)
    ensures DerivesOr(a, Print(a, n, 0), n)
    ensures DerivesAnd(a, Print(a, n, 1), n)
    ensures DerivesPrimary(a, Print(a, n, 2), n)
  {
    hide DerivesOr, DerivesAnd, DerivesPrimary, OpToken, ValueToken, Writable, IdentText, Alphabet.Valid;
    var body := PrintBody(a, n);
    var wrapped := [LParen] + body + [RParen];
    match n {
      case Comparison(f, op, v) =>
        LeafDerives(a, f, op, v);
      case Logical(And, l, r) =>
        PrintDerives(a, l);
        PrintDerives(a, r);
        JoinAnd(a, Print(a, l, 1), l, Print(a, r, 2), r);
      case Logical(Or, l, r) =>
        PrintDerives(a, l);
        PrintDerives(a, r);
        JoinOr(a, Print(a, l, 0), l, Print(a, r, 1), r);
    }
    Weaken(a, body, n);
    Parenthesise(a, body, n);
    Weaken(a, wrapped, n);
  }

  // ─── The printed text lexes to the printed tokens ───────────────────────────

  predicate Spelled(a: Alphabet, t: Token) { Spelling(t) != [] && Spells(a, t, Spelling(t)) }

  /** `t` does not run into the spelling of `u` when `u` follows it. */
  predicate Apart(a: Alphabet, t: Token, u: Token) {
    Spelling(u) != [] && !Extends(a, t, Spelling(u)[0])
  }

  /** Every token is spelled, and no token runs into the next one. */
  ghost predicate Separated(a: Alphabet, ts: seq<Token>) {
    && (forall i :: 0 <= i < |ts| ==> Spelled(a, ts[i]))
    && (forall i, j :: 0 <= i < |ts| && j == i + 1 < |ts| ==> Apart(a, ts[i], ts[j]))
  }

  predicate EndsOperand(ts: seq<Token>) {
    ts != [] && var t := ts[|ts| - 1]; t == RParen || t.Str? || t.Value?
  }

  lemma {:induction false} PrintSeparated(a: Alphabet, n: Node, context: nat)
    requires a.Valid() && Printable(a, n)
    ensures Separated(a, Print(a, n, context)) && EndsOperand(Print(a, n, context))
    decreases n
  {
    match n {
      case Comparison(f, op, v) =>
        LeafSeparated(a, f, op, v);
      case Logical(And, l, r) =>
        PrintSeparated(a, l, 1);
        PrintSeparated(a, r, 2);
        JoinSeparated(a, Print(a, l, 1), Semi, Print(a, r, 2));
      case Logical(Or, l, r) =>
        PrintSeparated(a, l, 0);
        PrintSeparated(a, r, 1);
        JoinSeparated(a, Print(a, l, 0), Comma, Print(a, r, 1));
    }
    if Strength(n) < context {
      WrapSeparated(a, PrintBody(a, n));
    }
  }

  lemma ConcatSeparated(a: Alphabet, l: seq<Token>, r: seq<Token>)
    requires Separated(a, l) && Separated(a, r) && l != [] && r != [] && Apart(a, l[|l| - 1], r[0])
    ensures Separated(a, l + r)
  {
    hide Apart, Spelled;
    var ts := l + r;
    forall i, j | 0 <= i < |ts| && j == i + 1 < |ts|
      ensures Apart(a, ts[i], ts[j])
    {
      assert ts[i] == (if i < |l| then l[i] else r[i - |l|]) && ts[j] == if j < |l| then l[j] else r[j - |l|];
    }
  }

  lemma OneSeparated(a: Alphabet, t: Token)
    requires Spelled(a, t)
    ensures Separated(a, [t])
  {
    hide Spelled;
  }

  lemma SymbolSeparates(a: Alphabet, t: Token, u: Token)
    requires a.Valid() && (u == Comma || u == Semi || u == RParen)
    requires t == RParen || t.Str? || t.Value?
    ensures Apart(a, t, u) && Spelled(a, u)
  {
  }

  lemma SymbolOpens(a: Alphabet, t: Token, u: Token)
    requires (t == Comma || t == Semi || t == LParen) && Spelled(a, u)
    ensures Apart(a, t, u)
  {
  }

  lemma JoinSeparated(a: Alphabet, l: seq<Token>, t: Token, r: seq<Token>)
    requires a.Valid() && (t == Comma || t == Semi)
    requires Separated(a, l) && EndsOperand(l) && Separated(a, r) && EndsOperand(r)
    ensures Separated(a, l + [t] + r) && EndsOperand(l + [t] + r)
  {
    SymbolSeparates(a, l[|l| - 1], t);
    SymbolOpens(a, t, r[0]);
    OneSeparated(a, t);
    hide Separated, Apart, Spelled;
    ConcatSeparated(a, l, [t]);
    ConcatSeparated(a, l + [t], r);
  }

  lemma WrapSeparated(a: Alphabet, ts: seq<Token>)
    requires a.Valid() && Separated(a, ts) && EndsOperand(ts)
    ensures Separated(a, [LParen] + ts + [RParen]) && EndsOperand([LParen] + ts + [RParen])
  {
    SymbolOpens(a, LParen, ts[0]);
    SymbolSeparates(a, ts[|ts| - 1], RParen);
    assert Spelled(a, LParen);
    OneSeparated(a, LParen);
    OneSeparated(a, RParen);
    hide Separated, Apart, Spelled;
    ConcatSeparated(a, [LParen], ts);
    ConcatSeparated(a, [LParen] + ts, [RParen]);
  }

  lemma LeafSeparated(a: Alphabet, f: string, op: Op, v: string)
    requires a.Valid() && Printable(a, Comparison(f, op, v))
    ensures Separated(a, [Ident(f), OpToken(op), ValueToken(v)])
  {
    OpTokenReads(a, op);
    IdentThenOp(a, f, op);
    OpThenValue(a, op, v);
    assert Spelled(a, Ident(f)) && Spelled(a, OpToken(op));
    hide *;
    ThreeSeparated(a, Ident(f), OpToken(op), ValueToken(v));
  }

  lemma ThreeSeparated(a: Alphabet, t: Token, u: Token, v: Token)
    requires Spelled(a, t) && Spelled(a, u) && Spelled(a, v) && Apart(a, t, u) && Apart(a, u, v)
    ensures Separated(a, [t, u, v])
  {
    hide Apart, Spelled;
  }

  lemma IdentThenOp(a: Alphabet, f: string, op: Op)
    requires a.Valid() && !op.Other?
    ensures Apart(a, Ident(f), OpToken(op))
  {
    assert Spelling(OpToken(op))[0] in "=!<>";
  }

  lemma OpThenValue(a: Alphabet, op: Op, v: string)
    requires a.Valid() && !op.Other? && Writable(a, v)
    ensures Apart(a, OpToken(op), ValueToken(v)) && Spelled(a, ValueToken(v))
  {
    var text := Spelling(ValueToken(v));
    if Quotable(v) {
      var q := if Closed(v, '"', 0) then '"' else '\'';
      assert text == [q] + v + [q];
    }
    assert text[0] != '=';
  }

  lemma {:induction false} TextLexes(a: Alphabet, before: string, ts: seq<Token>)
    requires a.Valid() && Separated(a, ts)
    ensures Tokens(a, before + Text(ts), |before|) == Stream(ts, None)
    decreases |ts|
  {
    hide Scan, Tokens, Separated, Alphabet.Valid, Spelling;
    if ts == [] {
      NothingLeft(a, before);
    } else {
      var sp := Spelling(ts[0]);
      assert before + Text(ts) == (before + sp) + Text(ts[1..]);
      SeparatedTail(a, ts);
      TextLexes(a, before + sp, ts[1..]);
      FirstTokenScanned(a, before, ts);
      TokensStep(a, before + Text(ts), |before|, ts, |before + sp|);
    }
  }

  lemma NothingLeft(a: Alphabet, s: string)
    ensures Tokens(a, s + Text([]), |s|) == Stream([], None)
  {
    assert Scan(a, s + Text([]), |s|) == Scanned(Eof, None, |s|);
  }

  lemma TokensStep(a: Alphabet, s: string, pos: nat, ts: seq<Token>, n: nat)
    requires pos <= n <= |s| && ts != [] && ts[0] != Eof && Scan(a, s, pos) == Scanned(ts[0], None, n)
    requires Tokens(a, s, n) == Stream(ts[1..], None)
    ensures Tokens(a, s, pos) == Stream(ts, None)
  {
    assert [ts[0]] + ts[1..] == ts;
  }

  lemma SeparatedTail(a: Alphabet, ts: seq<Token>)
    requires Separated(a, ts) && ts != []
    ensures Separated(a, ts[1..])
  {
    var later := ts[1..];
    assert forall i, j :: 0 <= i < |later| && j == i + 1 < |later| ==> later[i] == ts[i + 1] && later[j] == ts[j + 1];
  }

  lemma FirstTokenScanned(a: Alphabet, before: string, ts: seq<Token>)
    requires a.Valid() && Separated(a, ts) && ts != []
    ensures ts[0] != Eof
    ensures Scan(a, before + Text(ts), |before|) == Scanned(ts[0], None, |before| + |Spelling(ts[0])|)
  {
    var s, sp, later := before + Text(ts), Spelling(ts[0]), Text(ts[1..]);
    assert Spelled(a, ts[0]);
    assert s == before + sp + later;
    if |ts| > 1 {
      assert Apart(a, ts[0], ts[1]);
      assert later == Spelling(ts[1]) + Text(ts[2..]);
      assert later[0] == Spelling(ts[1])[0];
    }
    TokenScanned(a, before, ts[0], later);
  }

  lemma TokenScanned(a: Alphabet, before: string, t: Token, later: string)
    requires a.Valid() && Spelled(a, t) && (later != [] ==> !Extends(a, t, later[0]))
    ensures t != Eof
    ensures Scan(a, before + Spelling(t) + later, |before|) == Scanned(t, None, |before| + |Spelling(t)|)
  {
    var s, n := before + Spelling(t) + later, |before| + |Spelling(t)|;
    assert s[|before|..n] == Spelling(t);
    SpelledScan(a, s, |before|, |before|, n, t);
  }

  // ─── Main results ───────────────────────────────────────────────────────────

  /** Parsing the print of a tree gives the tree back. */
  lemma {:induction false} RoundTrip(a: Alphabet, n: Node)
    requires a.Valid() && Printable(a, n)
    ensures Parse(a, PrintText(a, n)) == Ok(Some(n))
  {
    var ts := Print(a, n, 0);
    var q := Text(ts);
    PrintSeparated(a, n, 0);
    assert Tokens(a, q, 0) == Stream(ts, None) by {
      TextLexes(a, "", ts);
      assert "" + q == q;
    }
    assert !Blank(a, q) by {
      if Blank(a, q) { BlankHasNoTokens(a, q); }
    }
    PrintDerives(a, n);
    ParseExact(a, q, n);
  }

  lemma BlankHasNoTokens(a: Alphabet, q: string)
    requires Blank(a, q)
    ensures Tokens(a, q, 0).toks == []
  {
    SpanUnique(q, 0, a.spaces, true, |q|);
  }

  lemma NamedSeparated(a: Alphabet, f: string, name: string, op: Op, v: string)
    requires a.Valid() && IdentText(a, f) && Writable(a, v)
    requires name != "" && forall i :: 0 <= i < |name| ==> name[i] in a.letters
    ensures Separated(a, [Ident(f), NamedOp(name), ValueToken(v)])
  {
    OpThenValue(a, Eq, v);
    assert Spelled(a, Ident(f));
    assert Spelled(a, NamedOp(name)) && Spelling(NamedOp(name))[0] == '=';
    assert Apart(a, Ident(f), NamedOp(name));
    assert Apart(a, NamedOp(name), ValueToken(v));
    hide *;
    ThreeSeparated(a, Ident(f), NamedOp(name), ValueToken(v));
  }

  /**
   * Every one of the nine operators can be written by its name, in any letter case, and reads as
   * the same tree as its symbol does, if it has one.
   */
  lemma NamedOperatorParses(a: Alphabet, f: string, name: string, lower: string, op: Op, v: string)
    requires a.Valid() && IdentText(a, f) && Writable(a, v) && Names(lower, op) && InSomeCase(name, lower)
    ensures var q := f + ("=" + name + "=") + Spelling(ValueToken(v));
      && Parse(a, q) == Ok(Some(Comparison(f, op, v)))
      && Parse(a, q) == Parse(a, PrintText(a, Comparison(f, op, v)))
  {
    var ts := [Ident(f), NamedOp(name), ValueToken(v)];
    var q := f + ("=" + name + "=") + Spelling(ValueToken(v));
    CaseDoesNotMatter(a, name, lower);
    NamedSeparated(a, f, name, op, v);
    NamedText(f, name, v);
    NamedDerives(a, f, name, op, v);
    RoundTrip(a, Comparison(f, op, v));
    hide *;
    TextLexes(a, "", ts);
    assert "" + Text(ts) == Text(ts) && |""| == 0;
    if Blank(a, q) { BlankHasNoTokens(a, q); }
    ParseExact(a, q, Comparison(f, op, v));
  }

  lemma NamedText(f: string, name: string, v: string)
    ensures Text([Ident(f), NamedOp(name), ValueToken(v)]) == f + ("=" + name + "=") + Spelling(ValueToken(v))
  {
    var ts := [Ident(f), NamedOp(name), ValueToken(v)];
    hide ValueToken;
    assert ts[1..][1..] == [ValueToken(v)] && ts[1..][0] == NamedOp(name);
    assert Text([ValueToken(v)]) == Spelling(ValueToken(v)) + Text([]);
  }

  lemma NamedDerives(a: Alphabet, f: string, name: string, op: Op, v: string)
    requires Names(a.LowerAll(name), op)
    ensures DerivesOr(a, [Ident(f), NamedOp(name), ValueToken(v)], Comparison(f, op, v))
  {
    var ts, n := [Ident(f), NamedOp(name), ValueToken(v)], Comparison(f, op, v);
    assert DerivesPrimary(a, ts, n) by { hide Quotable, DerivesOr, Names; }
    Weaken(a, ts, n);
  }

  /** No shorter token list derives the tree, so no parenthesis in the print is redundant. */
  lemma {:induction false} PrintIsShortest(a: Alphabet, ts: seq<Token>, n: Node)
    requires Printable(a, n) && DerivesOr(a, ts, n)
    ensures |Print(a, n, 0)| <= |ts|
    decreases |ts|, 3
  {
    if DerivesAnd(a, ts, n) {
      ShortestAnd(a, ts, n);
    } else {
      var i :| 0 <= i < |ts| && ts[i] == Comma
        && DerivesOr(a, ts[..i], n.left) && DerivesAnd(a, ts[i + 1..], n.right);
      PrintIsShortest(a, ts[..i], n.left);
      ShortestAnd(a, ts[i + 1..], n.right);
    }
  }

  lemma {:induction false} ShortestAnd(a: Alphabet, ts: seq<Token>, n: Node)
    requires Printable(a, n) && DerivesAnd(a, ts, n)
    ensures |Print(a, n, 1)| <= |ts|
    decreases |ts|, 2
  {
    if DerivesPrimary(a, ts, n) {
      ShortestPrimary(a, ts, n);
    } else {
      var i :| 0 <= i < |ts| && ts[i] == Semi
        && DerivesAnd(a, ts[..i], n.left) && DerivesPrimary(a, ts[i + 1..], n.right);
      ShortestAnd(a, ts[..i], n.left);
      ShortestPrimary(a, ts[i + 1..], n.right);
    }
  }

  lemma {:induction false} ShortestPrimary(a: Alphabet, ts: seq<Token>, n: Node)
    requires Printable(a, n) && DerivesPrimary(a, ts, n)
    ensures |Print(a, n, 2)| <= |ts|
    decreases |ts|, 1
  {
    if |ts| >= 2 && DerivesOr(a, ts[1..|ts| - 1], n) {
      PrintIsShortest(a, ts[1..|ts| - 1], n);
    }
  }

  predicate Readable(a: Alphabet, t: Token) {
    match t
    case Ident(v) => IdentText(a, v)
    case Str(v) => Quotable(v)
    case Value(v) => BareText(a, v)
    case _ => true
  }

  lemma {:induction false} TokensReadable(a: Alphabet, s: string, pos: nat)
    requires pos <= |s| + 1
    ensures forall t :: t in Tokens(a, s, pos).toks ==> Readable(a, t)
    decreases |s| + 1 - pos
  {
    var sc := Scan(a, s, pos);
    if sc.tok != Eof {
      var p := ScanSpells(a, s, pos);
      TokensReadable(a, s, sc.next);
    }
  }

  lemma {:induction false} OrPrintable(a: Alphabet, ts: seq<Token>, n: Node)
    requires a.Valid() && (forall t :: t in ts ==> Readable(a, t)) && DerivesOr(a, ts, n)
    ensures Printable(a, n)
    decreases |ts|, 3
  {
    if DerivesAnd(a, ts, n) {
      AndPrintable(a, ts, n);
    } else {
      var i :| 0 <= i < |ts| && ts[i] == Comma
        && DerivesOr(a, ts[..i], n.left) && DerivesAnd(a, ts[i + 1..], n.right);
      OrPrintable(a, ts[..i], n.left);
      AndPrintable(a, ts[i + 1..], n.right);
    }
  }

  lemma {:induction false} AndPrintable(a: Alphabet, ts: seq<Token>, n: Node)
    requires a.Valid() && (forall t :: t in ts ==> Readable(a, t)) && DerivesAnd(a, ts, n)
    ensures Printable(a, n)
    decreases |ts|, 2
  {
    if DerivesPrimary(a, ts, n) {
      PrimaryPrintable(a, ts, n);
    } else {
      var i :| 0 <= i < |ts| && ts[i] == Semi
        && DerivesAnd(a, ts[..i], n.left) && DerivesPrimary(a, ts[i + 1..], n.right);
      AndPrintable(a, ts[..i], n.left);
      PrimaryPrintable(a, ts[i + 1..], n.right);
    }
  }

  lemma {:induction false} PrimaryPrintable(a: Alphabet, ts: seq<Token>, n: Node)
    requires a.Valid() && (forall t :: t in ts ==> Readable(a, t)) && DerivesPrimary(a, ts, n)
    ensures Printable(a, n)
    decreases |ts|, 1
  {
    if |ts| >= 2 && DerivesOr(a, ts[1..|ts| - 1], n) {
      OrPrintable(a, ts[1..|ts| - 1], n);
    } else {
      assert Readable(a, ts[0]) && Readable(a, ts[2]);
      if ts[2].Ident? {
        IdentQuotable(a, n.value, 0);
      }
    }
  }

  lemma {:induction false} IdentQuotable(a: Alphabet, v: string, i: nat)
    requires a.Valid() && i <= |v| && All(a.IdentChars(), v)
    ensures Closed(v, '"', i)
    decreases |v| - i
  {
    if i < |v| {
      IdentQuotable(a, v, i + 1);
    }
  }

  /** The printable trees are exactly the trees some filter string parses to. */
  lemma PrintableIffParsed(a: Alphabet, n: Node)
    requires a.Valid()
    ensures Printable(a, n) <==> exists q :: Parse(a, q) == Ok(Some(n))
  {
    if Printable(a, n) {
      RoundTrip(a, n);
    }
    forall q | Parse(a, q) == Ok(Some(n))
      ensures Printable(a, n)
    {
      ParseExact(a, q, n);
      TokensReadable(a, q, 0);
      OrPrintable(a, Tokens(a, q, 0).toks, n);
    }
  }
}
