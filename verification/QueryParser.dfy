/** The recursive-descent parser of app/components/queryfilter/parser.go. */
module QueryParser {
  import opened Wrappers
  import opened QueryAst
  import opened QueryLexer

  datatype SyntaxError =
    | ExpectedField(got: string)
    | ExpectedOperator(got: string)
    | UnknownOperator(name: string)
    | ExpectedValue(got: string)
    | ExpectedRParen
    | UnexpectedToken(got: string)
    | Lexical(e: LexError)

  // ─── The parser as a function of the token list ─────────────────────────────

  datatype Parsed = Parsed(node: Node, rest: seq<Token>) | Failed(err: SyntaxError)

  function Head(ts: seq<Token>): Token {
    if ts == [] then Eof else ts[0]
  }

  function Tail(ts: seq<Token>): seq<Token> {
    if ts == [] then [] else ts[1..]
  }

  function NamedToOp(lowered: string): Option<Op> {
    if lowered == "eq" then Some(Eq)
    else if lowered == "ne" then Some(Ne)
    else if lowered == "gt" then Some(Gt)
    else if lowered == "lt" then Some(Lt)
    else if lowered == "gte" then Some(Gte)
    else if lowered == "lte" then Some(Lte)
    else if lowered == "prefix" then Some(Prefix)
    else if lowered == "suffix" then Some(Suffix)
    else if lowered == "like" then Some(Like)
    else None
  }

  function TokToOp(a: Alphabet, t: Token): Result<Op, SyntaxError> {
    match t
    case EqEq => Ok(Eq)
    case Neq => Ok(Ne)
    case LT => Ok(Lt)
    case LTE => Ok(Lte)
    case GT => Ok(Gt)
    case GTE => Ok(Gte)
    case NamedOp(name) =>
      var op := NamedToOp(a.LowerAll(name));
      if op.Some? then Ok(op.value) else Err(UnknownOperator(name))
    case _ => Err(ExpectedOperator(TokenText(t)))
  }

  predicate IsValue(t: Token) { t.Ident? || t.Str? || t.Value? }

  function POr(a: Alphabet, ts: seq<Token>): (r: Parsed)
    ensures r.Parsed? ==> |r.rest| < |ts|
    decreases |ts|, 3
  {
    match PAnd(a, ts)
    case Failed(e) => Failed(e)
    case Parsed(left, rest) => POrTail(a, left, rest)
  }

  function POrTail(a: Alphabet, left: Node, ts: seq<Token>): (r: Parsed)
    ensures r.Parsed? ==> |r.rest| <= |ts|
    decreases |ts|, 4
  {
    if Head(ts) == Comma then
      match PAnd(a, ts[1..])
      case Failed(e) => Failed(e)
      case Parsed(right, rest) => POrTail(a, Logical(Or, left, right), rest)
    else Parsed(left, ts)
  }

  function PAnd(a: Alphabet, ts: seq<Token>): (r: Parsed)
    ensures r.Parsed? ==> |r.rest| < |ts|
    decreases |ts|, 2
  {
    match PPrimary(a, ts)
    case Failed(e) => Failed(e)
    case Parsed(left, rest) => PAndTail(a, left, rest)
  }

  function PAndTail(a: Alphabet, left: Node, ts: seq<Token>): (r: Parsed)
    ensures r.Parsed? ==> |r.rest| <= |ts|
    decreases |ts|, 4
  {
    if Head(ts) == Semi then
      match PPrimary(a, ts[1..])
      case Failed(e) => Failed(e)
      case Parsed(right, rest) => PAndTail(a, Logical(And, left, right), rest)
    else Parsed(left, ts)
  }

  function PPrimary(a: Alphabet, ts: seq<Token>): (r: Parsed)
    ensures r.Parsed? ==> |r.rest| < |ts|
    decreases |ts|, 1
  {
    if Head(ts) == LParen then
      match POr(a, ts[1..])
      case Failed(e) => Failed(e)
      case Parsed(node, rest) =>
        if Head(rest) == RParen then Parsed(node, rest[1..]) else Failed(ExpectedRParen)
    else PComparison(a, ts)
  }

  function PComparison(a: Alphabet, ts: seq<Token>): (r: Parsed)
    ensures r.Parsed? ==> |r.rest| < |ts|
  {
    var fieldTok := Head(ts);
    if !fieldTok.Ident? then Failed(ExpectedField(TokenText(fieldTok)))
    else
      match TokToOp(a, Head(Tail(ts)))
      case Err(e) => Failed(e)
      case Ok(op) =>
        var valTok := Head(Tail(Tail(ts)));
        if IsValue(valTok) then Parsed(Comparison(fieldTok.val, op, valTok.val), Tail(Tail(Tail(ts))))
        else Failed(ExpectedValue(TokenText(valTok)))
  }

  // ─── The parser object ──────────────────────────────────────────────────────

  /** One token of lookahead; `lexErr` is overwritten by every read of a token. */
  class Parser {
    const lex: Lexer
    var current: Token
    var peeked: bool
    var lexErr: Option<LexError>

    ghost predicate Valid()
      reads this, lex
    {
      lex.Valid() && (peeked ==> (lexErr.Some? ==> current == Eof))
    }

    /** The tokens not consumed yet, and the lexer error that ends them, if one does. */
    ghost function Rest(): (r: Stream)
      reads this, lex
      requires Valid()
    {
      if peeked then
        if current == Eof then Stream([], lexErr)
        else
          var later := Tokens(lex.alphabet, lex.input, lex.pos);
          Stream([current] + later.toks, later.err)
      else Tokens(lex.alphabet, lex.input, lex.pos)
    }

    constructor (alphabet: Alphabet, input: string)
      ensures Valid() && fresh(this) && fresh(lex) && !peeked
      ensures lex.alphabet == alphabet && lex.input == input
      ensures Rest() == Tokens(alphabet, input, 0)
    {
      lex := new Lexer(alphabet, input);
      current := Eof;
      peeked := false;
      lexErr := None;
    }

    /** Looking ahead consumes nothing and keeps the pending lexer error. */
    method Peek() returns (t: Token)
      requires Valid()
      modifies this, lex
      ensures Valid() && peeked && current == t
      ensures Rest() == old(Rest()) && t == Head(Rest().toks)
      ensures t != Eof ==> lexErr.None?
    {
      if !peeked {
        var e;
        current, e := lex.Next();
        lexErr := e;
        peeked := true;
      }
      t := current;
    }

    /** Only at the end of the tokens can consuming lose the pending lexer error. */
    method Consume() returns (t: Token)
      requires Valid()
      modifies this, lex
      ensures Valid()
      ensures t == Head(old(Rest()).toks)
      ensures t != Eof ==> Rest() == old(Stream(Tail(Rest().toks), Rest().err))
    {
      t := Peek();
      peeked := false;
    }

    method ParseOr() returns (r: Result<Node, SyntaxError>)
      requires Valid()
      modifies this, lex
      ensures Valid()
      ensures Agrees(r, POr(lex.alphabet, old(Rest()).toks), old(Rest().err))
      ensures r.Ok? ==> peeked
      decreases |Rest().toks|, 3
    {
      ghost var start := Rest();
      var lr := ParseAnd();
      if lr.Err? {
        return lr;
      }
      var left := lr.value;
      var t := Peek();
      while t == Comma
        invariant Valid() && peeked && current == t && t == Head(Rest().toks) && Rest().err == start.err
        invariant |Rest().toks| < |start.toks|
        invariant POrTail(lex.alphabet, left, Rest().toks) == POr(lex.alphabet, start.toks)
        decreases |Rest().toks|
      {
        t := Consume();
        var rr := ParseAnd();
        if rr.Err? {
          return rr;
        }
        left := Logical(Or, left, rr.value);
        t := Peek();
      }
      return Ok(left);
    }

    method ParseAnd() returns (r: Result<Node, SyntaxError>)
      requires Valid()
      modifies this, lex
      ensures Valid()
      ensures Agrees(r, PAnd(lex.alphabet, old(Rest()).toks), old(Rest().err))
      decreases |Rest().toks|, 2
    {
      ghost var start := Rest();
      var lr := ParsePrimary();
      if lr.Err? {
        return lr;
      }
      var left := lr.value;
      var t := Peek();
      while t == Semi
        invariant Valid() && peeked && current == t && t == Head(Rest().toks) && Rest().err == start.err
        invariant |Rest().toks| < |start.toks|
        invariant PAndTail(lex.alphabet, left, Rest().toks) == PAnd(lex.alphabet, start.toks)
        decreases |Rest().toks|
      {
        t := Consume();
        var rr := ParsePrimary();
        if rr.Err? {
          return rr;
        }
        left := Logical(And, left, rr.value);
        t := Peek();
      }
      return Ok(left);
    }

    method ParsePrimary() returns (r: Result<Node, SyntaxError>)
      requires Valid()
      modifies this, lex
      ensures Valid()
      ensures Agrees(r, PPrimary(lex.alphabet, old(Rest()).toks), old(Rest().err))
      decreases |Rest().toks|, 1
    {
      var t := Peek();
      if t == LParen {
        t := Consume();
        var node := ParseOr();
        if node.Err? {
          return node;
        }
        t := Peek();
        if t != RParen {
          return Err(ExpectedRParen);
        }
        t := Consume();
        return node;
      }
      r := ParseComparison();
    }

    method ParseComparison() returns (r: Result<Node, SyntaxError>)
      requires Valid()
      modifies this, lex
      ensures Valid()
      ensures Agrees(r, PComparison(lex.alphabet, old(Rest()).toks), old(Rest().err))
      decreases |Rest().toks|, 0
    {
      var fieldTok := Consume();
      if !fieldTok.Ident? {
        return Err(ExpectedField(TokenText(fieldTok)));
      }
      var opTok := Consume();
      var op := TokToOp(lex.alphabet, opTok);
      if op.Err? {
        return Err(op.error);
      }
      var valTok := Consume();
      if !IsValue(valTok) {
        return Err(ExpectedValue(TokenText(valTok)));
      }
      return Ok(Comparison(fieldTok.val, op.value, valTok.val));
    }

    /**
     * The outcome `r` of a parse method is the one `p` of the parser function, and after
     * success the unread tokens are the function's, still ended by the error `err`.
     */
    ghost predicate Agrees(r: Result<Node, SyntaxError>, p: Parsed, err: Option<LexError>)
      reads this, lex
      requires Valid()
    {
      match p
      case Failed(e) => r == Err(e)
      case Parsed(node, rest) => r == Ok(node) && Rest() == Stream(rest, err)
    }
  }

  predicate Blank(a: Alphabet, q: string) { All(a.spaces, q) }

  /** What a filter string parses to; `None` for a blank one. */
  function Parse(a: Alphabet, q: string): Result<Option<Node>, SyntaxError> {
    if Blank(a, q) then Ok(None)
    else
      var st := Tokens(a, q, 0);
      match POr(a, st.toks)
      case Failed(e) => Err(e)
      case Parsed(node, rest) =>
        if rest != [] then Err(UnexpectedToken(TokenText(rest[0])))
        else if st.err.Some? then Err(Lexical(st.err.value))
        else Ok(Some(node))
  }

  method ParseFilter(a: Alphabet, q: string) returns (r: Result<Option<Node>, SyntaxError>)
    ensures r == Parse(a, q)
  {
    if Blank(a, q) {
      return Ok(None);
    }
    var p := new Parser(a, q);
    var node := p.ParseOr();
    if node.Err? {
      return Err(node.error);
    }
    if p.lexErr.Some? {
      return Err(Lexical(p.lexErr.value));
    }
    var t := p.Peek();
    if t != Eof {
      return Err(UnexpectedToken(TokenText(t)));
    }
    return Ok(Some(node.value));
  }
}
