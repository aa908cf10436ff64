/** The lexer of app/components/queryfilter/parser.go. */
module QueryLexer {
  import opened Wrappers
  import opened QueryAst

  datatype LexError = InvalidOperator(pos: nat) | UnexpectedBang(pos: nat) | UnterminatedString

  /** One call of the lexer: the token, its error, and the position afterwards. */
  datatype Scanned = Scanned(tok: Token, err: Option<LexError>, next: nat)

  /** The first index from `i` on whose character is not (inside) or is (outside) in `cs`. */
  function Span(s: string, i: nat, cs: set<char>, inside: bool): (r: nat)
    ensures i <= r && (i <= |s| ==> r <= |s|)
    ensures forall j :: i <= j < r ==> j < |s| && (s[j] in cs) == inside
    ensures r < |s| ==> (s[r] in cs) != inside
    decreases |s| - i
  {
    if i < |s| && (s[i] in cs) == inside then Span(s, i + 1, cs, inside) else i
  }

  /** Where the scan of a quoted string stops; a backslash skips the character after it. */
  function QuoteEnd(s: string, quote: char, i: nat): (r: nat)
    ensures i <= r && (i <= |s| + 1 ==> r <= |s| + 1)
    ensures r < |s| ==> s[r] == quote
    decreases |s| - i
  {
    if i >= |s| || s[i] == quote then i
    else if s[i] == '\\' then QuoteEnd(s, quote, i + 2)
    else QuoteEnd(s, quote, i + 1)
  }

  /** After a single `=`: a named operator `=name=` starting at `start`. */
  function ScanNamedOp(a: Alphabet, s: string, start: nat): (r: Scanned)
    requires start <= |s|
    ensures start <= r.next <= |s| && (r.err.Some? ==> r.tok == Eof)
  {
    var e := Span(s, start, a.WordChars(), true);
    if e < |s| && s[e] == '=' && e > start then Scanned(NamedOp(s[start..e]), None, e + 1)
    else Scanned(Eof, Some(InvalidOperator(e)), e)
  }

  /** After an opening `quote`: the raw text up to the closing one. */
  function ScanQuoted(s: string, quote: char, start: nat): (r: Scanned)
    requires start <= |s|
    ensures start <= r.next <= |s| + 1 && (r.err.Some? ==> r.tok == Eof) && (r.err.None? ==> r.next <= |s|)
  {
    var e := QuoteEnd(s, quote, start);
    if e >= |s| then Scanned(Eof, Some(UnterminatedString), e)
    else Scanned(Str(s[start..e]), None, e + 1)
  }

  function ScanWord(a: Alphabet, s: string, start: nat): (r: Scanned)
    requires start < |s| && s[start] in a.IdentChars()
    ensures start < r.next <= |s|
  {
    var e := Span(s, start, a.IdentChars(), true);
    Scanned(Ident(s[start..e]), None, e)
  }

  function ScanBare(a: Alphabet, s: string, start: nat): (r: Scanned)
    requires start < |s| && s[start] !in a.BareStops()
    ensures start < r.next <= |s|
  {
    var e := Span(s, start, a.BareStops(), false);
    Scanned(Value(s[start..e]), None, e)
  }

  /** The token starting at `p`, which is not white space. */
  function ScanAt(a: Alphabet, s: string, p: nat): (r: Scanned)
    requires p < |s| && s[p] !in a.spaces
    ensures p < r.next <= |s| + 1
    ensures r.err.Some? ==> r.tok == Eof
    ensures r.tok != Eof ==> r.next <= |s|
  {
    var ch := s[p];
    var eq := p + 1 < |s| && s[p + 1] == '=';
    if ch == ',' then Scanned(Comma, None, p + 1)
    else if ch == ';' then Scanned(Semi, None, p + 1)
    else if ch == '(' then Scanned(LParen, None, p + 1)
    else if ch == ')' then Scanned(RParen, None, p + 1)
    else if ch == '=' then
      if eq then Scanned(EqEq, None, p + 2) else ScanNamedOp(a, s, p + 1)
    else if ch == '!' then
      if eq then Scanned(Neq, None, p + 2) else Scanned(Eof, Some(UnexpectedBang(p + 1)), p + 1)
    else if ch == '<' then
      if eq then Scanned(LTE, None, p + 2) else Scanned(LT, None, p + 1)
    else if ch == '>' then
      if eq then Scanned(GTE, None, p + 2) else Scanned(GT, None, p + 1)
    else if ch == '\'' || ch == '"' then ScanQuoted(s, ch, p + 1)
    else if ch in a.letters || ch == '_' then ScanWord(a, s, p)
    else ScanBare(a, s, p)
  }

  function Scan(a: Alphabet, s: string, pos: nat): (r: Scanned)
    requires pos <= |s| + 1
    ensures pos <= r.next <= |s| + 1
    ensures r.err.Some? ==> r.tok == Eof
    ensures r.tok != Eof ==> pos < r.next <= |s|
  {
    var p := Span(s, pos, a.spaces, true);
    if p >= |s| then Scanned(Eof, None, p) else ScanAt(a, s, p)
  }

  /** The tokens from `pos` up to the end of input or the first lexer error. */
  datatype Stream = Stream(toks: seq<Token>, err: Option<LexError>)

  function Tokens(a: Alphabet, s: string, pos: nat): (r: Stream)
    requires pos <= |s| + 1
    ensures Eof !in r.toks
    decreases |s| + 1 - pos
  {
    var sc := Scan(a, s, pos);
    if sc.tok == Eof then Stream([], sc.err)
    else
      var rest := Tokens(a, s, sc.next);
      Stream([sc.tok] + rest.toks, rest.err)
  }

  class Lexer {
    const alphabet: Alphabet
    const input: string
    var pos: nat

    ghost predicate Valid() reads this { pos <= |input| + 1 }

    constructor (alphabet: Alphabet, input: string)
      ensures this.alphabet == alphabet && this.input == input && pos == 0 && Valid()
    {
      this.alphabet := alphabet;
      this.input := input;
      pos := 0;
    }

    method Advance()
      requires pos < |input|
      modifies this
      ensures pos == old(pos) + 1
    {
      pos := pos + 1;
    }

    method SkipWS()
      requires Valid()
      modifies this
      ensures pos == Span(input, old(pos), alphabet.spaces, true)
      ensures Valid()
    {
      while pos < |input| && input[pos] in alphabet.spaces
        invariant Valid()
        invariant Span(input, pos, alphabet.spaces, true) == Span(input, old(pos), alphabet.spaces, true)
      {
        pos := pos + 1;
      }
    }

    /**
     * No index is out of range on any input, and a backslash as the last character of an
     * unterminated string leaves `pos` one past the end, where the lexer answers Eof.
     */
    method Next() returns (t: Token, err: Option<LexError>)
      requires Valid()
      modifies this
      ensures Valid()
      ensures Scanned(t, err, pos) == Scan(alphabet, input, old(pos))
    {
      hide Span, ScanNamedOp, ScanQuoted, ScanWord, ScanBare;
      SkipWS();
      if pos >= |input| {
        return Eof, None;
      }
      var ch := input[pos];
      if ch == ',' {
        Advance();
        return Comma, None;
      } else if ch == ';' {
        Advance();
        return Semi, None;
      } else if ch == '(' {
        Advance();
        return LParen, None;
      } else if ch == ')' {
        Advance();
        return RParen, None;
      } else if ch == '=' {
        Advance();
        if pos < |input| && input[pos] == '=' {
          Advance();
          return EqEq, None;
        }
        t, err := NextNamedOp();
      } else if ch == '!' {
        Advance();
        if pos < |input| && input[pos] == '=' {
          Advance();
          return Neq, None;
        }
        return Eof, Some(UnexpectedBang(pos));
      } else if ch == '<' {
        Advance();
        if pos < |input| && input[pos] == '=' {
          Advance();
          return LTE, None;
        }
        return LT, None;
      } else if ch == '>' {
        Advance();
        if pos < |input| && input[pos] == '=' {
          Advance();
          return GTE, None;
        }
        return GT, None;
      } else if ch == '\'' || ch == '"' {
        Advance();
        t, err := NextQuoted(ch);
      } else if ch in alphabet.letters || ch == '_' {
        t, err := NextWord();
      } else {
        t, err := NextBare();
      }
    }

    method NextNamedOp() returns (t: Token, err: Option<LexError>)
      requires pos <= |input|
      modifies this
      ensures Scanned(t, err, pos) == ScanNamedOp(alphabet, input, old(pos))
    {
      var start := pos;
      while pos < |input| && input[pos] in alphabet.WordChars()
        invariant start <= pos <= |input|
        invariant Span(input, pos, alphabet.WordChars(), true) == Span(input, start, alphabet.WordChars(), true)
      {
        pos := pos + 1;
      }
      if pos < |input| && input[pos] == '=' && pos > start {
        var name := input[start..pos];
        Advance();
        return NamedOp(name), None;
      }
      return Eof, Some(InvalidOperator(pos));
    }

    method NextQuoted(quote: char) returns (t: Token, err: Option<LexError>)
      requires pos <= |input|
      modifies this
      ensures Scanned(t, err, pos) == ScanQuoted(input, quote, old(pos))
    {
      var start := pos;
      while pos < |input| && input[pos] != quote
        invariant start <= pos <= |input| + 1
        invariant QuoteEnd(input, quote, pos) == QuoteEnd(input, quote, start)
      {
        if input[pos] == '\\' {
          pos := pos + 1;
        }
        pos := pos + 1;
      }
      if pos >= |input| {
        return Eof, Some(UnterminatedString);
      }
      var val := input[start..pos];
      Advance();
      return Str(val), None;
    }

    method NextWord() returns (t: Token, err: Option<LexError>)
      requires pos < |input| && input[pos] in alphabet.IdentChars()
      modifies this
      ensures Scanned(t, err, pos) == ScanWord(alphabet, input, old(pos))
    {
      var start := pos;
      while pos < |input| && input[pos] in alphabet.IdentChars()
        invariant start <= pos <= |input|
        invariant Span(input, pos, alphabet.IdentChars(), true) == Span(input, start, alphabet.IdentChars(), true)
      {
        pos := pos + 1;
      }
      return Ident(input[start..pos]), None;
    }

    /** The source's "unexpected character" return for an empty value here is dead code. */
    method NextBare() returns (t: Token, err: Option<LexError>)
      requires pos < |input| && input[pos] !in alphabet.BareStops()
      modifies this
      ensures Scanned(t, err, pos) == ScanBare(alphabet, input, old(pos)) && pos > old(pos)
    {
      var start := pos;
      while pos < |input| && input[pos] !in alphabet.BareStops()
        invariant start <= pos <= |input|
        invariant Span(input, pos, alphabet.BareStops(), false) == Span(input, start, alphabet.BareStops(), false)
      {
        pos := pos + 1;
      }
      return Value(input[start..pos]), None;
    }
  }

  // ─── Errors ─────────────────────────────────────────────────────────────────

  /** The letters and digits from `i` up to `e`, and no further. */
  predicate RunOfWord(a: Alphabet, s: string, i: nat, e: nat) {
    && i <= e <= |s|
    && (forall j :: i <= j < e ==> s[j] in a.letters || s[j] in a.digits)
    && (e < |s| ==> s[e] !in a.letters && s[e] !in a.digits)
  }

  /** What is wrong, and where, when the lexer fails at a character that is not white space. */
  lemma ScanErrors(a: Alphabet, s: string, p: nat, e: nat)
    requires p < |s| && s[p] !in a.spaces && RunOfWord(a, s, p + 1, e)
    ensures
      var err := ScanAt(a, s, p).err;
      var doubled := p + 1 < |s| && s[p + 1] == '=';
      if s[p] == '=' && !doubled then
        err == if e > p + 1 && e < |s| && s[e] == '=' then None else Some(InvalidOperator(e))
      else if s[p] == '!' && !doubled then err == Some(UnexpectedBang(p + 1))
      else if s[p] == '\'' || s[p] == '"' then err.Some? ==> err == Some(UnterminatedString)
      else err == None
  {
    SpanUnique(s, p + 1, a.WordChars(), true, e);
    hide Span, QuoteEnd;
  }

  // ─── What a token looks like in the text ────────────────────────────────────

  predicate All(cs: set<char>, s: string) {
    forall i :: 0 <= i < |s| ==> s[i] in cs
  }

  predicate IsLetterOrDigit(a: Alphabet, c: char) { c in a.letters || c in a.digits }

  predicate IsIdentChar(a: Alphabet, c: char) { IsLetterOrDigit(a, c) || c == '_' }

  /** What ends an unquoted value. */
  predicate IsSeparator(a: Alphabet, c: char) { c in ",;()" || c in a.spaces }

  /** Scanning `v` under `quote` from `i` stops exactly at its end. */
  predicate Closed(v: string, quote: char, i: nat)
    decreases |v| - i
  {
    if i >= |v| then i == |v|
    else v[i] != quote && Closed(v, quote, if v[i] == '\\' then i + 2 else i + 1)
  }

  predicate IdentText(a: Alphabet, v: string) {
    v != [] && (v[0] in a.letters || v[0] == '_') && forall i :: 0 <= i < |v| ==> IsIdentChar(a, v[i])
  }

  predicate BareText(a: Alphabet, v: string) {
    && v != [] && v[0] !in a.letters && v[0] !in "_=!<>'\""
    && forall i :: 0 <= i < |v| ==> !IsSeparator(a, v[i])
  }

  /** `text` is a spelling of `t`. A string value has up to two, one per quote. */
  predicate Spells(a: Alphabet, t: Token, text: string) {
    match t
    case Eof => false
    case Ident(v) => text == v && IdentText(a, v)
    case Str(v) =>
      |text| == |v| + 2 && (text[0] == '\'' || text[0] == '"')
      && text == [text[0]] + v + [text[0]] && Closed(v, text[0], 0)
    case Value(v) => text == v && BareText(a, v)
    case Comma => text == ","
    case Semi => text == ";"
    case LParen => text == "("
    case RParen => text == ")"
    case EqEq => text == "=="
    case Neq => text == "!="
    case LT => text == "<"
    case LTE => text == "<="
    case GT => text == ">"
    case GTE => text == ">="
    case NamedOp(v) =>
      v != [] && (forall i :: 0 <= i < |v| ==> IsLetterOrDigit(a, v[i])) && text == "=" + v + "="
  }

  /** The text kept with a token is what was read, without quotes and name marks; punctuation has none. */
  lemma KeptText(a: Alphabet, t: Token, text: string)
    requires a.Valid() && Spells(a, t, text)
    ensures
      match t
      case Str(_) => |text| >= 2 && TokenText(t) == text[1..|text| - 1]
      case NamedOp(_) => |text| >= 2 && TokenText(t) == text[1..|text| - 1]
      case _ => TokenText(t) == if text in [",", ";", "(", ")"] then "" else text
  {
    match t {
      case NamedOp(v) => assert text == "=" + v + "=";
      case Ident(v) => assert IsIdentChar(a, text[0]);
      case Value(v) => assert !IsSeparator(a, text[0]);
      case _ =>
    }
  }

  /** A longer token would be read if `c` followed `t`. */
  predicate Extends(a: Alphabet, t: Token, c: char) {
    match t
    case Ident(_) => IsIdentChar(a, c)
    case Value(_) => !IsSeparator(a, c)
    case LT => c == '='
    case GT => c == '='
    case _ => false
  }

  /** `s[pos..p]` is white space and `s[p..n]` is the longest spelling of `t` there. */
  predicate TokenAt(a: Alphabet, s: string, pos: nat, p: nat, n: nat, t: Token) {
    && pos <= p < n <= |s|
    && All(a.spaces, s[pos..p])
    && Spells(a, t, s[p..n])
    && (n < |s| ==> !Extends(a, t, s[n]))
  }

  lemma {:induction false} SpanUnique(s: string, i: nat, cs: set<char>, inside: bool, r: nat)
    requires i <= r <= |s|
    requires forall j :: i <= j < r ==> (s[j] in cs) == inside
    requires r < |s| ==> (s[r] in cs) != inside
    ensures Span(s, i, cs, inside) == r
  {
    if Span(s, i, cs, inside) != r {
      assert false;
    }
  }

  lemma {:induction false} QuoteEndAtClosed(s: string, quote: char, start: nat, v: string, i: nat)
    requires i <= |v| && start + |v| < |s|
    requires s[start..start + |v|] == v && s[start + |v|] == quote
    requires Closed(v, quote, i)
    ensures QuoteEnd(s, quote, start + i) == start + |v|
    decreases |v| - i
  {
    if i < |v| {
      assert s[start + i] == s[start..start + |v|][i] == v[i];
      QuoteEndAtClosed(s, quote, start, v, if v[i] == '\\' then i + 2 else i + 1);
    }
  }

  lemma {:induction false} QuoteEndIsClosed(s: string, quote: char, start: nat, e: nat, i: nat)
    requires start + i <= |s| + 1 && start <= e < |s|
    requires QuoteEnd(s, quote, start + i) == e
    ensures i <= e - start && Closed(s[start..e], quote, i)
    decreases |s| + 1 - start - i
  {
    var v := s[start..e];
    if start + i < |s| && s[start + i] != quote {
      assert start + i < e;
      assert v[i] == s[start + i];
      QuoteEndIsClosed(s, quote, start, e, if v[i] == '\\' then i + 2 else i + 1);
    }
  }

  /** Soundness: whatever token the lexer returns is spelled, maximally, where it stopped. */
  lemma ScanSpells(a: Alphabet, s: string, pos: nat) returns (p: nat)
    requires pos <= |s| + 1 && Scan(a, s, pos).tok != Eof
    ensures TokenAt(a, s, pos, p, Scan(a, s, pos).next, Scan(a, s, pos).tok)
  {
    p := Span(s, pos, a.spaces, true);
    ScanAtSpells(a, s, p);
  }

  lemma ScanAtSpells(a: Alphabet, s: string, p: nat)
    requires p < |s| && s[p] !in a.spaces
    requires ScanAt(a, s, p).tok != Eof
    ensures TokenAt(a, s, p, p, ScanAt(a, s, p).next, ScanAt(a, s, p).tok)
  {
    var sc := ScanAt(a, s, p);
    match sc.tok {
      case Str(v) => ScanQuotedSpells(a, s, p);
      case NamedOp(v) => ScanNamedOpSpells(a, s, p);
      case Ident(v) => ScanWordSpells(a, s, p);
      case Value(v) => ScanBareSpells(a, s, p);
      case _ => ScanSymbolSpells(a, s, p);
    }
  }

  lemma ScanSymbolSpells(a: Alphabet, s: string, p: nat)
    requires p < |s| && s[p] !in a.spaces
    requires var t := ScanAt(a, s, p).tok; t != Eof && !t.Str? && !t.NamedOp? && !t.Ident? && !t.Value?
    ensures TokenAt(a, s, p, p, ScanAt(a, s, p).next, ScanAt(a, s, p).tok)
  {
    var n := ScanAt(a, s, p).next;
    assert n == p + 1 || n == p + 2;
    assert s[p..n] == if n == p + 1 then [s[p]] else [s[p], s[p + 1]];
  }

  lemma ScanQuotedSpells(a: Alphabet, s: string, p: nat)
    requires p < |s| && (s[p] == '\'' || s[p] == '"')
    requires ScanQuoted(s, s[p], p + 1).tok != Eof
    ensures var sc := ScanQuoted(s, s[p], p + 1); TokenAt(a, s, p, p, sc.next, sc.tok)
  {
    var sc := ScanQuoted(s, s[p], p + 1);
    var e := sc.next - 1;
    QuoteEndIsClosed(s, s[p], p + 1, e, 0);
    var text := s[p..sc.next];
    assert text[0] == s[p] && s[e] == s[p];
    assert text == [text[0]] + s[p + 1..e] + [text[0]];
  }

  lemma ScanNamedOpSpells(a: Alphabet, s: string, p: nat)
    requires p < |s| && s[p] == '='
    requires ScanNamedOp(a, s, p + 1).tok != Eof
    ensures var sc := ScanNamedOp(a, s, p + 1); TokenAt(a, s, p, p, sc.next, sc.tok)
  {
    var sc := ScanNamedOp(a, s, p + 1);
    assert s[p..sc.next] == "=" + sc.tok.val + "=";
  }

  lemma ScanWordSpells(a: Alphabet, s: string, p: nat)
    requires p < |s| && (s[p] in a.letters || s[p] == '_')
    ensures var sc := ScanWord(a, s, p); TokenAt(a, s, p, p, sc.next, sc.tok)
  {
    assert IdentText(a, ScanWord(a, s, p).tok.val);
  }

  lemma ScanBareSpells(a: Alphabet, s: string, p: nat)
    requires p < |s| && s[p] !in a.letters && s[p] !in "_=!<>'\"" && !IsSeparator(a, s[p])
    ensures var sc := ScanBare(a, s, p); TokenAt(a, s, p, p, sc.next, sc.tok)
  {
    assert BareText(a, ScanBare(a, s, p).tok.val);
  }

  /** Completeness: a maximal spelling is what the lexer returns. */
  lemma SpelledScan(a: Alphabet, s: string, pos: nat, p: nat, n: nat, t: Token)
    requires a.Valid()
    requires TokenAt(a, s, pos, p, n, t)
    ensures Scan(a, s, pos) == Scanned(t, None, n)
  {
    assert forall j :: pos <= j < p ==> s[j] == s[pos..p][j - pos];
    var text := s[p..n];
    assert text[0] == s[p];
    SpelledFirst(a, t, text);
    SpanUnique(s, pos, a.spaces, true, p);
    SpelledScanAt(a, s, p, n, t);
  }

  lemma SpelledFirst(a: Alphabet, t: Token, text: string)
    requires a.Valid() && Spells(a, t, text)
    ensures text != [] && text[0] !in a.spaces
  {
  }

  lemma SpelledScanAt(a: Alphabet, s: string, p: nat, n: nat, t: Token)
    requires a.Valid()
    requires TokenAt(a, s, p, p, n, t) && s[p] !in a.spaces
    ensures ScanAt(a, s, p) == Scanned(t, None, n)
  {
    var text := s[p..n];
    assert forall j :: p <= j < n ==> s[j] == text[j - p];
    match t {
      case Ident(v) => SpelledWord(a, s, p, n, v);
      case Value(v) => SpelledBare(a, s, p, n, v);
      case Str(v) => SpelledQuoted(a, s, p, n, v);
      case NamedOp(v) => SpelledNamedOp(a, s, p, n, v);
      case _ =>
    }
  }

  lemma SpelledWord(a: Alphabet, s: string, p: nat, n: nat, v: string)
    requires a.Valid()
    requires TokenAt(a, s, p, p, n, Ident(v)) && s[p] !in a.spaces
    ensures ScanAt(a, s, p) == Scanned(Ident(v), None, n)
  {
    assert forall j :: p <= j < n ==> s[j] == v[j - p];
    SpanUnique(s, p, a.IdentChars(), true, n);
    assert s[p] !in ",;()=!<>'\"";
  }

  lemma SpelledBare(a: Alphabet, s: string, p: nat, n: nat, v: string)
    requires a.Valid()
    requires TokenAt(a, s, p, p, n, Value(v)) && s[p] !in a.spaces
    ensures ScanAt(a, s, p) == Scanned(Value(v), None, n)
  {
    assert forall j :: p <= j < n ==> s[j] == v[j - p];
    SpanUnique(s, p, a.BareStops(), false, n);
  }

  lemma SpelledQuoted(a: Alphabet, s: string, p: nat, n: nat, v: string)
    requires TokenAt(a, s, p, p, n, Str(v)) && s[p] !in a.spaces
    ensures ScanAt(a, s, p) == Scanned(Str(v), None, n)
  {
    var text := s[p..n];
    assert s[p] == text[0] && s[n - 1] == text[|v| + 1];
    assert forall k :: p + 1 <= k < n - 1 ==> s[k] == text[k - p] == v[k - p - 1];
    assert s[p + 1..p + 1 + |v|] == v;
    QuoteEndAtClosed(s, s[p], p + 1, v, 0);
  }

  lemma SpelledNamedOp(a: Alphabet, s: string, p: nat, n: nat, v: string)
    requires a.Valid()
    requires TokenAt(a, s, p, p, n, NamedOp(v)) && s[p] !in a.spaces
    ensures ScanAt(a, s, p) == Scanned(NamedOp(v), None, n)
  {
    hide ScanAt, ScanNamedOp;
    var text := s[p..n];
    assert text == "=" + v + "=" && |text| == |v| + 2;
    assert s[p] == text[0] && s[n - 1] == text[|v| + 1];
    assert forall k :: 0 <= k < |v| ==> s[p + 1 + k] == text[1 + k] == v[k];
    assert s[p + 1..n - 1] == v;
    EqualsIsNoWord(a);
    NamedOpAt(a, s, p, n - 1);
  }

  lemma EqualsIsNoWord(a: Alphabet)
    requires a.Valid()
    ensures '=' !in a.WordChars()
  {
  }

  lemma NamedOpAt(a: Alphabet, s: string, p: nat, e: nat)
    requires p + 1 < e < |s| && s[p] == '=' && s[e] == '=' && s[p] !in a.spaces && '=' !in a.WordChars()
    requires forall k :: p + 1 <= k < e ==> s[k] in a.WordChars()
    ensures ScanAt(a, s, p) == Scanned(NamedOp(s[p + 1..e]), None, e + 1)
  {
    SpanUnique(s, p + 1, a.WordChars(), true, e);
  }

  /**
   * The lexer is exactly longest-match tokenisation: it returns `t` ending at `n` iff `t` is
   * spelled there, reports the end of input iff only white space is left, and reports an
   * error iff something is left that spells no token.
   */
  lemma ScanExact(a: Alphabet, s: string, pos: nat)
    requires a.Valid() && pos <= |s|
    ensures forall t, n :: t != Eof ==>
      (Scan(a, s, pos) == Scanned(t, None, n) <==> exists p :: TokenAt(a, s, pos, p, n, t))
    ensures Scan(a, s, pos).tok == Eof && Scan(a, s, pos).err.None? <==> All(a.spaces, s[pos..])
    ensures Scan(a, s, pos).err.Some? <==>
      !All(a.spaces, s[pos..]) && !exists p, n, t :: TokenAt(a, s, pos, p, n, t)
  {
    forall p, n, t | TokenAt(a, s, pos, p, n, t)
      ensures Scan(a, s, pos) == Scanned(t, None, n) && t != Eof
    {
      SpelledScan(a, s, pos, p, n, t);
    }
    var sc := Scan(a, s, pos);
    if sc.tok != Eof {
      var p := ScanSpells(a, s, pos);
    }
    var q := Span(s, pos, a.spaces, true);
    if q < |s| {
      assert s[pos..][q - pos] == s[q];
      assert sc.tok == Eof ==> sc.err.Some?;
    } else {
      assert forall i :: 0 <= i < |s[pos..]| ==> s[pos..][i] == s[pos + i];
    }
  }
}
