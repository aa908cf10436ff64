/** The filter AST of app/components/queryfilter and the tokens its lexer produces. */
module QueryAst {

  /** The nine operators; `Other` is any further operator string a Go caller can put in a node. */
  datatype Op = Eq | Ne | Gt | Lt | Gte | Lte | Prefix | Suffix | Like | Other(name: string)

  datatype LogicalOp = And | Or

  datatype Node =
    | Comparison(field: string, op: Op, value: string)
    | Logical(lop: LogicalOp, left: Node, right: Node)

  datatype Token =
    | Eof
    | Ident(val: string)
    | Str(val: string)
    | Value(val: string)
    | Comma | Semi | LParen | RParen
    | EqEq | Neq | LT | LTE | GT | GTE
    | NamedOp(val: string)

  /** The text the source keeps with a token, quoted in its error messages. */
  function TokenText(t: Token): string {
    match t
    case Ident(v) => v
    case Str(v) => v
    case Value(v) => v
    case NamedOp(v) => v
    case EqEq => "=="
    case Neq => "!="
    case LT => "<"
    case LTE => "<="
    case GT => ">"
    case GTE => ">="
    case _ => ""
  }

  /**
   * The Unicode tables the lexer consults: `unicode.IsLetter`, `unicode.IsDigit`,
   * `unicode.IsSpace` and the rune mapping of `strings.ToLower`.
   */
  datatype Alphabet = Alphabet(letters: set<char>, digits: set<char>, spaces: set<char>, lower: map<char, char>) {

    /** What every version of the Unicode tables satisfies about ASCII. */
    ghost predicate Valid() {
      && letters !! spaces
      && digits !! spaces
      && (forall c :: 'a' <= c <= 'z' ==> c in letters && Lower(c) == c)
      && (forall c :: 'A' <= c <= 'Z' ==> c in letters && Lower(c) == (c as int + 32) as char)
      && (forall c :: c in ",;()=!<>'\"\\_+-" ==> c !in letters && c !in digits && c !in spaces)
    }

    function Lower(c: char): char {
      if c in lower then lower[c] else c
    }

    function LowerAll(s: string): (t: string)
      ensures |t| == |s|
      ensures forall i :: 0 <= i < |s| ==> t[i] == Lower(s[i])
    {
      seq(|s|, i requires 0 <= i < |s| => Lower(s[i]))
    }

    function WordChars(): set<char> { letters + digits }

    function IdentChars(): set<char> { letters + digits + {'_'} }

    /** Characters that end an unquoted value. */
    function BareStops(): set<char> { {',', ';', '(', ')'} + spaces }
  }
}
