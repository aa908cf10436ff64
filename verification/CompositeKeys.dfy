/** Ids cast to uint64, and their decimal strings joined with ":", as batch loading groups them. */
module CompositeKeys {

  function Digit(d: nat): char
    requires d < 10
  {
    "0123456789"[d]
  }

  /** `strconv.FormatUint(n, 10)`. */
  function Decimal(n: nat): (s: string)
    ensures s != []
    decreases n
  {
    if n < 10 then [Digit(n)] else Decimal(n / 10) + [Digit(n % 10)]
  }

  /** `strings.Join(parts, ":")` of the decimal strings. */
  function JoinKey(values: seq<nat>): string {
    if values == [] then ""
    else if |values| == 1 then Decimal(values[0])
    else Decimal(values[0]) + ":" + JoinKey(values[1..])
  }

  lemma DigitInjective(d: nat, e: nat)
    requires d < 10 && e < 10 && Digit(d) == Digit(e)
    ensures d == e
  {
  }

  lemma {:induction false} DecimalInjective(m: nat, n: nat)
    requires Decimal(m) == Decimal(n)
    ensures m == n
    decreases m
  {
    var s, t := Decimal(m), Decimal(n);
    if m >= 10 && n >= 10 {
      assert s[..|s| - 1] == Decimal(m / 10) && t[..|t| - 1] == Decimal(n / 10);
      assert s[|s| - 1] == Digit(m % 10) && t[|t| - 1] == Digit(n % 10);
      DecimalInjective(m / 10, n / 10);
    }
    DigitInjective(m % 10, n % 10);
  }

  lemma {:induction false} DecimalHasNoColon(n: nat)
    ensures ':' !in Decimal(n)
  {
    if n >= 10 {
      DecimalHasNoColon(n / 10);
    }
    assert forall d: nat :: d < 10 ==> Digit(d) != ':';
  }

  lemma SplitAtColon(x: string, y: string, s: string, t: string)
    requires ':' !in x && ':' !in y && x + ":" + s == y + ":" + t
    ensures x == y && s == t
  {
    var l, r := x + ":" + s, y + ":" + t;
    assert |x| == |y| by {
      var first := if |x| < |y| then |x| else |y|;
      assert l[first] == r[first];
    }
    assert x == l[..|x|] && y == r[..|y|];
    assert s == l[|x| + 1..] && t == r[|y| + 1..];
  }

  /** Among tuples of one length the joined key identifies the tuple. */
  lemma {:induction false} JoinKeyInjective(a: seq<nat>, b: seq<nat>)
    requires |a| == |b| && JoinKey(a) == JoinKey(b)
    ensures a == b
  {
    if |a| == 1 {
      DecimalInjective(a[0], b[0]);
    } else if |a| > 1 {
      DecimalHasNoColon(a[0]);
      DecimalHasNoColon(b[0]);
      SplitAtColon(Decimal(a[0]), Decimal(b[0]), JoinKey(a[1..]), JoinKey(b[1..]));
      DecimalInjective(a[0], b[0]);
      JoinKeyInjective(a[1..], b[1..]);
      assert a == [a[0]] + a[1..] && b == [b[0]] + b[1..];
    }
  }
}
