/** Sort keys as text, app/components/queryfilter/sort.go. */
module QuerySortText {
  import opened Wrappers
  import opened QueryAst
  import opened QueryLexer
  import opened QuerySort

  // ─── The library functions it calls ─────────────────────────────────────────

  function TrimRight(spaces: set<char>, s: string): (r: string)
    ensures r <= s && (r != "" ==> r[|r| - 1] !in spaces)
  {
    if s != "" && s[|s| - 1] in spaces then TrimRight(spaces, s[..|s| - 1]) else s
  }

  /** `strings.TrimSpace`. */
  function Trim(spaces: set<char>, s: string): string {
    TrimRight(spaces, s[Span(s, 0, spaces, true)..])
  }

  /** `strings.Split(s, ",")`. */
  function Split(s: string): (parts: seq<string>)
    ensures parts != [] && forall i :: 0 <= i < |parts| ==> ',' !in parts[i]
  {
    var i := Span(s, 0, {','}, false);
    if i < |s| then [s[..i]] + Split(s[i + 1..]) else [s]
  }

  // ─── Parsing ────────────────────────────────────────────────────────────────

  function ReadKey(a: Alphabet, part: string): Option<SortField> {
    var p := Trim(a.spaces, part);
    var name := if p != "" && (p[0] == '-' || p[0] == '+') then p[1..] else p;
    if name == "" then None else Some(SortField(name, p[0] == '-'))
  }

  function ReadKeys(a: Alphabet, parts: seq<string>): seq<SortField> {
    if parts == [] then []
    else
      var key := ReadKey(a, parts[0]);
      (if key.Some? then [key.value] else []) + ReadKeys(a, parts[1..])
  }

  function Sorts(a: Alphabet, text: string): seq<SortField> {
    var s := Trim(a.spaces, text);
    if s == "" then [] else ReadKeys(a, Split(s))
  }

  /** One part: a sign, which descending order needs and ascending order may have, and the name. */
  method ParseKey(a: Alphabet, part: string) returns (key: Option<SortField>)
    ensures key == ReadKey(a, part)
  {
    hide Trim;
    var p := Trim(a.spaces, part);
    if p == "" {
      return None;
    }
    var desc := false;
    if p[0] == '-' {
      desc := true;
      p := p[1..];
    } else if p[0] == '+' {
      p := p[1..];
    }
    if p == "" {
      return None;
    }
    return Some(SortField(p, desc));
  }

  method ParseSort(a: Alphabet, text: string) returns (keys: seq<SortField>)
    ensures keys == Sorts(a, text)
  {
    hide Trim, Split, ReadKey;
    var s := Trim(a.spaces, text);
    if s == "" {
      return [];
    }
    var parts := Split(s);
    keys := [];
    for i := 0 to |parts|
      invariant keys + ReadKeys(a, parts[i..]) == ReadKeys(a, parts)
    {
      assert parts[i..][1..] == parts[i + 1..];
      var key := ParseKey(a, parts[i]);
      if key.Some? {
        keys := keys + [key.value];
      }
    }
  }

  // ─── What white space and signs mean ────────────────────────────────────────

  /** No white space at either end. */
  predicate Trimmed(spaces: set<char>, s: string) {
    s != "" ==> s[0] !in spaces && s[|s| - 1] !in spaces
  }

  lemma {:induction false} TrimRightAfter(spaces: set<char>, s: string, after: string)
    requires Trimmed(spaces, s) && All(spaces, after)
    ensures TrimRight(spaces, s + after) == s
  {
    var t := s + after;
    if after == "" {
      assert t == s;
    } else {
      assert t[|t| - 1] == after[|after| - 1];
      assert t[..|t| - 1] == s + after[..|after| - 1];
      TrimRightAfter(spaces, s, after[..|after| - 1]);
    }
  }

  /** Trimming takes off the white space around, all of it and nothing else. */
  lemma TrimAround(spaces: set<char>, before: string, s: string, after: string)
    requires All(spaces, before) && Trimmed(spaces, s) && All(spaces, after)
    ensures Trim(spaces, before + s + after) == s
  {
    var t := before + s + after;
    if s == "" {
      assert forall i :: 0 <= i < |t| ==> t[i] in spaces;
      SpanUnique(t, 0, spaces, true, |t|);
    } else {
      assert t[|before|] == s[0];
      assert forall i :: 0 <= i < |before| ==> t[i] == before[i];
      SpanUnique(t, 0, spaces, true, |before|);
      assert t[|before|..] == s + after;
      TrimRightAfter(spaces, s, after);
    }
  }

  lemma KeyOfTrimmed(a: Alphabet, part: string, p: string)
    requires Trim(a.spaces, part) == p
    ensures p == "" ==> ReadKey(a, part) == None
    ensures p != "" && p[0] != '-' && p[0] != '+' ==> ReadKey(a, part) == Some(SortField(p, false))
    ensures p != "" && (p[0] == '-' || p[0] == '+') ==>
      ReadKey(a, part) == if |p| == 1 then None else Some(SortField(p[1..], p[0] == '-'))
  {
    hide Trim;
  }

  /** A part with a sign, white space around it: `-` is descending and `+` ascending. */
  lemma SignedPart(a: Alphabet, before: string, sign: char, name: string, after: string)
    requires a.Valid() && All(a.spaces, before) && All(a.spaces, after) && (sign == '-' || sign == '+')
    requires name != "" ==> name[|name| - 1] !in a.spaces
    ensures ReadKey(a, before + ([sign] + name) + after) ==
      if name == "" then None else Some(SortField(name, sign == '-'))
  {
    var s := [sign] + name;
    SignIsNoSpace(a);
    assert s[|s| - 1] == (if name == "" then sign else name[|name| - 1]) && s[1..] == name;
    hide Alphabet.Valid, Trim, ReadKey;
    TrimAround(a.spaces, before, s, after);
    KeyOfTrimmed(a, before + s + after, s);
  }

  lemma SignIsNoSpace(a: Alphabet)
    requires a.Valid()
    ensures '-' !in a.spaces && '+' !in a.spaces
  {
  }

  /** A part without a sign, white space around it, is ascending; an empty one is no key. */
  lemma UnsignedPart(a: Alphabet, before: string, name: string, after: string)
    requires All(a.spaces, before) && All(a.spaces, after) && Trimmed(a.spaces, name)
    requires name != "" ==> name[0] != '-' && name[0] != '+'
    ensures ReadKey(a, before + name + after) == if name == "" then None else Some(SortField(name, false))
  {
    TrimAround(a.spaces, before, name, after);
    KeyOfTrimmed(a, before + name + after, name);
    hide Trim, ReadKey;
  }

  // ─── Printing ───────────────────────────────────────────────────────────────

  /** A name that can be written down: white space may lead it, after the sign, but not end it. */
  predicate WritableKey(a: Alphabet, key: SortField) {
    key.field != "" && ',' !in key.field && key.field[|key.field| - 1] !in a.spaces
  }

  predicate WritableKeys(a: Alphabet, keys: seq<SortField>) {
    forall key :: key in keys ==> WritableKey(a, key)
  }

  function PrintKey(key: SortField): string { (if key.desc then "-" else "+") + key.field }

  function PrintKeys(keys: seq<SortField>): string {
    if keys == [] then ""
    else if |keys| == 1 then PrintKey(keys[0])
    else PrintKey(keys[0]) + "," + PrintKeys(keys[1..])
  }

  lemma TrimmedStays(spaces: set<char>, s: string)
    requires s != "" && s[0] !in spaces && s[|s| - 1] !in spaces
    ensures Trim(spaces, s) == s
  {
  }

  lemma KeyRoundTrip(a: Alphabet, key: SortField)
    requires a.Valid() && WritableKey(a, key)
    ensures ReadKey(a, PrintKey(key)) == Some(key)
  {
    var s := PrintKey(key);
    assert s[|s| - 1] == key.field[|key.field| - 1] && s[1..] == key.field;
    TrimmedStays(a.spaces, s);
  }

  lemma SplitFirst(x: string, rest: string)
    requires ',' !in x
    ensures Split(x) == [x] && Split(x + "," + rest) == [x] + Split(rest)
  {
    var s := x + "," + rest;
    assert forall i :: 0 <= i < |x| ==> x[i] != ',' && s[i] == x[i];
    assert s[|x|] == ',';
    SpanUnique(x, 0, {','}, false, |x|);
    SpanUnique(s, 0, {','}, false, |x|);
    assert s[..|x|] == x && s[|x| + 1..] == rest;
  }

  lemma {:induction false} PrintedEnds(a: Alphabet, keys: seq<SortField>)
    requires a.Valid() && WritableKeys(a, keys) && keys != []
    ensures var s := PrintKeys(keys); s != "" && s[0] !in a.spaces && s[|s| - 1] !in a.spaces
  {
    var first := PrintKey(keys[0]);
    assert WritableKey(a, keys[0]);
    assert first[|first| - 1] == keys[0].field[|keys[0].field| - 1];
    if |keys| > 1 {
      PrintedEnds(a, keys[1..]);
      var s, later := PrintKeys(keys), PrintKeys(keys[1..]);
      assert s[|s| - 1] == later[|later| - 1];
    }
  }

  lemma ReadKeysCons(a: Alphabet, part: string, parts: seq<string>, key: SortField)
    requires ReadKey(a, part) == Some(key)
    ensures ReadKeys(a, [part] + parts) == [key] + ReadKeys(a, parts)
  {
    hide ReadKey;
    assert ([part] + parts)[1..] == parts;
  }

  lemma KeyHasNoComma(a: Alphabet, key: SortField)
    requires WritableKey(a, key)
    ensures ',' !in PrintKey(key)
  {
  }

  lemma {:induction false} PrintedReads(a: Alphabet, keys: seq<SortField>)
    requires a.Valid() && WritableKeys(a, keys) && keys != []
    ensures ReadKeys(a, Split(PrintKeys(keys))) == keys
  {
    var first := PrintKey(keys[0]);
    hide Alphabet.Valid, Split, ReadKey, ReadKeys, WritableKey, PrintKey;
    KeyRoundTrip(a, keys[0]);
    KeyHasNoComma(a, keys[0]);
    assert keys == [keys[0]] + keys[1..];
    if |keys| == 1 {
      SplitFirst(first, "");
      NothingRead(a);
      ReadKeysCons(a, first, [], keys[0]);
      assert [first] + [] == [first];
    } else {
      var later := PrintKeys(keys[1..]);
      assert PrintKeys(keys) == first + "," + later;
      hide PrintKeys;
      SplitFirst(first, later);
      assert WritableKeys(a, keys[1..]);
      PrintedReads(a, keys[1..]);
      ReadKeysCons(a, first, Split(later), keys[0]);
    }
  }

  lemma NothingRead(a: Alphabet)
    ensures ReadKeys(a, []) == []
  {
  }

  lemma ReadIsWritable(a: Alphabet, part: string)
    requires ',' !in part
    ensures ReadKey(a, part).Some? ==> WritableKey(a, ReadKey(a, part).value)
  {
    var p := Trim(a.spaces, part);
    var rest := part[Span(part, 0, a.spaces, true)..];
    assert p <= rest && ',' !in p;
    assert forall i :: 0 <= i < |p| ==> p[i] == rest[i];
    var key := ReadKey(a, part);
    if key.Some? {
      var name := key.value.field;
      assert name == p || name == p[1..];
      assert name[|name| - 1] == p[|p| - 1];
    }
  }

  lemma {:induction false} ReadAreWritable(a: Alphabet, parts: seq<string>)
    requires forall i :: 0 <= i < |parts| ==> ',' !in parts[i]
    ensures WritableKeys(a, ReadKeys(a, parts))
  {
    hide Trim, ReadKey, WritableKey;
    if parts != [] {
      ReadAreWritable(a, parts[1..]);
      ReadIsWritable(a, parts[0]);
    }
  }

  lemma NoKeys(a: Alphabet)
    ensures WritableKeys(a, []) && PrintKeys([]) == "" && Trim(a.spaces, "") == ""
  {
  }

  /** Key lists that some sort text yields are exactly the writable ones, and printing finds one. */
  lemma SortsRoundTrip(a: Alphabet, keys: seq<SortField>)
    requires a.Valid()
    ensures WritableKeys(a, keys) ==> Sorts(a, PrintKeys(keys)) == keys
    ensures WritableKeys(a, keys) <==> exists text :: Sorts(a, text) == keys
  {
    NoKeys(a);
    hide Alphabet.Valid, Split, ReadKeys, WritableKeys, PrintKeys, Trim;
    if WritableKeys(a, keys) && keys != [] {
      PrintedEnds(a, keys);
      TrimmedStays(a.spaces, PrintKeys(keys));
      PrintedReads(a, keys);
    }
    forall text | Sorts(a, text) == keys
      ensures WritableKeys(a, keys)
    {
      ReadAreWritable(a, Split(Trim(a.spaces, text)));
    }
  }
}
