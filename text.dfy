/** String helpers shared by the editor and the backend: the JavaScript
    whitespace class, trimming, whitespace collapsing, splitting and joining on
    one separator character, indentation, substring search, ASCII lowering and
    decimal rendering. */
module Text {
  import opened Seqs

  /** The characters that JavaScript's `\s` class and `String.prototype.trim`
      treat as whitespace (WhiteSpace and LineTerminator). */
  predicate IsSpace(c: char) {
    || c == ' ' || c == '\t' || c == '\n' || c == '\r'
    || c == '\U{000B}' || c == '\U{000C}' || c == '\U{00A0}' || c == '\U{1680}'
    || ('\U{2000}' <= c <= '\U{200A}')
    || c == '\U{2028}' || c == '\U{2029}' || c == '\U{202F}' || c == '\U{205F}'
    || c == '\U{3000}' || c == '\U{FEFF}'
  }

  predicate IsBlank(s: string) {
    forall i | 0 <= i < |s| :: IsSpace(s[i])
  }

  predicate NoSpace(s: string) {
    forall i | 0 <= i < |s| :: !IsSpace(s[i])
  }

  /** Index of the first non-whitespace character (`line.search(/\S/)`), or
      the length when there is none. */
  function LeadingSpaces(s: string): (n: nat)
    ensures n <= |s|
    ensures forall i | 0 <= i < n :: IsSpace(s[i])
    ensures n < |s| ==> !IsSpace(s[n])
    ensures n == |s| <==> IsBlank(s)
  {
    if s == [] || !IsSpace(s[0]) then 0 else 1 + LeadingSpaces(s[1..])
  }

  /** Number of whitespace characters at the end. */
  function TrailingSpaces(s: string): (n: nat)
    ensures n <= |s|
    ensures forall i | |s| - n <= i < |s| :: IsSpace(s[i])
    ensures n < |s| ==> !IsSpace(s[|s| - 1 - n])
    ensures n == |s| <==> IsBlank(s)
  {
    if s == [] || !IsSpace(s[|s| - 1]) then 0 else 1 + TrailingSpaces(s[..|s| - 1])
  }

  /** `String.prototype.trim`: the text between the leading and the trailing
      whitespace. */
  function Trim(s: string): (r: string)
    ensures r == [] <==> IsBlank(s)
    ensures r != [] ==> !IsSpace(r[0]) && !IsSpace(r[|r| - 1])
    ensures LeadingSpaces(s) + |r| <= |s|
    ensures r == s[LeadingSpaces(s)..LeadingSpaces(s) + |r|]
    ensures IsBlank(s[LeadingSpaces(s) + |r|..])
  {
    var t := s[LeadingSpaces(s)..];
    t[..|t| - TrailingSpaces(t)]
  }

  /** `s.replace(/\s+/g, "_")`: every maximal run of whitespace becomes one
      underscore. */
  function CollapseSpaces(s: string): (r: string)
    ensures NoSpace(r)
    ensures NoSpace(s) ==> r == s
    ensures s != [] ==> r != []
    ensures s != [] && !IsSpace(s[0]) ==> r[0] == s[0]
    decreases |s|
  {
    if s == [] then []
    else if IsSpace(s[0]) then "_" + CollapseSpaces(s[LeadingSpaces(s)..])
    else [s[0]] + CollapseSpaces(s[1..])
  }

  /** Collapsing keeps a whitespace-free prefix as it is. */
  lemma {:induction false} CollapseWord(w: string, rest: string)
    requires NoSpace(w)
    ensures CollapseSpaces(w + rest) == w + CollapseSpaces(rest)
  {
    if w != [] {
      var tail := w[1..];
      var t := tail + rest;
      assert !IsSpace(w[0]);
      assert w == [w[0]] + tail;
      AppendAssoc([w[0]], tail, rest);
      CollapseWord(tail, rest);
      CollapseCons(w[0], t);
      AppendAssoc([w[0]], tail, CollapseSpaces(rest));
    } else {
      assert w + rest == rest;
    }
  }

  lemma CollapseCons(c: char, s: string)
    requires !IsSpace(c)
    ensures CollapseSpaces([c] + s) == [c] + CollapseSpaces(s)
  {
    ConsSlices(c, s);
  }

  /** Collapsing turns a whitespace run into one underscore. */
  lemma CollapseBlank(b: string, rest: string)
    requires b != [] && IsBlank(b)
    requires rest == [] || !IsSpace(rest[0])
    ensures CollapseSpaces(b + rest) == "_" + CollapseSpaces(rest)
  {
    LeadingAfterBlank(b, rest);
    DropOfAppend(b, rest, |b|);
    assert b[|b|..] == [];
    assert (b + rest)[|b|..] == rest;
  }

  lemma {:induction false} LeadingAfterBlank(b: string, rest: string)
    requires IsBlank(b)
    requires rest == [] || !IsSpace(rest[0])
    ensures LeadingSpaces(b + rest) == |b|
  {
    if b != [] {
      DropOfAppend(b, rest, 1);
      LeadingAfterBlank(b[1..], rest);
    } else {
      assert b + rest == rest;
    }
  }

  /** The content of `replace(/\s+/g, "_")`: a word, then a maximal
      whitespace run, then the rest become the word, one underscore, and the
      rest collapsed. */
  lemma CollapseStep(w: string, b: string, rest: string)
    requires NoSpace(w)
    requires b != [] && IsBlank(b)
    requires rest == [] || !IsSpace(rest[0])
    ensures CollapseSpaces(w + b + rest) == w + "_" + CollapseSpaces(rest)
  {
    var t := b + rest;
    var c := CollapseSpaces(rest);
    AppendAssoc(w, b, rest);
    CollapseWord(w, t);
    CollapseBlank(b, rest);
    AppendAssoc(w, "_", c);
  }

  /** `s.split(sep)` in JavaScript and Python alike: every occurrence of the
      separator ends a part, so empty parts are kept. */
  function Split(s: string, sep: char): (parts: seq<string>)
    ensures |parts| >= 1
    ensures forall i | 0 <= i < |parts| :: sep !in parts[i]
  {
    if s == [] then [""]
    else
      var rest := Split(s[1..], sep);
      if s[0] == sep then [""] + rest
      else [[s[0]] + rest[0]] + rest[1..]
  }

  /** `sep.join(parts)`. */
  function Join(parts: seq<string>, sep: char): string
  {
    if parts == [] then ""
    else if |parts| == 1 then parts[0]
    else parts[0] + [sep] + Join(parts[1..], sep)
  }

  lemma {:induction false} JoinSplit(s: string, sep: char)
    ensures Join(Split(s, sep), sep) == s
  {
    if s != [] {
      var rest := Split(s[1..], sep);
      JoinSplit(s[1..], sep);
      if s[0] == sep {
        assert Split(s, sep) == [""] + rest;
        assert ([""] + rest)[1..] == rest;
      } else {
        var parts := Split(s, sep);
        assert parts == [[s[0]] + rest[0]] + rest[1..];
        if |rest| == 1 {
          assert parts == [[s[0]] + rest[0]];
        } else {
          assert parts[1..] == rest[1..];
          assert Join(rest, sep) == rest[0] + [sep] + Join(rest[1..], sep);
        }
      }
    }
  }

  /** Splitting a part that holds no separator gives the part back. */
  lemma {:induction false} SplitNoSep(s: string, sep: char)
    requires sep !in s
    ensures Split(s, sep) == [s]
  {
    if s != [] {
      SplitNoSep(s[1..], sep);
      assert [s[0]] + s[1..] == s;
    }
  }

  /** Splitting at the first separator. */
  lemma {:induction false} SplitAtSep(x: string, sep: char, y: string)
    requires sep !in x
    ensures Split(x + [sep] + y, sep) == [x] + Split(y, sep)
  {
    if x == [] {
      assert x + [sep] + y == [sep] + y;
      assert ([sep] + y)[1..] == y;
    } else {
      SplitAtSep(x[1..], sep, y);
      assert (x + [sep] + y)[1..] == x[1..] + [sep] + y;
      assert [x[0]] + x[1..] == x;
    }
  }

  lemma {:induction false} SplitJoin(parts: seq<string>, sep: char)
    requires |parts| >= 1
    requires forall i | 0 <= i < |parts| :: sep !in parts[i]
    ensures Split(Join(parts, sep), sep) == parts
  {
    if |parts| == 1 {
      SplitNoSep(parts[0], sep);
    } else {
      SplitJoin(parts[1..], sep);
      SplitAtSep(parts[0], sep, Join(parts[1..], sep));
      assert [parts[0]] + parts[1..] == parts;
    }
  }

  /** `"  ".repeat(depth)`: two spaces per level. */
  function Indent(depth: nat): (r: string)
    ensures |r| == 2 * depth
    ensures forall i | 0 <= i < |r| :: r[i] == ' '
  {
    if depth == 0 then "" else "  " + Indent(depth - 1)
  }

  /** A non-empty name with no surrounding whitespace, as `trim` leaves it. */
  predicate IsTrimmed(name: string) {
    name != [] && !IsSpace(name[0]) && !IsSpace(name[|name| - 1])
  }

  lemma {:induction false} LeadingOfPadded(pad: string, name: string)
    requires IsBlank(pad) && name != [] && !IsSpace(name[0])
    ensures LeadingSpaces(pad + name) == |pad|
  {
    if pad != [] {
      assert (pad + name)[1..] == pad[1..] + name;
      LeadingOfPadded(pad[1..], name);
    } else {
      assert pad + name == name;
    }
  }

  /** Whitespace padding in front of a trimmed name is what `search(/\S/)`
      measures and what `trim` removes. */
  lemma PaddedLine(pad: string, name: string)
    requires IsBlank(pad) && IsTrimmed(name)
    ensures LeadingSpaces(pad + name) == |pad|
    ensures !IsBlank(pad + name)
    ensures Trim(pad + name) == name
  {
    LeadingOfPadded(pad, name);
    var s := pad + name;
    assert s[|pad|..] == name;
    assert TrailingSpaces(name) == 0;
  }

  function StartsWith(s: string, prefix: string): bool {
    |prefix| <= |s| && s[..|prefix|] == prefix
  }

  /** Python's `sub in s` (and a plain-substring reading of SQL `contains`). */
  function Contains(s: string, sub: string): bool
  {
    StartsWith(s, sub) || (s != [] && Contains(s[1..], sub))
  }

  lemma {:induction false} ContainsAt(s: string, sub: string, i: nat)
    requires i + |sub| <= |s| && s[i..i + |sub|] == sub
    ensures Contains(s, sub)
  {
    if i > 0 {
      assert s[1..][i - 1..i - 1 + |sub|] == s[i..i + |sub|];
      ContainsAt(s[1..], sub, i - 1);
    }
  }

  function LowerChar(c: char): char {
    if 'A' <= c <= 'Z' then (c as int + 32) as char else c
  }

  predicate IsUpper(c: char) {
    'A' <= c <= 'Z'
  }

  /** Python's `str.lower()`, restricted to ASCII letters: no capital is
      left, each capital becomes the small letter at the same place in the
      alphabet, and every other character is kept. */
  function Lower(s: string): (r: string)
    ensures |r| == |s|
    ensures forall i | 0 <= i < |r| :: !IsUpper(r[i])
    ensures forall i | 0 <= i < |s| && !IsUpper(s[i]) :: r[i] == s[i]
    ensures forall i | 0 <= i < |s| && IsUpper(s[i]) ::
      'a' <= r[i] <= 'z' && r[i] as int - 'a' as int == s[i] as int - 'A' as int
  {
    seq(|s|, i requires 0 <= i < |s| => LowerChar(s[i]))
  }

  /** Lowering twice is lowering once. */
  lemma LowerIdempotent(s: string)
    ensures Lower(Lower(s)) == Lower(s)
  {
    var r := Lower(s);
    assert forall i | 0 <= i < |r| :: Lower(r)[i] == r[i];
  }

  function DigitChar(d: nat): char
    requires d < 10
  {
    ('0' as int + d) as char
  }

  predicate IsDigits(s: string) {
    forall i | 0 <= i < |s| :: '0' <= s[i] <= '9'
  }

  /** The number a string of decimal digits denotes, most significant digit
      first. */
  function DigitsValue(s: string): nat
    requires IsDigits(s)
  {
    if |s| == 0 then 0 else 10 * DigitsValue(s[..|s| - 1]) + (s[|s| - 1] as int - '0' as int)
  }

  /** Decimal rendering of a natural number, as an f-string shows an int:
      digits with no leading zero that denote the number. */
  function NatToString(n: nat): (r: string)
    ensures r != [] && IsDigits(r)
    ensures DigitsValue(r) == n
    ensures |r| > 1 ==> r[0] != '0'
  {
    if n < 10 then [DigitChar(n)] else NatToString(n / 10) + [DigitChar(n % 10)]
  }
}
