/**
 * The Python string operations the dispatcher and the reference viewer rely on:
 * `startswith`, `endswith`, `in` on strings, `strip()`, `split()`, `split('\n')`,
 * `" ".join(...)`, `lower()`, `isupper()` and the decimal formatting of an int.
 *
 * Whitespace, case and letters are modelled over ASCII only (see README).
 */
module Text {

  /** Python's `str.isspace()` on ASCII: tab, line feed, vertical tab, form feed,
      carriage return, the four separators 0x1C-0x1F and space. */
  predicate IsSpace(c: char) {
    c == ' ' || ('\t' <= c <= '\r') || ('\U{1C}' <= c <= '\U{1F}')
  }

  /** The escape character that starts an ANSI colour sequence. */
  const Esc: string := "\U{1B}"

  /** The ANSI sequence that resets the colour. */
  const Reset: string := Esc + "[0m"

  predicate NoSpace(s: string) {
    forall i :: 0 <= i < |s| ==> !IsSpace(s[i])
  }

  predicate AllSpace(s: string) {
    forall i :: 0 <= i < |s| ==> IsSpace(s[i])
  }

  lemma AllSpaceAt(s: string, k: int)
    ensures AllSpace(s) && 0 <= k < |s| ==> IsSpace(s[k])
  {
  }

  /** `s.startswith(p)` */
  predicate StartsWith(s: string, p: string) {
    |p| <= |s| && s[..|p|] == p
  }

  /** `s.endswith(p)` */
  predicate EndsWith(s: string, p: string) {
    |p| <= |s| && s[|s| - |p|..] == p
  }

  /** `t in s` for two strings: `t` occurs in `s` as a contiguous substring. */
  predicate Contains(s: string, t: string) {
    exists i :: 0 <= i <= |s| - |t| && OccursAt(s, t, i)
  }

  predicate OccursAt(s: string, t: string, i: nat)
    requires i + |t| <= |s|
  {
    s[i..i + |t|] == t
  }

  lemma ContainsMiddle(a: string, t: string, b: string)
    ensures Contains(a + t + b, t)
  {
    var s := a + t + b;
    assert s[|a|..|a| + |t|] == t;
    assert OccursAt(s, t, |a|);
  }

  /** `s` starts with `p` and ends with `q`, and the two do not overlap. */
  predicate Framed(s: string, p: string, q: string) {
    |p| + |q| <= |s| && StartsWith(s, p) && EndsWith(s, q)
  }

  /** `p + x + q` is framed by `p` and `q`, with `x` between them. */
  lemma FramedParts(p: string, x: string, q: string)
    ensures var s := p + x + q;
            Framed(s, p, q) && s[|p|..|s| - |q|] == x
  {
    var s := p + x + q;
    assert s[..|p|] == p;
    assert s[|s| - |q|..] == q;
    assert s[|p|..|s| - |q|] == x;
  }

  // ---------------------------------------------------------------------------
  // strip()

  /** `s.lstrip()`: the leading whitespace removed. */
  function LStrip(s: string): (r: string)
    ensures |r| <= |s|
    ensures r == [] || !IsSpace(r[0])
  {
    if s != [] && IsSpace(s[0]) then LStrip(s[1..]) else s
  }

  /** `s.rstrip()`: the trailing whitespace removed. */
  function RStrip(s: string): (r: string)
    ensures |r| <= |s|
    ensures r == [] || !IsSpace(r[|r| - 1])
  {
    if s != [] && IsSpace(s[|s| - 1]) then RStrip(s[..|s| - 1]) else s
  }

  /** What `lstrip()` removes is a run of whitespace in front. */
  lemma {:induction false} LStripDrops(s: string)
    ensures var r := LStrip(s);
            r == s[|s| - |r|..] && AllSpace(s[..|s| - |r|])
    decreases |s|
  {
    if s != [] && IsSpace(s[0]) {
      LStripDrops(s[1..]);
      var r := LStrip(s);
      assert s[1..][|s| - 1 - |r|..] == s[|s| - |r|..];
      forall i | 0 <= i < |s| - |r| ensures IsSpace(s[i]) {
        if i > 0 {
          assert s[i] == s[1..][..|s| - 1 - |r|][i - 1];
        }
      }
    }
  }

  /** What `rstrip()` removes is a run of whitespace at the end. */
  lemma {:induction false} RStripKeeps(s: string)
    ensures var r := RStrip(s);
            r == s[..|r|] && AllSpace(s[|r|..])
    decreases |s|
  {
    if s != [] && IsSpace(s[|s| - 1]) {
      var s' := s[..|s| - 1];
      RStripKeeps(s');
      var r := RStrip(s);
      assert s'[..|r|] == s[..|r|];
      forall i | |r| <= i < |s| ensures IsSpace(s[i]) {
        if i < |s| - 1 {
          assert s[i] == s'[|r|..][i - |r|];
        }
      }
    }
  }

  /** Python's `str.strip()`: the slice of `s` left once the whitespace at both
      ends is removed. */
  function Strip(s: string): (r: string)
    ensures r == [] || (!IsSpace(r[0]) && !IsSpace(r[|r| - 1]))
  {
    RStripKeeps(LStrip(s));
    RStrip(LStrip(s))
  }

  /** What `strip()` removes is whitespace, at the two ends only. */
  lemma StripIsSlice(s: string)
    ensures var r := Strip(s);
            exists i :: 0 <= i <= |s| - |r| && r == s[i..i + |r|]
                        && AllSpace(s[..i]) && AllSpace(s[i + |r|..])
  {
    var l := LStrip(s);
    var r := RStrip(l);
    LStripDrops(s);
    RStripKeeps(l);
    var i := |s| - |l|;
    assert r == s[i..i + |r|];
    assert s[i + |r|..] == l[|r|..];
  }

  lemma {:induction false} LStripSpaces(a: string, t: string)
    requires AllSpace(a)
    requires t == [] || !IsSpace(t[0])
    ensures LStrip(a + t) == t
    decreases |a|
  {
    if a == [] {
      assert a + t == t;
    } else {
      assert (a + t)[1..] == a[1..] + t;
      LStripSpaces(a[1..], t);
    }
  }

  lemma {:induction false} RStripSpaces(t: string, b: string)
    requires AllSpace(b)
    requires t == [] || !IsSpace(t[|t| - 1])
    ensures RStrip(t + b) == t
    decreases |b|
  {
    if b == [] {
      assert t + b == t;
    } else {
      assert (t + b)[..|t + b| - 1] == t + b[..|b| - 1];
      RStripSpaces(t, b[..|b| - 1]);
    }
  }

  /** `strip()` is characterised by its result: whenever `s` is whitespace, then
      `t`, then whitespace, and `t` neither starts nor ends with whitespace, the
      stripped string is exactly `t`. */
  lemma StripUnique(a: string, t: string, b: string)
    requires AllSpace(a) && AllSpace(b)
    requires t == [] || (!IsSpace(t[0]) && !IsSpace(t[|t| - 1]))
    ensures Strip(a + t + b) == t
  {
    if t == [] {
      assert a + t + b == a + b;
      assert AllSpace(a + b);
      LStripSpaces(a + b, []);
      assert a + b + [] == a + b;
      RStripSpaces([], []);
    } else {
      assert a + t + b == a + (t + b);
      LStripSpaces(a, t + b);
      RStripSpaces(t, b);
    }
  }

  /** Stripping twice is stripping once. */
  lemma StripIdempotent(s: string)
    ensures Strip(Strip(s)) == Strip(s)
  {
    var t := Strip(s);
    assert [] + t + [] == t;
    StripUnique([], t, []);
  }

  // ---------------------------------------------------------------------------
  // split() and " ".join(...)

  /** Python's `str.split()` with no separator: the maximal runs of
      non-whitespace characters, in order. */
  function Split(s: string): (r: seq<string>)
    ensures forall i :: 0 <= i < |r| ==> r[i] != [] && NoSpace(r[i])
    ensures s != [] && !IsSpace(s[0]) ==> r != [] && r[0][0] == s[0]
    ensures s == [] ==> r == []
  {
    if s == [] then []
    else
      var rest := Split(s[1..]);
      if IsSpace(s[0]) then rest
      else if s[1..] != [] && !IsSpace(s[1]) then [[s[0]] + rest[0]] + rest[1..]
      else [[s[0]]] + rest
  }

  /** `sep.join(parts)` */
  function Join(sep: string, parts: seq<string>): string {
    if parts == [] then ""
    else if |parts| == 1 then parts[0]
    else parts[0] + sep + Join(sep, parts[1..])
  }

  /** Whitespace in front of a string adds no token. */
  lemma {:induction false} SplitLeadingSpace(a: string, s: string)
    requires AllSpace(a)
    ensures Split(a + s) == Split(s)
    decreases |a|
  {
    if a != [] {
      assert (a + s)[1..] == a[1..] + s;
      SplitLeadingSpace(a[1..], s);
    } else {
      assert a + s == s;
    }
  }

  /** Split of a string given by its first character and the rest. */
  lemma SplitStep(c: char, t: string)
    ensures Split([c] + t)
            == if IsSpace(c) then Split(t)
               else if t != [] && !IsSpace(t[0]) then [[c] + Split(t)[0]] + Split(t)[1..]
               else [[c]] + Split(t)
  {
    assert ([c] + t)[0] == c && ([c] + t)[1..] == t;
  }

  /** Splitting `a`, a non-empty run of whitespace, then `b` gives the tokens of
      `a` followed by those of `b`: however much whitespace separates them. */
  lemma {:induction false} SplitConcat(a: string, sp: string, b: string)
    requires sp != [] && AllSpace(sp)
    ensures Split(a + sp + b) == Split(a) + Split(b)
    decreases |a|
  {
    if a == [] {
      assert a + sp + b == sp + b;
      SplitLeadingSpace(sp, b);
    } else {
      var c, a' := a[0], a[1..];
      assert a == [c] + a';
      assert a + sp + b == [c] + (a' + sp + b);
      SplitConcat(a', sp, b);
      SplitConsConcat(c, a', sp, b);
    }
  }

  /** The inductive step of SplitConcat: one more character in front. */
  lemma SplitConsConcat(c: char, a: string, sp: string, b: string)
    requires sp != [] && AllSpace(sp)
    requires Split(a + sp + b) == Split(a) + Split(b)
    ensures Split([c] + (a + sp + b)) == Split([c] + a) + Split(b)
  {
    var t := a + sp + b;
    if IsSpace(c) {
      SplitStep(c, t);
      SplitStep(c, a);
    } else if a != [] && !IsSpace(a[0]) {
      assert t[0] == a[0];
      SplitJoinsFirst(c, a, t, Split(b));
    } else {
      assert t != [] && IsSpace(t[0]) by {
        if a == [] {
          assert t == sp + b && t[0] == sp[0];
        } else {
          assert t[0] == a[0];
        }
      }
      SplitStartsToken(c, a, t, Split(b));
    }
  }

  /** A non-space character in front of a word joins that word. */
  lemma SplitJoinsFirst(c: char, a: string, t: string, y: seq<string>)
    requires !IsSpace(c) && a != [] && !IsSpace(a[0]) && t != [] && t[0] == a[0]
    requires Split(t) == Split(a) + y
    ensures Split([c] + t) == Split([c] + a) + y
  {
    SplitStep(c, t);
    SplitStep(c, a);
    MergeFirstToken([c], Split(a), y);
  }

  /** A non-space character followed by whitespace or nothing is a token. */
  lemma SplitStartsToken(c: char, a: string, t: string, y: seq<string>)
    requires !IsSpace(c) && (a == [] || IsSpace(a[0])) && t != [] && IsSpace(t[0])
    requires Split(t) == Split(a) + y
    ensures Split([c] + t) == Split([c] + a) + y
  {
    var head: seq<string> := [[c]];
    calc {
      Split([c] + t);
      == { SplitAloneToken(c, t); }
      head + Split(t);
      == { assert Split(t) == Split(a) + y; }
      head + (Split(a) + y);
      == { assert head + (Split(a) + y) == (head + Split(a)) + y; }
      (head + Split(a)) + y;
      == { SplitAloneToken(c, a); }
      Split([c] + a) + y;
    }
  }

  /** A non-space character followed by whitespace or nothing is a token of
      its own. */
  lemma SplitAloneToken(c: char, x: string)
    requires !IsSpace(c) && (x == [] || IsSpace(x[0]))
    ensures Split([c] + x) == [[c]] + Split(x)
  {
    assert ([c] + x)[0] == c && ([c] + x)[1..] == x;
  }

  /** Growing the first token of `x` commutes with appending `y`. */
  lemma MergeFirstToken<T>(p: seq<T>, x: seq<seq<T>>, y: seq<seq<T>>)
    requires x != []
    ensures [p + (x + y)[0]] + (x + y)[1..] == ([p + x[0]] + x[1..]) + y
  {
    assert (x + y)[0] == x[0] && (x + y)[1..] == x[1..] + y;
  }

  /** A token-free string splits into that single token. */
  lemma {:induction false} SplitWord(w: string)
    requires w != [] && NoSpace(w)
    ensures Split(w) == [w]
    decreases |w|
  {
    assert [w[0]] + w[1..] == w;
    if w[1..] != [] {
      SplitWord(w[1..]);
      assert !IsSpace(w[1]);
      assert Split(w) == [[w[0]] + w[1..]];
    } else {
      assert w == [w[0]];
      assert Split(w) == [[w[0]]];
    }
  }

  /** Trailing whitespace adds no token. */
  lemma SplitTrailingSpace(s: string, b: string)
    requires AllSpace(b)
    ensures Split(s + b) == Split(s)
  {
    if b != [] {
      assert s + b + [] == s + b;
      SplitConcat(s, b, []);
    } else {
      assert s + b == s;
    }
  }

  /** Splitting after stripping gives the same tokens. */
  lemma SplitOfStrip(s: string)
    ensures Split(Strip(s)) == Split(s)
  {
    SplitOfLStrip(s);
    SplitOfRStrip(LStrip(s));
  }

  lemma SplitOfLStrip(s: string)
    ensures Split(LStrip(s)) == Split(s)
  {
    var l := LStrip(s);
    LStripDrops(s);
    var a := s[..|s| - |l|];
    assert s == a + l;
    SplitLeadingSpace(a, l);
  }

  lemma SplitOfRStrip(l: string)
    ensures Split(RStrip(l)) == Split(l)
  {
    var r := RStrip(l);
    RStripKeeps(l);
    var b := l[|r|..];
    assert l == r + b;
    SplitTrailingSpace(r, b);
  }

  predicate IsToken(w: string) {
    w != [] && NoSpace(w)
  }

  /** Round trip: joining tokens with single spaces and splitting again gives
      the tokens back. */
  lemma {:induction false} SplitJoin(parts: seq<string>)
    requires forall i :: 0 <= i < |parts| ==> IsToken(parts[i])
    ensures Split(Join(" ", parts)) == parts
    decreases |parts|
  {
    if parts == [] {
    } else if |parts| == 1 {
      SplitWord(parts[0]);
    } else {
      SplitWord(parts[0]);
      SplitJoin(parts[1..]);
      SplitConcat(parts[0], " ", Join(" ", parts[1..]));
      assert [parts[0]] + parts[1..] == parts;
    }
  }


  // ---------------------------------------------------------------------------
  // split('\n')

  /** Python's `s.split('\n')`: the pieces between line feeds; a trailing line
      feed gives a final empty piece. */
  function SplitLines(s: string): (r: seq<string>)
    ensures |r| >= 1
    ensures forall i :: 0 <= i < |r| ==> '\n' !in r[i]
  {
    if s == [] then [""]
    else
      var rest := SplitLines(s[1..]);
      if s[0] == '\n' then [""] + rest
      else [[s[0]] + rest[0]] + rest[1..]
  }

  function CountChar(c: char, s: string): nat {
    if s == [] then 0 else (if s[0] == c then 1 else 0) + CountChar(c, s[1..])
  }

  /** A text that ends in a line feed splits into at least two pieces, the
      last of them empty. */
  lemma {:induction false} SplitLinesTrailingFeed(s: string)
    requires s != [] && s[|s| - 1] == '\n'
    ensures |SplitLines(s)| >= 2 && SplitLines(s)[|SplitLines(s)| - 1] == ""
  {
    if |s| > 1 {
      var rest := SplitLines(s[1..]);
      SplitLinesTrailingFeed(s[1..]);
      if s[0] != '\n' {
        assert ([[s[0]] + rest[0]] + rest[1..])[|rest| - 1] == rest[|rest| - 1];
      }
    }
  }

  /** Every line feed separates two pieces, and joining the pieces with line
      feeds rebuilds the text. */
  lemma {:induction false} SplitLinesJoin(s: string)
    ensures |SplitLines(s)| == CountChar('\n', s) + 1
    ensures Join("\n", SplitLines(s)) == s
  {
    if s != [] {
      var rest := SplitLines(s[1..]);
      SplitLinesJoin(s[1..]);
      if s[0] == '\n' {
        assert ([""] + rest)[1..] == rest;
      } else {
        var r := [[s[0]] + rest[0]] + rest[1..];
        if |rest| == 1 {
          assert r == [[s[0]] + rest[0]];
        } else {
          assert r[1..] == rest[1..];
          assert rest == [rest[0]] + rest[1..];
        }
      }
    }
  }

  // ---------------------------------------------------------------------------
  // lower() and isupper()

  predicate IsUpperLetter(c: char) { 'A' <= c <= 'Z' }
  predicate IsLowerLetter(c: char) { 'a' <= c <= 'z' }

  function LowerChar(c: char): char {
    if IsUpperLetter(c) then (c as int - 'A' as int + 'a' as int) as char else c
  }

  /** Python's `str.lower()` on ASCII letters. */
  function Lower(s: string): (r: string)
    ensures |r| == |s|
    ensures forall i :: 0 <= i < |s| ==> r[i] == LowerChar(s[i])
  {
    seq(|s|, i requires 0 <= i < |s| => LowerChar(s[i]))
  }

  /** Python's `str.isupper()` on ASCII: at least one cased character, and no
      lower-case one. */
  predicate IsUpper(s: string) {
    (exists i :: 0 <= i < |s| && IsUpperLetter(s[i]))
    && forall i :: 0 <= i < |s| ==> !IsLowerLetter(s[i])
  }

  // ---------------------------------------------------------------------------
  // f"{n}" for an int

  predicate IsDigit(c: char) { '0' <= c <= '9' }

  function DigitChar(d: nat): (c: char)
    requires d < 10
    ensures IsDigit(c) && c as int - '0' as int == d
  {
    ('0' as int + d) as char
  }

  /** The decimal numeral of a natural number, without leading zeros. */
  function NatToString(n: nat): (r: string)
    ensures r != [] && forall i :: 0 <= i < |r| ==> IsDigit(r[i])
    ensures r[0] == '0' ==> n == 0 && r == "0"
  {
    if n < 10 then [DigitChar(n)] else NatToString(n / 10) + [DigitChar(n % 10)]
  }

  /** Python's `str(n)` for an int: a minus sign for negative numbers. */
  function IntToString(n: int): (r: string)
    ensures r != [] && (r[0] == '-' <==> n < 0)
    ensures forall i :: 0 < i < |r| ==> IsDigit(r[i])
  {
    if n < 0 then "-" + NatToString(-n) else NatToString(n)
  }

  function ParseNat(s: string): nat
    requires forall i :: 0 <= i < |s| ==> IsDigit(s[i])
  {
    if s == [] then 0
    else
      assert IsDigit(s[|s| - 1]);
      ParseNat(s[..|s| - 1]) * 10 + (s[|s| - 1] as int - '0' as int)
  }

  function ParseInt(s: string): int
    requires s != [] && s[0] == '-' ==> forall i :: 1 <= i < |s| ==> IsDigit(s[i])
    requires s == [] || s[0] != '-' ==> forall i :: 0 <= i < |s| ==> IsDigit(s[i])
  {
    if s != [] && s[0] == '-' then 0 - ParseNat(s[1..]) as int else ParseNat(s)
  }

  lemma {:induction false} NatToStringRoundTrip(n: nat)
    ensures ParseNat(NatToString(n)) == n
  {
    if n >= 10 {
      NatToStringRoundTrip(n / 10);
      var s := NatToString(n);
      assert s[..|s| - 1] == NatToString(n / 10);
    }
  }

  /** The numeral of an exit code determines the code. */
  lemma IntToStringRoundTrip(n: int)
    ensures ParseInt(IntToString(n)) == n
  {
    if n < 0 {
      NatToStringRoundTrip(-n);
      assert IntToString(n)[1..] == NatToString(-n);
    } else {
      NatToStringRoundTrip(n);
    }
  }

  lemma IntToStringInjective(m: int, n: int)
    requires IntToString(m) == IntToString(n)
    ensures m == n
  {
    IntToStringRoundTrip(m);
    IntToStringRoundTrip(n);
  }
}
