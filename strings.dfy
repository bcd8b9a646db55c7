/** The parts of Python's `str` that the modelled code relies on. */
module Strings {
  import opened Ordering

  // ---------------------------------------------------------------- whitespace and str.split()

  /** str.isspace() for one character: the characters str.split() with no argument splits on. */
  predicate IsSpace(c: char)
  {
    var n := c as int;
    || n == 0x20 || (0x09 <= n <= 0x0D) || (0x1C <= n <= 0x1F) || n == 0x85 || n == 0xA0
    || n == 0x1680 || (0x2000 <= n <= 0x200A) || n == 0x2028 || n == 0x2029 || n == 0x202F
    || n == 0x205F || n == 0x3000
  }

  /** What str.split() returns pieces of: non-empty, without whitespace. */
  predicate IsToken(t: string)
  {
    t != [] && forall i :: 0 <= i < |t| ==> !IsSpace(t[i])
  }

  /** Length of the leading run of non-whitespace characters. */
  function TokenEnd(s: string): (n: nat)
    ensures n <= |s|
    ensures forall i :: 0 <= i < n ==> !IsSpace(s[i])
    ensures n == |s| || IsSpace(s[n])
  {
    if s == [] || IsSpace(s[0]) then 0 else 1 + TokenEnd(s[1..])
  }

  /** str.split(): the maximal runs of non-whitespace characters, in order. */
  function Split(s: string): seq<string>
    decreases |s|
  {
    if s == [] then []
    else if IsSpace(s[0]) then Split(s[1..])
    else [s[..TokenEnd(s)]] + Split(s[TokenEnd(s)..])
  }

  /** Every piece str.split() returns is a token. */
  lemma {:induction false} SplitYieldsTokens(s: string)
    ensures forall k :: 0 <= k < |Split(s)| ==> IsToken(Split(s)[k])
    decreases |s|
  {
    if s != [] {
      if IsSpace(s[0]) {
        SplitYieldsTokens(s[1..]);
      } else {
        var n := TokenEnd(s);
        var rest := Split(s[n..]);
        assert Split(s) == [s[..n]] + rest;
        assert IsToken(s[..n]);
        SplitYieldsTokens(s[n..]);
      }
    }
  }

  /** sep.join(parts). */
  function JoinWith(sep: string, parts: seq<string>): string
  {
    if |parts| == 0 then ""
    else if |parts| == 1 then parts[0]
    else parts[0] + sep + JoinWith(sep, parts[1..])
  }

  lemma {:induction false} TokenEndOfToken(t: string, rest: string)
    requires IsToken(t)
    requires rest == [] || IsSpace(rest[0])
    ensures TokenEnd(t + rest) == |t|
  {
    if |t| > 1 {
      assert (t + rest)[1..] == t[1..] + rest;
      TokenEndOfToken(t[1..], rest);
    } else {
      assert (t + rest)[1..] == rest;
    }
  }

  lemma SplitAfterToken(t: string, tail: string)
    requires IsToken(t)
    requires tail == [] || IsSpace(tail[0])
    ensures Split(t + tail) == [t] + Split(tail)
  {
    var s := t + tail;
    TokenEndOfToken(t, tail);
    assert s[..|t|] == t && s[|t|..] == tail;
  }

  lemma SplitSkipsSpace(c: char, j: string)
    requires IsSpace(c)
    ensures Split([c] + j) == Split(j)
  {
    assert ([c] + j)[1..] == j;
  }

  lemma {:induction false} JoinStartsWithToken(sep: string, tokens: seq<string>)
    requires tokens != [] && IsToken(tokens[0])
    ensures JoinWith(sep, tokens) != [] && !IsSpace(JoinWith(sep, tokens)[0])
  {
    if |tokens| > 1 {
      assert JoinWith(sep, tokens) == tokens[0] + (sep + JoinWith(sep, tokens[1..]));
    }
  }

  /** Tokens joined by a whitespace separator split back into the same tokens:
      '\n'.join(words).split() == words when no word is blank or holds whitespace. */
  lemma {:induction false} SplitJoin(sep: char, tokens: seq<string>)
    requires IsSpace(sep)
    requires forall k :: 0 <= k < |tokens| ==> IsToken(tokens[k])
    ensures Split(JoinWith([sep], tokens)) == tokens
  {
    if tokens != [] {
      SplitJoin(sep, tokens[1..]);
      SplitJoinStep(sep, tokens);
    }
  }

  /** One step of SplitJoin: the first token comes off, the rest splits as before. */
  lemma SplitJoinStep(sep: char, tokens: seq<string>)
    requires IsSpace(sep) && tokens != []
    requires IsToken(tokens[0])
    requires Split(JoinWith([sep], tokens[1..])) == tokens[1..]
    ensures Split(JoinWith([sep], tokens)) == tokens
  {
    var t, rest := tokens[0], tokens[1..];
    assert tokens == [t] + rest;
    if rest == [] {
      SplitJoinSingle(sep, t);
    } else {
      SplitJoinCons(sep, t, rest);
    }
  }

  lemma SplitJoinSingle(sep: char, t: string)
    requires IsToken(t)
    ensures Split(JoinWith([sep], [t])) == [t]
  {
    SplitAfterToken(t, "");
    assert t + "" == t;
  }

  lemma SplitJoinCons(sep: char, t: string, rest: seq<string>)
    requires IsSpace(sep) && IsToken(t) && rest != []
    ensures Split(JoinWith([sep], [t] + rest)) == [t] + Split(JoinWith([sep], rest))
  {
    var j := JoinWith([sep], rest);
    assert ([t] + rest)[1..] == rest;
    assert JoinWith([sep], [t] + rest) == t + ([sep] + j);
    SplitAfterToken(t, [sep] + j);
    SplitSkipsSpace(sep, j);
  }

  /** str.split(sep) for a one-character separator: the pieces between separators,
      empty pieces included. */
  function SplitOn(s: string, sep: char): (parts: seq<string>)
    ensures |parts| >= 1
    ensures forall k :: 0 <= k < |parts| ==> sep !in parts[k]
    ensures JoinWith([sep], parts) == s
  {
    if s == [] then [""]
    else
      var rest := SplitOn(s[1..], sep);
      assert rest == [rest[0]] + rest[1..];
      if s[0] == sep then
        assert s == [sep] + s[1..];
        [""] + rest
      else
        assert s == [s[0]] + s[1..];
        [[s[0]] + rest[0]] + rest[1..]
  }

  // ---------------------------------------------------------------- padding

  function Repeat(c: char, n: nat): (r: string)
    ensures |r| == n && forall i :: 0 <= i < n ==> r[i] == c
  {
    seq(n, _ => c)
  }

  function Max(a: int, b: int): int { if a < b then b else a }

  /** The left margin str.center gives: CPython pads marg // 2 on the left, plus one more
      when both the margin and the width are odd. */
  function CenterLeft(len: nat, width: nat): nat
    requires len < width
  {
    var marg := width - len;
    marg / 2 + (if marg % 2 == 1 && width % 2 == 1 then 1 else 0)
  }

  /** s.center(width) with the default space fill. */
  function Center(s: string, width: nat): (r: string)
    ensures |r| == Max(width, |s|)
    ensures |s| >= width ==> r == s
    ensures |s| < width ==>
      var left := CenterLeft(|s|, width);
      var right := width - |s| - left;
      && r[left..left + |s|] == s
      && (forall i :: 0 <= i < left ==> r[i] == ' ')
      && (forall i :: left + |s| <= i < width ==> r[i] == ' ')
      && -1 <= left - right <= 1
  {
    if |s| >= width then s
    else
      var left := CenterLeft(|s|, width);
      Repeat(' ', left) + s + Repeat(' ', width - |s| - left)
  }

  /** s.ljust(width) with the default space fill. */
  function LJust(s: string, width: nat): (r: string)
    ensures |r| == Max(width, |s|)
    ensures r[..|s|] == s
    ensures forall i :: |s| <= i < |r| ==> r[i] == ' '
  {
    if |s| >= width then s else s + Repeat(' ', width - |s|)
  }

  // ---------------------------------------------------------------- suffixes

  /** s.endswith(suffix). */
  predicate EndsWith(s: string, suffix: string)
  {
    |suffix| <= |s| && s[|s| - |suffix|..] == suffix
  }

  // ---------------------------------------------------------------- case

  predicate IsLowerAscii(c: char) { 'a' <= c <= 'z' }

  /** str.upper() on one character; only ASCII letters are mapped. */
  function UpperChar(c: char): (u: char)
    ensures !IsLowerAscii(u)
    ensures !IsLowerAscii(c) ==> u == c
  {
    if IsLowerAscii(c) then (c as int - 32) as char else c
  }

  /** No lower-case letter in s. */
  predicate IsUpper(s: string)
  {
    forall i :: 0 <= i < |s| ==> !IsLowerAscii(s[i])
  }

  /** str.upper(). */
  function Upper(s: string): (r: string)
    ensures |r| == |s| && IsUpper(r)
    ensures IsUpper(s) ==> r == s
  {
    seq(|s|, i requires 0 <= i < |s| => UpperChar(s[i]))
  }

  // ---------------------------------------------------------------- ordering

  /** Python's `<` on strings: code point by code point, a proper prefix first. */
  predicate StrLess(a: string, b: string)
  {
    if a == [] then b != []
    else if b == [] then false
    else a[0] < b[0] || (a[0] == b[0] && StrLess(a[1..], b[1..]))
  }

  lemma {:induction false} StrLessIrreflexive(a: string)
    ensures !StrLess(a, a)
  {
    if a != [] {
      StrLessIrreflexive(a[1..]);
    }
  }

  lemma {:induction false} StrLessTransitive(a: string, b: string, c: string)
    requires StrLess(a, b) && StrLess(b, c)
    ensures StrLess(a, c)
  {
    if a != [] && a[0] == b[0] && b[0] == c[0] {
      StrLessTransitive(a[1..], b[1..], c[1..]);
    }
  }

  lemma {:induction false} StrLessTotal(a: string, b: string)
    requires a != b
    ensures StrLess(a, b) || StrLess(b, a)
  {
    if a != [] && b != [] && a[0] == b[0] {
      assert a == [a[0]] + a[1..] && b == [b[0]] + b[1..];
      StrLessTotal(a[1..], b[1..]);
    }
  }

  lemma StrLessIsStrictTotalOrder()
    ensures IsStrictTotalOrder(StrLess)
  {
    forall a ensures !StrLess(a, a) {
      StrLessIrreflexive(a);
    }
    forall a, b, c | StrLess(a, b) && StrLess(b, c) ensures StrLess(a, c) {
      StrLessTransitive(a, b, c);
    }
    forall a, b | a != b ensures StrLess(a, b) || StrLess(b, a) {
      StrLessTotal(a, b);
    }
  }

  // ---------------------------------------------------------------- str(int)

  function Digit(d: nat): (c: char)
    requires d < 10
    ensures '0' <= c <= '9'
  {
    ('0' as int + d) as char
  }

  /** str(n) for n >= 0: decimal digits, most significant first. */
  function NatToString(n: nat): (s: string)
    ensures s != [] && forall i :: 0 <= i < |s| ==> '0' <= s[i] <= '9'
  {
    if n < 10 then [Digit(n)] else NatToString(n / 10) + [Digit(n % 10)]
  }

  /** A larger number never has fewer digits. */
  lemma {:induction false} NatToStringLengthMonotone(a: nat, b: nat)
    requires a <= b
    ensures |NatToString(a)| <= |NatToString(b)|
  {
    if a >= 10 {
      NatToStringLengthMonotone(a / 10, b / 10);
    }
  }

  /** str(i). */
  function IntToString(i: int): (s: string)
    ensures IsToken(s)
  {
    if i < 0 then "-" + NatToString(-i) else NatToString(i)
  }
}
