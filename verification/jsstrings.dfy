/** The JavaScript string operations the site relies on, written out over
    `seq<char>`: `trim`, `split`, `join`, `startsWith`, `includes` (substring),
    `length` in UTF-16 code units, the `s || null` idiom and the global
    `parseInt` without a radix argument. */
module JsStrings {
  import opened Base

  /** ECMAScript WhiteSpace and LineTerminator code points: what `trim` and
      `parseInt` skip. */
  predicate IsWhitespace(c: char) {
    || c == '\U{0009}' || c == '\U{000A}' || c == '\U{000B}' || c == '\U{000C}' || c == '\U{000D}'
    || c == '\U{0020}' || c == '\U{00A0}' || c == '\U{1680}'
    || ('\U{2000}' <= c <= '\U{200A}')
    || c == '\U{2028}' || c == '\U{2029}' || c == '\U{202F}' || c == '\U{205F}'
    || c == '\U{3000}' || c == '\U{FEFF}'
  }

  /** No whitespace at either end. */
  predicate IsTrimmed(s: string) {
    |s| == 0 || (!IsWhitespace(s[0]) && !IsWhitespace(s[|s| - 1]))
  }

  /** `s.trimStart()`: drops the leading whitespace and nothing else. */
  function TrimStart(s: string): (r: string)
    ensures |r| <= |s| && r == s[|s| - |r|..]
    ensures forall i :: 0 <= i < |s| - |r| ==> IsWhitespace(s[i])
    ensures |r| > 0 ==> !IsWhitespace(r[0])
  {
    if |s| > 0 && IsWhitespace(s[0]) then TrimStart(s[1..]) else s
  }

  /** `s.trimEnd()`: drops the trailing whitespace and nothing else. */
  function TrimEnd(s: string): (r: string)
    ensures |r| <= |s| && r == s[..|r|]
    ensures forall i :: |r| <= i < |s| ==> IsWhitespace(s[i])
    ensures |r| > 0 ==> !IsWhitespace(r[|r| - 1])
  {
    if |s| > 0 && IsWhitespace(s[|s| - 1]) then TrimEnd(s[..|s| - 1]) else s
  }

  /** `s.trim()`: the middle of `s` once whitespace is removed from both ends. */
  function Trim(s: string): (r: string)
    ensures IsTrimmed(r)
    ensures IsTrimmed(s) ==> r == s
  {
    TrimmedEnds(s);
    TrimOfTrimmed(s);
    TrimEnd(TrimStart(s))
  }

  lemma TrimmedEnds(s: string)
    ensures IsTrimmed(TrimEnd(TrimStart(s)))
  {
    var a := TrimStart(s);
    var r := TrimEnd(a);
    if |r| > 0 {
      assert r[0] == a[0];
    }
  }

  /** Trimming drops whitespace and nothing else: everything before the
      result and everything after it is whitespace. */
  lemma TrimDropsOnlyWhitespace(s: string)
    ensures forall i :: 0 <= i < |s| - |TrimStart(s)| ==> IsWhitespace(s[i])
    ensures forall i :: |s| - |TrimStart(s)| + |Trim(s)| <= i < |s| ==> IsWhitespace(s[i])
  {
    var a := TrimStart(s);
    var r := TrimEnd(a);
    var k := |s| - |a|;
    forall i | k + |r| <= i < |s|
      ensures IsWhitespace(s[i])
    {
      assert s[i] == a[i - k];
    }
  }

  lemma TrimOfTrimmed(s: string)
    ensures IsTrimmed(s) ==> TrimEnd(TrimStart(s)) == s
  {
    if IsTrimmed(s) && |s| > 0 {
      assert TrimStart(s) == s;
    }
  }

  /** The trimmed string is the part of `s` after its leading whitespace. */
  lemma TrimOccurs(s: string)
    ensures OccursAt(s, Trim(s), |s| - |TrimStart(s)|)
  {
    PrefixOfSuffixOccurs(s, TrimStart(s), TrimEnd(TrimStart(s)));
  }

  lemma PrefixOfSuffixOccurs(s: string, a: string, r: string)
    requires |a| <= |s| && a == s[|s| - |a|..]
    requires |r| <= |a| && r == a[..|r|]
    ensures OccursAt(s, r, |s| - |a|)
  {
    var k := |s| - |a|;
    assert forall j :: 0 <= j < |r| ==> r[j] == s[k + j];
  }

  /** Trimming never introduces a character. */
  lemma TrimKeepsOut(s: string, c: char)
    requires c !in s
    ensures c !in Trim(s)
  {
    TrimOccurs(s);
    OccursKeepsOut(s, Trim(s), |s| - |TrimStart(s)|, c);
  }

  lemma OccursKeepsOut(s: string, sub: string, i: int, c: char)
    requires OccursAt(s, sub, i) && c !in s
    ensures c !in sub
  {
    assert forall j :: 0 <= j < |sub| ==> sub[j] == s[i + j];
  }

  /** Trimming twice is trimming once. */
  lemma TrimIdempotent(s: string)
    ensures Trim(Trim(s)) == Trim(s)
  {
  }

  /** A leading blank in front of a trimmed, non-empty word is trimmed away. */
  lemma TrimAfterBlank(t: string)
    requires |t| > 0 && IsTrimmed(t)
    ensures Trim(" " + t) == t
  {
    assert (" " + t)[1..] == t;
    assert TrimStart(" " + t) == TrimStart(t);
  }

  /** `s.split(d)` with a one-character separator: the pieces between the
      separators, an empty piece for each empty gap, and `[""]` for `""`. */
  function Split(s: string, d: char): (r: seq<string>)
    ensures |r| >= 1
    ensures forall i :: 0 <= i < |r| ==> d !in r[i]
  {
    if |s| == 0 then [""]
    else
      var rest := Split(s[1..], d);
      if s[0] == d then [""] + rest
      else [[s[0]] + rest[0]] + rest[1..]
  }

  /** `xs.join(sep)`; an empty array joins to `""`. */
  function Join(xs: seq<string>, sep: string): (r: string)
    ensures |xs| == 0 ==> r == ""
    ensures |xs| > 0 ==> StartsWith(r, xs[0])
    ensures |xs| > 1 ==> StartsWith(r, xs[0] + sep)
  {
    if |xs| == 0 then ""
    else if |xs| == 1 then xs[0]
    else xs[0] + sep + Join(xs[1..], sep)
  }

  /** Joining the pieces back with the separator restores the input. */
  lemma {:induction false} JoinSplit(s: string, d: char)
    ensures Join(Split(s, d), [d]) == s
  {
    if |s| > 0 {
      var rest := Split(s[1..], d);
      JoinSplit(s[1..], d);
      if s[0] == d {
        assert Split(s, d) == [""] + rest;
        assert ([""] + rest)[1..] == rest;
        assert s == [d] + s[1..];
      } else if |rest| == 1 {
        assert s == [s[0]] + s[1..];
      } else {
        var r := Split(s, d);
        assert r[1..] == rest[1..];
        assert Join(rest, [d]) == rest[0] + [d] + Join(rest[1..], [d]);
        assert s == [s[0]] + s[1..];
      }
    }
  }

  /** A string without the separator is a single piece. */
  lemma {:induction false} SplitWithoutSeparator(x: string, d: char)
    requires d !in x
    ensures Split(x, d) == [x]
  {
    if |x| > 0 {
      SplitWithoutSeparator(x[1..], d);
      assert x == [x[0]] + x[1..];
    }
  }

  /** A separator-free first piece is split off on its own. */
  lemma {:induction false} SplitAfterPiece(x: string, y: string, d: char)
    requires d !in x
    ensures Split(x + [d] + y, d) == [x] + Split(y, d)
  {
    if |x| == 0 {
      assert x + [d] + y == [d] + y;
      assert ([d] + y)[1..] == y;
    } else {
      assert (x + [d] + y)[1..] == x[1..] + [d] + y;
      SplitAfterPiece(x[1..], y, d);
      assert [x[0]] + x[1..] == x;
    }
  }

  /** Splitting a join of separator-free pieces gives the pieces back. */
  lemma {:induction false} SplitJoin(xs: seq<string>, d: char)
    requires |xs| >= 1
    requires forall i :: 0 <= i < |xs| ==> d !in xs[i]
    ensures Split(Join(xs, [d]), d) == xs
  {
    if |xs| == 1 {
      SplitWithoutSeparator(xs[0], d);
    } else {
      SplitJoin(xs[1..], d);
      SplitAfterPiece(xs[0], Join(xs[1..], [d]), d);
      assert [xs[0]] + xs[1..] == xs;
    }
  }

  /** `s.startsWith(p)`. */
  predicate StartsWith(s: string, p: string) {
    |p| <= |s| && s[..|p|] == p
  }

  /** `s.includes(sub)`: `sub` occurs somewhere in `s` (the ORM's `contains`). */
  predicate Contains(s: string, sub: string) {
    exists i :: 0 <= i <= |s| - |sub| && OccursAt(s, sub, i)
  }

  /** `sub` occurs in `s` starting at index `i`. */
  predicate OccursAt(s: string, sub: string, i: int) {
    0 <= i <= |s| - |sub| && s[i..i + |sub|] == sub
  }

  /** An occurrence inside a prefix is an occurrence in the whole string. */
  lemma OccursInPrefix(s: string, p: string, sub: string, i: int)
    requires StartsWith(s, p) && OccursAt(p, sub, i)
    ensures OccursAt(s, sub, i)
  {
    assert forall j :: 0 <= j < |sub| ==> sub[j] == p[i + j] == s[i + j];
  }

  /** The first piece of a split is a prefix of the string. */
  lemma SplitFirstIsPrefix(s: string, d: char)
    ensures StartsWith(s, Split(s, d)[0])
  {
    var xs := Split(s, d);
    JoinSplit(s, d);
    if |xs| > 1 {
      assert Join(xs, [d]) == xs[0] + ([d] + Join(xs[1..], [d]));
    }
  }

  /** `s.length`: UTF-16 code units, so a code point above U+FFFF counts twice. */
  function JsLength(s: string): (n: nat)
    ensures |s| <= n <= 2 * |s|
    ensures n == 0 <==> |s| == 0
  {
    if |s| == 0 then 0
    else (if s[0] as int > 0xFFFF then 2 else 1) + JsLength(s[1..])
  }

  /** A string of basic-plane characters is as long in JavaScript as in Dafny. */
  lemma {:induction false} JsLengthBasicPlane(s: string)
    requires forall i :: 0 <= i < |s| ==> s[i] as int <= 0xFFFF
    ensures JsLength(s) == |s|
  {
    if |s| > 0 {
      JsLengthBasicPlane(s[1..]);
    }
  }

  /** `s || null`: the empty string is falsy and becomes `null`. */
  function OrNull(s: string): (r: Option<string>)
    ensures r.None? <==> s == ""
    ensures r.Some? ==> r.value == s
  {
    if s == "" then None else Some(s)
  }

  /** The value of `c` as a digit in radix 36; 36 when `c` is no digit at all. */
  function DigitValue(c: char): (v: nat)
    ensures v <= 36
  {
    if '0' <= c <= '9' then (c as int) - ('0' as int)
    else if 'a' <= c <= 'z' then (c as int) - ('a' as int) + 10
    else if 'A' <= c <= 'Z' then (c as int) - ('A' as int) + 10
    else 36
  }

  /** The length of the longest prefix of `s` made of digits of `radix`. */
  function DigitRun(s: string, radix: nat): (n: nat)
    ensures n <= |s|
    ensures forall i :: 0 <= i < n ==> DigitValue(s[i]) < radix
    ensures n < |s| ==> DigitValue(s[n]) >= radix
  {
    if |s| > 0 && DigitValue(s[0]) < radix then 1 + DigitRun(s[1..], radix) else 0
  }

  /** The number a digit string denotes, most significant digit first. */
  function DigitsValue(z: string, radix: nat): nat {
    if |z| == 0 then 0
    else DigitsValue(z[..|z| - 1], radix) * radix + DigitValue(z[|z| - 1])
  }

  /** The unsigned part of `parseInt`: hexadecimal after `0x`/`0X`, decimal
      otherwise, up to the first non-digit; `None` when no digit is read. */
  function ParseUnsigned(u: string): Option<nat> {
    var hex := |u| >= 2 && u[0] == '0' && (u[1] == 'x' || u[1] == 'X');
    var radix := if hex then 16 else 10;
    var body := if hex then u[2..] else u;
    var n := DigitRun(body, radix);
    if n == 0 then None else Some(DigitsValue(body[..n], radix))
  }

  /** `parseInt(s)` with no radix: skip leading whitespace, then read a signed
      number; no digit at all is `NaN`, here `None`. */
  function ParseInt(s: string): (r: Option<int>)
    ensures r.Some? <==> ReadsDigit(Unsigned(TrimStart(s)))
    ensures r.Some? && NegativeSign(TrimStart(s)) ==> r.value <= 0
    ensures r.Some? && !NegativeSign(TrimStart(s)) ==> r.value >= 0
  {
    ParseUnsignedReads(Unsigned(TrimStart(s)));
    ParseSigned(TrimStart(s))
  }

  predicate NegativeSign(t: string) {
    |t| > 0 && t[0] == '-'
  }

  /** `t` without one leading sign. */
  function Unsigned(t: string): (u: string)
    ensures |t| > 0 && (t[0] == '-' || t[0] == '+') ==> u == t[1..]
    ensures |t| == 0 || (t[0] != '-' && t[0] != '+') ==> u == t
  {
    if |t| > 0 && (t[0] == '-' || t[0] == '+') then t[1..] else t
  }

  /** `u` opens with `0x` or `0X`. */
  predicate HexPrefixed(u: string) {
    |u| >= 2 && u[0] == '0' && (u[1] == 'x' || u[1] == 'X')
  }

  /** A digit of the radix `u` is read in follows the optional `0x` prefix. */
  predicate ReadsDigit(u: string) {
    if HexPrefixed(u) then |u| > 2 && DigitValue(u[2]) < 16
    else |u| > 0 && DigitValue(u[0]) < 10
  }

  lemma ParseUnsignedReads(u: string)
    ensures ParseUnsigned(u).Some? <==> ReadsDigit(u)
  {
  }

  /** One optional sign, then the unsigned part. */
  function ParseSigned(t: string): Option<int> {
    var negative := |t| > 0 && t[0] == '-';
    var u := if |t| > 0 && (t[0] == '-' || t[0] == '+') then t[1..] else t;
    var v := ParseUnsigned(u);
    if v.None? then None
    else
      var n: int := v.value;
      Some(if negative then -n else n)
  }

  /** The decimal digit for `d`. */
  function DigitChar(d: nat): char
    requires d < 10
  {
    ((d + '0' as int) as char)
  }

  /** The decimal representation of `m`, without leading zeros. */
  function NatToString(m: nat): (r: string)
    ensures |r| >= 1
    ensures forall i :: 0 <= i < |r| ==> '0' <= r[i] <= '9'
    ensures m > 0 ==> r[0] != '0'
  {
    if m < 10 then [DigitChar(m)] else NatToString(m / 10) + [DigitChar(m % 10)]
  }

  /** `String(n)` for an integer `n`. */
  function IntToString(n: int): string {
    if n < 0 then "-" + NatToString(-n) else NatToString(n)
  }

  /** The digits of `m` denote `m`. */
  lemma {:induction false} DigitsValueOfNat(m: nat)
    ensures DigitsValue(NatToString(m), 10) == m
  {
    var r := NatToString(m);
    if m >= 10 {
      DigitsValueOfNat(m / 10);
      assert r[..|r| - 1] == NatToString(m / 10);
    }
  }

  /** A run of decimal digits is read to its end. */
  lemma {:induction false} DigitRunOfDigits(s: string)
    requires forall i :: 0 <= i < |s| ==> '0' <= s[i] <= '9'
    ensures DigitRun(s, 10) == |s|
  {
    if |s| > 0 {
      DigitRunOfDigits(s[1..]);
    }
  }

  /** The digits of `m` are read back as `m`. */
  lemma ParseUnsignedOfNat(m: nat)
    ensures ParseUnsigned(NatToString(m)) == Some(m)
  {
    var d := NatToString(m);
    DigitRunOfDigits(d);
    DigitsValueOfNat(m);
    assert d[..|d|] == d;
  }

  /** `parseInt(String(n)) == n`: the proficiency field round-trips. */
  lemma ParseIntOfIntToString(n: int)
    ensures ParseInt(IntToString(n)) == Some(n)
  {
    if n < 0 {
      var m: nat := -n;
      var d := NatToString(m);
      assert IntToString(n) == "-" + d;
      NoLeadingBlank("-" + d);
      assert ParseInt(IntToString(n)) == ParseSigned("-" + d);
      ParseSignedOfNegative(m);
    } else {
      var d := NatToString(n);
      assert IntToString(n) == d;
      NoLeadingBlank(d);
      assert ParseInt(IntToString(n)) == ParseSigned(d);
      ParseSignedOfNat(n);
    }
  }

  lemma NoLeadingBlank(s: string)
    requires |s| > 0 && (s[0] == '-' || '0' <= s[0] <= '9')
    ensures ParseInt(s) == ParseSigned(s)
  {
    assert !IsWhitespace(s[0]);
  }

  lemma ParseSignedOfNat(m: nat)
    ensures ParseSigned(NatToString(m)) == Some(m)
  {
    var d := NatToString(m);
    assert d[0] != '-' && d[0] != '+';
    ParseUnsignedOfNat(m);
  }

  lemma ParseSignedOfNegative(m: nat)
    requires m > 0
    ensures ParseSigned("-" + NatToString(m)) == Some(-(m as int))
  {
    var t := "-" + NatToString(m);
    assert t[1..] == NatToString(m);
    ParseUnsignedOfNat(m);
  }
}
