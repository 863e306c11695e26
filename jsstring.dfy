/**
 * The JavaScript string and array built-ins the scraper and the sample-data
 * generator rely on, written out: `trim`, `split`, `toLowerCase`, number to
 * decimal text, `parseInt`, `encodeURIComponent` and `slice`.
 */
module JsString {
  import opened Wrappers

  /** WhiteSpace and LineTerminator of ECMAScript: what `trim` strips and what `\s` matches. */
  predicate IsWhitespace(c: char)
    ensures IsWhitespace(c) ==> c != '-' && c != '/' && !('0' <= c <= '9') && !('A' <= c <= 'Z')
    ensures c as int < 128 ==> (IsWhitespace(c) <==> c in "\t\n\U{B}\U{C}\r ")
  {
    || c == '\U{9}' || c == '\U{A}' || c == '\U{B}' || c == '\U{C}' || c == '\U{D}'
    || c == ' ' || c == '\U{A0}' || c == '\U{1680}'
    || ('\U{2000}' <= c <= '\U{200A}')
    || c == '\U{2028}' || c == '\U{2029}' || c == '\U{202F}' || c == '\U{205F}'
    || c == '\U{3000}' || c == '\U{FEFF}'
  }

  predicate AllWhitespace(s: string) {
    forall i :: 0 <= i < |s| ==> IsWhitespace(s[i])
  }

  /** Neither end of `s` is whitespace. */
  predicate IsTrimmed(s: string) {
    s == [] || (!IsWhitespace(s[0]) && !IsWhitespace(s[|s| - 1]))
  }

  // ---------------------------------------------------------------- trim

  /** `s` without its leading whitespace run. */
  function TrimStart(s: string): (r: string)
    ensures |r| <= |s|
    ensures s != [] && IsWhitespace(s[0]) ==> |r| < |s|
    ensures r == [] || !IsWhitespace(r[0])
  {
    if s != [] && IsWhitespace(s[0]) then TrimStart(s[1..]) else s
  }

  /** `s` without its trailing whitespace run. */
  function TrimEnd(s: string): (r: string)
    ensures |r| <= |s|
    ensures r == [] || !IsWhitespace(r[|r| - 1])
  {
    if s != [] && IsWhitespace(s[|s| - 1]) then TrimEnd(s[..|s| - 1]) else s
  }

  /** What TrimStart removes is a whitespace prefix, and what it keeps is the rest. */
  lemma {:induction false} TrimStartIsSuffix(s: string)
    ensures var r := TrimStart(s); r == s[|s| - |r|..] && AllWhitespace(s[..|s| - |r|])
  {
    if s != [] && IsWhitespace(s[0]) {
      TrimStartIsSuffix(s[1..]);
      var r := TrimStart(s);
      var n := |s| - |r|;
      assert s[1..][n - 1..] == s[n..];
      forall i | 0 <= i < n ensures IsWhitespace(s[..n][i]) {
        if i > 0 { assert s[..n][i] == s[1..][..n - 1][i - 1]; }
      }
    }
  }

  /** What TrimEnd removes is a whitespace suffix, and what it keeps is the rest. */
  lemma {:induction false} TrimEndIsPrefix(s: string)
    ensures var r := TrimEnd(s); r == s[..|r|] && AllWhitespace(s[|r|..])
  {
    if s != [] && IsWhitespace(s[|s| - 1]) {
      var t := s[..|s| - 1];
      TrimEndIsPrefix(t);
      var r := TrimEnd(s);
      assert t[..|r|] == s[..|r|];
      assert forall i :: |r| <= i < |s| - 1 ==> s[i] == t[i];
    }
  }

  /** String.prototype.trim: whitespace removed from both ends. */
  function Trim(s: string): (r: string)
    ensures IsTrimmed(r)
    ensures |r| <= |s|
  {
    var t := TrimStart(s);
    TrimEndIsPrefix(t);
    TrimEnd(t)
  }

  /** The trimmed text is the part of `s` between a leading and a trailing whitespace run. */
  lemma TrimIsInfix(s: string)
    ensures var r := Trim(s); var i := |s| - |TrimStart(s)|;
      && i + |r| <= |s| && r == s[i..i + |r|]
      && AllWhitespace(s[..i]) && AllWhitespace(s[i + |r|..])
  {
    var t := TrimStart(s);
    var r := TrimEnd(t);
    var i := |s| - |t|;
    TrimStartIsSuffix(s);
    TrimEndIsPrefix(t);
    assert s[i..i + |r|] == t[..|r|];
    assert s[i + |r|..] == t[|r|..];
  }

  lemma {:induction false} TrimStartPadded(pad: string, x: string)
    requires AllWhitespace(pad)
    requires x == [] || !IsWhitespace(x[0])
    ensures TrimStart(pad + x) == x
  {
    if pad != [] {
      assert (pad + x)[1..] == pad[1..] + x;
      TrimStartPadded(pad[1..], x);
    }
  }

  lemma {:induction false} TrimEndPadded(x: string, pad: string)
    requires AllWhitespace(pad)
    requires x == [] || !IsWhitespace(x[|x| - 1])
    ensures TrimEnd(x + pad) == x
  {
    if pad == [] {
      assert x + pad == x;
    } else {
      var s := x + pad;
      assert s[..|s| - 1] == x + pad[..|pad| - 1];
      TrimEndPadded(x, pad[..|pad| - 1]);
    }
  }

  /** Trimming removes exactly the whitespace padding around a trimmed text. */
  lemma TrimPadded(front: string, x: string, back: string)
    requires AllWhitespace(front) && AllWhitespace(back) && IsTrimmed(x)
    ensures Trim(front + x + back) == x
  {
    if x == [] {
      assert front + x + back == front + back + [];
      TrimStartPadded(front + back, []);
    } else {
      assert front + x + back == front + (x + back);
      assert (x + back)[0] == x[0];
      TrimStartPadded(front, x + back);
      TrimEndPadded(x, back);
    }
  }

  lemma TrimIdempotent(s: string)
    ensures Trim(Trim(s)) == Trim(s)
  {
    var r := Trim(s);
    assert r == [] + r + [];
    TrimPadded([], r, []);
  }

  // ---------------------------------------------------------------- split

  /** Array.prototype.join with a one-character separator. */
  function Join(parts: seq<string>, sep: char): string {
    if |parts| == 0 then []
    else if |parts| == 1 then parts[0]
    else parts[0] + [sep] + Join(parts[1..], sep)
  }

  lemma JoinConsHead(c: char, parts: seq<string>, sep: char)
    requires |parts| >= 1
    ensures Join([[c] + parts[0]] + parts[1..], sep) == [c] + Join(parts, sep)
  {
    var q := [[c] + parts[0]] + parts[1..];
    assert q[1..] == parts[1..];
  }

  /**
   * String.prototype.split with a one-character separator: the pieces
   * between separators, in order; `""` splits into `[""]`.
   */
  function Split(s: string, sep: char): (r: seq<string>)
    ensures |r| >= 1
    ensures forall i :: 0 <= i < |r| ==> sep !in r[i]
  {
    if s == [] then [[]]
    else if s[0] == sep then [[]] + Split(s[1..], sep)
    else
      var rest := Split(s[1..], sep);
      [[s[0]] + rest[0]] + rest[1..]
  }

  /** Joining the pieces of a split gives back the text. */
  lemma {:induction false} JoinSplit(s: string, sep: char)
    ensures Join(Split(s, sep), sep) == s
  {
    if s != [] {
      var rest := Split(s[1..], sep);
      JoinSplit(s[1..], sep);
      assert [s[0]] + s[1..] == s;
      if s[0] == sep {
        assert ([[]] + rest)[1..] == rest;
      } else {
        JoinConsHead(s[0], rest, sep);
      }
    }
  }

  /** There is one piece more than there are separators. */
  lemma {:induction false} SplitCount(s: string, sep: char)
    ensures |Split(s, sep)| == multiset(s)[sep] + 1
  {
    if s != [] {
      SplitCount(s[1..], sep);
      assert [s[0]] + s[1..] == s;
      assert multiset(s) == multiset([s[0]]) + multiset(s[1..]);
    }
  }

  /** A piece without separators followed by a separator is split off as the first piece. */
  lemma {:induction false} SplitAfterPiece(a: string, sep: char, t: string)
    requires sep !in a
    ensures Split(a + [sep] + t, sep) == [a] + Split(t, sep)
  {
    if a == [] {
      assert ([sep] + t)[1..] == t;
    } else {
      var s := a + [sep] + t;
      assert s[1..] == a[1..] + [sep] + t;
      SplitAfterPiece(a[1..], sep, t);
      assert [a[0]] + a[1..] == a;
    }
  }

  /** A text without separators splits into itself alone. */
  lemma {:induction false} SplitPiece(a: string, sep: char)
    requires sep !in a
    ensures Split(a, sep) == [a]
  {
    if a != [] {
      SplitPiece(a[1..], sep);
      assert [a[0]] + a[1..] == a;
    }
  }

  /** The last piece is what follows the last separator. */
  lemma {:induction false} SplitLast(a: string, sep: char, b: string)
    requires sep !in b
    ensures var r := Split(a + [sep] + b, sep); r[|r| - 1] == b
  {
    var s := a + [sep] + b;
    var t := s[1..];
    if a == [] {
      assert t == b;
      SplitPiece(b, sep);
      assert Split(s, sep) == [[]] + [b];
    } else {
      assert t == a[1..] + [sep] + b;
      SplitLast(a[1..], sep, b);
      SplitLongerThanOne(t, sep, |a| - 1);
      SplitLastOfTail(s, sep);
    }
  }

  lemma SplitLongerThanOne(s: string, sep: char, k: nat)
    requires k < |s| && s[k] == sep
    ensures |Split(s, sep)| >= 2
  {
    assert sep in multiset(s);
    SplitCount(s, sep);
  }

  lemma SplitLastOfTail(s: string, sep: char)
    requires s != [] && |Split(s[1..], sep)| >= 2
    ensures var r := Split(s, sep); var q := Split(s[1..], sep); r[|r| - 1] == q[|q| - 1]
  {
    var q := Split(s[1..], sep);
    if s[0] == sep {
      assert Split(s, sep) == [[]] + q;
    } else {
      assert Split(s, sep) == [[s[0]] + q[0]] + q[1..];
    }
  }

  /** Splitting undoes joining pieces that hold no separator. */
  lemma {:induction false} SplitJoin(parts: seq<string>, sep: char)
    requires |parts| >= 1
    requires forall i :: 0 <= i < |parts| ==> sep !in parts[i]
    ensures Split(Join(parts, sep), sep) == parts
  {
    if |parts| == 1 {
      SplitPiece(parts[0], sep);
    } else {
      SplitJoin(parts[1..], sep);
      SplitAfterPiece(parts[0], sep, Join(parts[1..], sep));
      assert [parts[0]] + parts[1..] == parts;
    }
  }

  // ---------------------------------------------------------------- toLowerCase

  function ToLowerChar(c: char): char {
    if 'A' <= c <= 'Z' then (c as int + 32) as char else c
  }

  /** String.prototype.toLowerCase, on the ASCII letters. */
  function ToLower(s: string): (r: string)
    ensures |r| == |s|
    ensures forall i :: 0 <= i < |r| ==> !('A' <= r[i] <= 'Z')
    ensures forall i :: 0 <= i < |r| ==> (IsWhitespace(r[i]) <==> IsWhitespace(s[i]))
    ensures forall i :: 0 <= i < |r| ==> !('A' <= s[i] <= 'Z') ==> r[i] == s[i]
    ensures forall i :: 0 <= i < |r| ==> 'A' <= s[i] <= 'Z' ==> r[i] == (s[i] as int + 32) as char
  {
    seq(|s|, i requires 0 <= i < |s| => ToLowerChar(s[i]))
  }

  // ---------------------------------------------------------------- numbers

  predicate IsDecimalDigit(c: char) {
    '0' <= c <= '9'
  }

  function DigitChar(d: nat): (c: char)
    requires d < 10
    ensures IsDecimalDigit(c) && DigitWeight(c) == d
  {
    ('0' as int + d) as char
  }

  /** Number-to-string of a non-negative integer: its decimal digits, no leading zero. */
  function NatToDecimal(n: nat): (r: string)
    ensures |r| >= 1
    ensures forall i :: 0 <= i < |r| ==> IsDecimalDigit(r[i])
    ensures r[0] == '0' ==> n == 0 && |r| == 1
  {
    if n < 10 then [DigitChar(n)] else NatToDecimal(n / 10) + [DigitChar(n % 10)]
  }

  /** The weight of a digit in radix up to 36; 36 for a character that is no digit at all. */
  function DigitWeight(c: char): nat {
    if '0' <= c <= '9' then c as int - '0' as int
    else if 'a' <= c <= 'z' then c as int - 'a' as int + 10
    else if 'A' <= c <= 'Z' then c as int - 'A' as int + 10
    else 36
  }

  predicate IsRadixDigit(c: char, radix: nat) {
    DigitWeight(c) < radix
  }

  /** The longest prefix of `s` made of digits of `radix`. */
  function DigitPrefix(s: string, radix: nat): (r: string)
    ensures |r| <= |s| && r == s[..|r|]
    ensures forall i :: 0 <= i < |r| ==> IsRadixDigit(r[i], radix)
    ensures |r| < |s| ==> !IsRadixDigit(s[|r|], radix)
  {
    if s != [] && IsRadixDigit(s[0], radix) then [s[0]] + DigitPrefix(s[1..], radix) else []
  }

  /** The value of a digit string, most significant digit first. */
  function DigitsValue(ds: string, radix: nat): nat {
    if ds == [] then 0
    else DigitsValue(ds[..|ds| - 1], radix) * radix + DigitWeight(ds[|ds| - 1])
  }

  /** The longest run of `radix` digits at the start of `s`, as a number; `None` when there is none. */
  function ReadDigits(s: string, radix: nat): Option<nat> {
    var ds := DigitPrefix(s, radix);
    if ds == [] then None else Some(DigitsValue(ds, radix))
  }

  /** An unsigned number: a `0x`/`0X` prefix switches to radix 16, otherwise radix 10. */
  function ParseUnsigned(u: string): Option<nat> {
    if |u| >= 2 && u[0] == '0' && (u[1] == 'x' || u[1] == 'X') then ReadDigits(u[2..], 16)
    else ReadDigits(u, 10)
  }

  function Negate(v: Option<nat>): Option<int> {
    match v
    case None => None
    case Some(n) => Some(-(n as int))
  }

  /**
   * parseInt(s) with no radix: skip leading whitespace, read an optional
   * sign, then an unsigned number; `None` stands for NaN.
   */
  function ParseInt(s: string): (r: Option<int>)
    ensures TrimStart(s) == [] ==> r.None?
    ensures var t := TrimStart(s); |t| > 0 && t[0] != '-' && t[0] != '+' && !IsDecimalDigit(t[0]) ==> r.None?
    ensures var t := TrimStart(s); r.Some? && |t| > 0 && t[0] == '-' ==> r.value <= 0
    ensures var t := TrimStart(s); r.Some? && |t| > 0 && t[0] != '-' ==> r.value >= 0
  {
    var t := TrimStart(s);
    if |t| > 0 && t[0] == '-' then Negate(ParseUnsigned(t[1..]))
    else if |t| > 0 && t[0] == '+' then ParseUnsigned(t[1..])
    else ParseUnsigned(t)
  }

  lemma {:induction false} DecimalValue(n: nat)
    ensures DigitsValue(NatToDecimal(n), 10) == n
  {
    if n >= 10 {
      var r := NatToDecimal(n);
      assert r[..|r| - 1] == NatToDecimal(n / 10);
      DecimalValue(n / 10);
    }
  }

  lemma {:induction false} DigitPrefixAll(ds: string, t: string)
    requires forall i :: 0 <= i < |ds| ==> IsDecimalDigit(ds[i])
    requires t == [] || !IsDecimalDigit(t[0])
    ensures DigitPrefix(ds + t, 10) == ds
  {
    if ds != [] {
      assert (ds + t)[1..] == ds[1..] + t;
      DigitPrefixAll(ds[1..], t);
    }
  }

  lemma ParseUnsignedDecimal(n: nat, back: string)
    requires back == [] || !IsDecimalDigit(back[0])
    requires n == 0 ==> back == [] || (back[0] != 'x' && back[0] != 'X')
    ensures ParseUnsigned(NatToDecimal(n) + back) == Some(n)
  {
    var d := NatToDecimal(n);
    var x := d + back;
    assert x[0] == d[0];
    if |x| >= 2 && x[0] == '0' {
      assert x[1] == back[0];
    }
    DigitPrefixAll(d, back);
    DecimalValue(n);
  }

  /**
   * parseInt reads back the decimal text of a number, whatever whitespace
   * comes before it and whatever non-digit text follows it.
   */
  lemma ParseIntDecimal(front: string, n: nat, back: string)
    requires AllWhitespace(front)
    requires back == [] || !IsDecimalDigit(back[0])
    requires n == 0 ==> back == [] || (back[0] != 'x' && back[0] != 'X')
    ensures ParseInt(front + NatToDecimal(n) + back) == Some(n)
  {
    var d := NatToDecimal(n);
    var x := d + back;
    assert front + d + back == front + x;
    assert x[0] == d[0];
    TrimStartPadded(front, x);
    ParseUnsignedDecimal(n, back);
  }

  /** A leading minus sign negates what parseInt reads. */
  lemma ParseIntNegative(n: nat)
    ensures ParseInt("-" + NatToDecimal(n)) == Some(-(n as int))
  {
    var d := NatToDecimal(n);
    var s := "-" + d;
    assert s[1..] == d;
    assert d + [] == d;
    assert TrimStart(s) == s;
    ParseUnsignedDecimal(n, []);
  }

  /** Distinct numbers have distinct decimal texts. */
  lemma DecimalInjective(m: nat, n: nat)
    requires NatToDecimal(m) == NatToDecimal(n)
    ensures m == n
  {
    assert [] + NatToDecimal(m) + [] == NatToDecimal(m);
    ParseIntDecimal([], m, []);
    assert [] + NatToDecimal(n) + [] == NatToDecimal(n);
    ParseIntDecimal([], n, []);
  }

  // ---------------------------------------------------------------- encodeURIComponent

  /** The characters encodeURIComponent leaves as they are. */
  predicate IsUriUnreserved(c: char) {
    ('A' <= c <= 'Z') || ('a' <= c <= 'z') || ('0' <= c <= '9')
    || c == '-' || c == '_' || c == '.' || c == '!' || c == '~' || c == '*' || c == '\'' || c == '(' || c == ')'
  }

  /** The UTF-8 bytes of a Unicode scalar value. */
  function Utf8(cp: nat): (r: seq<nat>)
    requires cp <= 0x10FFFF
    ensures 1 <= |r| <= 4
    ensures forall i :: 0 <= i < |r| ==> r[i] < 256
    ensures |r| == 1 <==> cp < 0x80
  {
    if cp < 0x80 then [cp]
    else if cp < 0x800 then [0xC0 + cp / 0x40, 0x80 + cp % 0x40]
    else if cp < 0x10000 then [0xE0 + cp / 0x1000, 0x80 + (cp / 0x40) % 0x40, 0x80 + cp % 0x40]
    else [0xF0 + cp / 0x40000, 0x80 + (cp / 0x1000) % 0x40, 0x80 + (cp / 0x40) % 0x40, 0x80 + cp % 0x40]
  }

  lemma Utf8Two(cp: nat)
    requires 0x80 <= cp < 0x800
    ensures Utf8(cp) == [0xC0 + cp / 64, 0x80 + cp % 64]
  {
  }

  lemma Utf8Three(cp: nat)
    requires 0x800 <= cp < 0x10000
    ensures Utf8(cp) == [0xE0 + cp / 0x1000, 0x80 + (cp / 64) % 64, 0x80 + cp % 64]
  {
  }

  lemma Utf8Four(cp: nat)
    requires 0x10000 <= cp <= 0x10FFFF
    ensures Utf8(cp) == [0xF0 + cp / 0x40000, 0x80 + (cp / 0x1000) % 64, 0x80 + (cp / 64) % 64, 0x80 + cp % 64]
  {
  }

  function HexDigit(d: nat): (c: char)
    requires d < 16
    ensures IsUriUnreserved(c) && DigitWeight(c) == d
  {
    if d < 10 then ('0' as int + d) as char else ('A' as int + d - 10) as char
  }

  /** The three characters of one escape. */
  function Escape(b: nat): string
    requires b < 256
  {
    ['%', HexDigit(b / 16), HexDigit(b % 16)]
  }

  /** `%XX` escapes, upper-case hexadecimal, one per byte. */
  function PercentEncode(bytes: seq<nat>): (r: string)
    requires forall i :: 0 <= i < |bytes| ==> bytes[i] < 256
    ensures |r| == 3 * |bytes|
  {
    if bytes == [] then [] else Escape(bytes[0]) + PercentEncode(bytes[1..])
  }

  /** `%` sits exactly at every third position, and every character is URI-safe. */
  predicate IsEscapeRun(r: string) {
    forall i :: 0 <= i < |r| ==> (r[i] == '%' <==> i % 3 == 0) && (IsUriUnreserved(r[i]) || r[i] == '%')
  }

  lemma {:induction false} PercentEncodeShape(bytes: seq<nat>)
    requires forall i :: 0 <= i < |bytes| ==> bytes[i] < 256
    ensures IsEscapeRun(PercentEncode(bytes))
  {
    if bytes != [] {
      PercentEncodeShape(bytes[1..]);
      var head, rest := Escape(bytes[0]), PercentEncode(bytes[1..]);
      var r := head + rest;
      assert PercentEncode(bytes) == r;
      assert head[0] == '%' && IsUriUnreserved(head[1]) && IsUriUnreserved(head[2]);
      forall i | 0 <= i < |r|
        ensures (r[i] == '%' <==> i % 3 == 0) && (IsUriUnreserved(r[i]) || r[i] == '%')
      {
        if i >= 3 {
          assert r[i] == rest[i - 3];
          assert (i - 3) % 3 == i % 3;
        }
      }
    }
  }

  /**
   * encodeURIComponent: unreserved characters stay, every other character
   * becomes the `%XX` escapes of its UTF-8 bytes.
   */
  function EncodeUriComponent(s: string): (r: string)
    ensures |r| >= |s|
    ensures forall i :: 0 <= i < |r| ==> IsUriUnreserved(r[i]) || r[i] == '%'
  {
    if s == [] then []
    else
      var rest := EncodeUriComponent(s[1..]);
      if IsUriUnreserved(s[0]) then
        assert forall i :: 1 <= i < |[s[0]] + rest| ==> ([s[0]] + rest)[i] == rest[i - 1];
        [s[0]] + rest
      else
        var head := PercentEncode(Utf8(s[0] as int));
        PercentEncodeShape(Utf8(s[0] as int));
        assert forall i :: |head| <= i < |head + rest| ==> (head + rest)[i] == rest[i - |head|];
        head + rest
  }

  /** A text of unreserved characters only is not changed by encoding. */
  lemma {:induction false} EncodeUnreserved(s: string)
    requires forall i :: 0 <= i < |s| ==> IsUriUnreserved(s[i])
    ensures EncodeUriComponent(s) == s
  {
    if s != [] {
      EncodeUnreserved(s[1..]);
      assert [s[0]] + s[1..] == s;
    }
  }

  // ---------------------------------------------------------------- decodeURIComponent

  /** The byte of a `%XX` escape (either case of hex digit) at the front of `t`. */
  function EscapedByte(t: string): (b: Option<nat>)
    ensures b.Some? ==> b.value < 256
  {
    if |t| >= 3 && t[0] == '%' && IsRadixDigit(t[1], 16) && IsRadixDigit(t[2], 16)
    then Some(16 * DigitWeight(t[1]) + DigitWeight(t[2]))
    else None
  }

  /**
   * Reads `count` escaped continuation bytes (`10xxxxxx`), shifting their low
   * six bits into `acc`; yields the code point and the text after them.
   */
  function Continuations(t: string, count: nat, acc: nat): (r: Option<(nat, string)>)
    ensures r.Some? ==> |r.value.1| <= |t|
    decreases count
  {
    if count == 0 then Some((acc, t))
    else
      var b := EscapedByte(t);
      if b.Some? && 0x80 <= b.value < 0xC0 then Continuations(t[3..], count - 1, acc * 64 + (b.value - 0x80))
      else None
  }

  /** A scalar value in the range of its UTF-8 length: no overlong form, no surrogate. */
  predicate IsShortestScalar(cp: nat, min: nat) {
    min <= cp <= 0x10FFFF && !(0xD800 <= cp <= 0xDFFF)
  }

  /**
   * The character whose UTF-8 escapes start `t`, and the text after them:
   * the lead byte fixes the length and its payload bits, the continuation
   * bytes follow as escapes, and the result must be a valid, shortest form.
   */
  function EscapedChar(t: string): (r: Option<(char, string)>)
    ensures r.Some? ==> |r.value.1| < |t|
  {
    var lead := EscapedByte(t);
    if lead.None? then None
    else
      var (n, bits, min) := LeadByte(lead.value);
      if n == 0 then None
      else
        var tail := Continuations(t[3..], n - 1, bits);
        if tail.Some? && IsShortestScalar(tail.value.0, min) then Some((tail.value.0 as char, tail.value.1))
        else None
  }

  /**
   * A UTF-8 lead byte: the sequence length (0 for a byte that cannot lead),
   * its payload bits and the least code point of that length.
   */
  function LeadByte(b: nat): (nat, nat, nat) {
    if b < 0x80 then (1, b, 0)
    else if 0xC0 <= b < 0xE0 then (2, b - 0xC0, 0x80)
    else if 0xE0 <= b < 0xF0 then (3, b - 0xE0, 0x800)
    else if 0xF0 <= b < 0xF8 then (4, b - 0xF0, 0x10000)
    else (0, 0, 0)
  }

  /**
   * decodeURIComponent: characters other than `%` stay, each run of escapes
   * must spell a valid UTF-8 character; `None` stands for the URIError.
   */
  function DecodeUriComponent(t: string): (r: Option<string>)
    decreases |t|
  {
    if t == [] then Some([])
    else
      var first := if t[0] != '%' then Some(([t[0]], t[1..])) else
        var e := EscapedChar(t);
        if e.None? then None else Some(([e.value.0], e.value.1));
      if first.None? then None
      else
        var rest := DecodeUriComponent(first.value.1);
        if rest.None? then None else Some(first.value.0 + rest.value)
  }

  lemma EscapedByteOf(b: nat, rest: string)
    requires b < 256
    ensures EscapedByte(Escape(b) + rest) == Some(b)
  {
    var t := Escape(b) + rest;
    assert t[0] == '%' && t[1] == HexDigit(b / 16) && t[2] == HexDigit(b % 16);
  }

  lemma ContinuationOf(b: nat, rest: string, count: nat, acc: nat, next: nat)
    requires 0x80 <= b < 0xC0 && count >= 1
    requires next == acc * 64 + (b - 0x80)
    ensures Continuations(Escape(b) + rest, count, acc) == Continuations(rest, count - 1, next)
  {
    EscapedByteOf(b, rest);
    assert (Escape(b) + rest)[3..] == rest;
  }

  /** Splitting a code point into six-bit groups and putting them back. */
  lemma SixBitGroups(cp: nat)
    ensures (cp / 64) * 64 + cp % 64 == cp
    ensures (cp / 0x1000) * 64 + (cp / 64) % 64 == cp / 64
    ensures (cp / 0x40000) * 64 + (cp / 0x1000) % 64 == cp / 0x1000
  {
    var q := cp / 64;
    assert cp / 0x1000 == q / 64;
    assert cp / 0x40000 == q / 0x1000;
    assert (q / 0x1000) * 64 + (q / 64) % 64 == q / 64;
  }

  /** The escapes of one character's UTF-8 bytes decode back to it. */
  lemma EscapedCharOf(c: char, rest: string)
    ensures EscapedChar(PercentEncode(Utf8(c as int)) + rest) == Some((c, rest))
  {
    var cp := c as int;
    SixBitGroups(cp);
    if cp < 0x80 {
      EscapedCharOf1(c, rest);
    } else if cp < 0x800 {
      EscapedCharOf2(c, rest);
    } else if cp < 0x10000 {
      EscapedCharOf3(c, rest);
    } else {
      EscapedCharOf4(c, rest);
    }
  }

  lemma SeqAssoc<T>(x: seq<T>, y: seq<T>, z: seq<T>)
    ensures x + (y + z) == x + y + z
  {
  }

  lemma PercentEncodeCons(bytes: seq<nat>)
    requires bytes != [] && forall i :: 0 <= i < |bytes| ==> bytes[i] < 256
    ensures PercentEncode(bytes) == Escape(bytes[0]) + PercentEncode(bytes[1..])
  {
  }

  /** A lead escape, its continuations and a valid code point make one decoded character. */
  lemma EscapedCharFrom(t: string, lead: nat, cp: nat, rest: string)
    requires EscapedByte(t) == Some(lead) && LeadByte(lead).0 >= 1
    requires Continuations(t[3..], LeadByte(lead).0 - 1, LeadByte(lead).1) == Some((cp, rest))
    requires IsShortestScalar(cp, LeadByte(lead).2)
    ensures EscapedChar(t) == Some((cp as char, rest))
  {
  }

  lemma EscapedCharOf1(c: char, rest: string)
    requires c as int < 0x80
    ensures EscapedChar(PercentEncode(Utf8(c as int)) + rest) == Some((c, rest))
  {
    var cp := c as int;
    assert PercentEncode(Utf8(cp)) == Escape(cp);
    EscapedByteOf(cp, rest);
    assert (Escape(cp) + rest)[3..] == rest;
    EscapedCharFrom(Escape(cp) + rest, cp, cp, rest);
  }

  lemma EscapedCharOf2(c: char, rest: string)
    requires 0x80 <= c as int < 0x800
    ensures EscapedChar(PercentEncode(Utf8(c as int)) + rest) == Some((c, rest))
  {
    var cp := c as int;
    Utf8Two(cp);
    Utf8TwoBits(cp);
    EncodedTwo(c, rest, 0xC0 + cp / 64, 0x80 + cp % 64, cp / 64);
  }

  lemma EncodedTwo(c: char, rest: string, b0: nat, b1: nat, acc: nat)
    requires Utf8(c as int) == [b0, b1]
    requires LeadByte(b0) == (2, acc, 0x80) && 0x80 <= b1 < 0xC0
    requires c as int == acc * 64 + (b1 - 0x80) && 0x80 <= c as int
    ensures EscapedChar(PercentEncode(Utf8(c as int)) + rest) == Some((c, rest))
  {
    PercentEncodeTwo(b0, b1, rest);
    DecodeTwo(b0, b1, rest, acc, c as int);
  }

  lemma EscapedCharOf3(c: char, rest: string)
    requires 0x800 <= c as int < 0x10000
    ensures EscapedChar(PercentEncode(Utf8(c as int)) + rest) == Some((c, rest))
  {
    var cp := c as int;
    Utf8Three(cp);
    Utf8ThreeBits(cp);
    EncodedThree(c, rest, 0xE0 + cp / 0x1000, 0x80 + (cp / 64) % 64, 0x80 + cp % 64, cp / 0x1000, cp / 64);
  }

  lemma EncodedThree(c: char, rest: string, b0: nat, b1: nat, b2: nat, acc: nat, n1: nat)
    requires Utf8(c as int) == [b0, b1, b2]
    requires LeadByte(b0) == (3, acc, 0x800) && 0x80 <= b1 < 0xC0 && 0x80 <= b2 < 0xC0
    requires n1 == acc * 64 + (b1 - 0x80) && c as int == n1 * 64 + (b2 - 0x80) && 0x800 <= c as int
    ensures EscapedChar(PercentEncode(Utf8(c as int)) + rest) == Some((c, rest))
  {
    PercentEncodeThree(b0, b1, b2, rest);
    DecodeThree(b0, b1, b2, rest, acc, n1, c as int);
  }

  lemma EscapedCharOf4(c: char, rest: string)
    requires 0x10000 <= c as int
    ensures EscapedChar(PercentEncode(Utf8(c as int)) + rest) == Some((c, rest))
  {
    var cp := c as int;
    Utf8Four(cp);
    Utf8FourBits(cp);
    EncodedFour(c, rest, 0xF0 + cp / 0x40000, 0x80 + (cp / 0x1000) % 64, 0x80 + (cp / 64) % 64, 0x80 + cp % 64,
      cp / 0x40000, cp / 0x1000, cp / 64);
  }

  lemma EncodedFour(c: char, rest: string, b0: nat, b1: nat, b2: nat, b3: nat, acc: nat, n1: nat, n2: nat)
    requires Utf8(c as int) == [b0, b1, b2, b3]
    requires LeadByte(b0) == (4, acc, 0x10000) && 0x80 <= b1 < 0xC0 && 0x80 <= b2 < 0xC0 && 0x80 <= b3 < 0xC0
    requires n1 == acc * 64 + (b1 - 0x80) && n2 == n1 * 64 + (b2 - 0x80) && c as int == n2 * 64 + (b3 - 0x80)
    requires 0x10000 <= c as int
    ensures EscapedChar(PercentEncode(Utf8(c as int)) + rest) == Some((c, rest))
  {
    PercentEncodeFour(b0, b1, b2, b3, rest);
    DecodeFour(b0, b1, b2, b3, rest, acc, n1, n2, c as int);
  }

  /** The lead byte and continuation bytes of a two-byte form, and the code point they rebuild. */
  lemma Utf8TwoBits(cp: nat)
    requires 0x80 <= cp < 0x800
    ensures LeadByte(0xC0 + cp / 64) == (2, cp / 64, 0x80)
    ensures 0x80 <= 0x80 + cp % 64 < 0xC0
    ensures cp == (cp / 64) * 64 + cp % 64
  {
  }

  lemma Utf8ThreeBits(cp: nat)
    requires 0x800 <= cp < 0x10000
    ensures LeadByte(0xE0 + cp / 0x1000) == (3, cp / 0x1000, 0x800)
    ensures 0x80 <= 0x80 + (cp / 64) % 64 < 0xC0 && 0x80 <= 0x80 + cp % 64 < 0xC0
    ensures cp / 64 == (cp / 0x1000) * 64 + (cp / 64) % 64 && cp == (cp / 64) * 64 + cp % 64
  {
    SixBitGroups(cp);
  }

  lemma Utf8FourBits(cp: nat)
    requires 0x10000 <= cp <= 0x10FFFF
    ensures LeadByte(0xF0 + cp / 0x40000) == (4, cp / 0x40000, 0x10000)
    ensures 0x80 <= 0x80 + (cp / 0x1000) % 64 < 0xC0
    ensures 0x80 <= 0x80 + (cp / 64) % 64 < 0xC0 && 0x80 <= 0x80 + cp % 64 < 0xC0
    ensures cp / 0x1000 == (cp / 0x40000) * 64 + (cp / 0x1000) % 64
    ensures cp / 64 == (cp / 0x1000) * 64 + (cp / 64) % 64 && cp == (cp / 64) * 64 + cp % 64
  {
    SixBitGroups(cp);
  }

  lemma PercentEncodeTwo(b0: nat, b1: nat, rest: string)
    requires b0 < 256 && b1 < 256
    ensures PercentEncode([b0, b1]) + rest == Escape(b0) + (Escape(b1) + rest)
  {
    PercentEncodeCons([b0, b1]);
    assert [b0, b1][1..] == [b1];
    PercentEncodeCons([b1]);
    assert PercentEncode([b1]) == Escape(b1);
    SeqAssoc(Escape(b0), Escape(b1), rest);
  }

  lemma PercentEncodeThree(b0: nat, b1: nat, b2: nat, rest: string)
    requires b0 < 256 && b1 < 256 && b2 < 256
    ensures PercentEncode([b0, b1, b2]) + rest == Escape(b0) + (Escape(b1) + (Escape(b2) + rest))
  {
    PercentEncodeCons([b0, b1, b2]);
    assert [b0, b1, b2][1..] == [b1, b2];
    PercentEncodeTwo(b1, b2, rest);
    SeqAssoc(Escape(b0), PercentEncode([b1, b2]), rest);
  }

  lemma PercentEncodeFour(b0: nat, b1: nat, b2: nat, b3: nat, rest: string)
    requires b0 < 256 && b1 < 256 && b2 < 256 && b3 < 256
    ensures PercentEncode([b0, b1, b2, b3]) + rest == Escape(b0) + (Escape(b1) + (Escape(b2) + (Escape(b3) + rest)))
  {
    PercentEncodeCons([b0, b1, b2, b3]);
    assert [b0, b1, b2, b3][1..] == [b1, b2, b3];
    PercentEncodeThree(b1, b2, b3, rest);
    SeqAssoc(Escape(b0), PercentEncode([b1, b2, b3]), rest);
  }

  lemma DecodeTwo(b0: nat, b1: nat, rest: string, acc: nat, cp: nat)
    requires LeadByte(b0) == (2, acc, 0x80) && 0x80 <= b1 < 0xC0
    requires cp == acc * 64 + (b1 - 0x80) && IsShortestScalar(cp, 0x80)
    ensures EscapedChar(Escape(b0) + (Escape(b1) + rest)) == Some((cp as char, rest))
  {
    var t := Escape(b0) + (Escape(b1) + rest);
    EscapedByteOf(b0, Escape(b1) + rest);
    assert t[3..] == Escape(b1) + rest;
    ContinuationOf(b1, rest, 1, acc, cp);
    EscapedCharFrom(t, b0, cp, rest);
  }

  lemma DecodeThree(b0: nat, b1: nat, b2: nat, rest: string, acc: nat, n1: nat, cp: nat)
    requires LeadByte(b0) == (3, acc, 0x800) && 0x80 <= b1 < 0xC0 && 0x80 <= b2 < 0xC0
    requires n1 == acc * 64 + (b1 - 0x80) && cp == n1 * 64 + (b2 - 0x80) && IsShortestScalar(cp, 0x800)
    ensures EscapedChar(Escape(b0) + (Escape(b1) + (Escape(b2) + rest))) == Some((cp as char, rest))
  {
    var t1 := Escape(b1) + (Escape(b2) + rest);
    var t := Escape(b0) + t1;
    EscapedByteOf(b0, t1);
    assert t[3..] == t1;
    ContinuationOf(b2, rest, 1, n1, cp);
    ContinuationOf(b1, Escape(b2) + rest, 2, acc, n1);
    EscapedCharFrom(t, b0, cp, rest);
  }

  lemma DecodeFour(b0: nat, b1: nat, b2: nat, b3: nat, rest: string, acc: nat, n1: nat, n2: nat, cp: nat)
    requires LeadByte(b0) == (4, acc, 0x10000) && 0x80 <= b1 < 0xC0 && 0x80 <= b2 < 0xC0 && 0x80 <= b3 < 0xC0
    requires n1 == acc * 64 + (b1 - 0x80) && n2 == n1 * 64 + (b2 - 0x80) && cp == n2 * 64 + (b3 - 0x80)
    requires IsShortestScalar(cp, 0x10000)
    ensures EscapedChar(Escape(b0) + (Escape(b1) + (Escape(b2) + (Escape(b3) + rest)))) == Some((cp as char, rest))
  {
    var t1 := Escape(b1) + (Escape(b2) + (Escape(b3) + rest));
    var t := Escape(b0) + t1;
    EscapedByteOf(b0, t1);
    assert t[3..] == t1;
    ContinuationOf(b3, rest, 1, n2, cp);
    ContinuationOf(b2, Escape(b3) + rest, 2, n1, n2);
    ContinuationOf(b1, Escape(b2) + (Escape(b3) + rest), 3, acc, n1);
    EscapedCharFrom(t, b0, cp, rest);
  }

  /** Decoding undoes encoding: the keyword the upstream receives is the query as given. */
  lemma {:induction false} DecodeEncode(s: string)
    ensures DecodeUriComponent(EncodeUriComponent(s)) == Some(s)
  {
    if s != [] {
      var rest := EncodeUriComponent(s[1..]);
      DecodeEncode(s[1..]);
      if IsUriUnreserved(s[0]) {
        assert EncodeUriComponent(s) == [s[0]] + rest;
        assert ([s[0]] + rest)[1..] == rest;
      } else {
        var head := PercentEncode(Utf8(s[0] as int));
        assert EncodeUriComponent(s) == head + rest;
        EscapedCharOf(s[0], rest);
        assert (head + rest)[0] == '%';
      }
      assert [s[0]] + s[1..] == s;
    }
  }

  /** Different queries never produce the same keyword. */
  lemma EncodeInjective(s: string, t: string)
    requires EncodeUriComponent(s) == EncodeUriComponent(t)
    ensures s == t
  {
    DecodeEncode(s);
    DecodeEncode(t);
  }

  // ---------------------------------------------------------------- slice

  function Min(a: int, b: int): int {
    if a < b then a else b
  }

  /** Array.prototype.slice(start, end) for non-negative bounds, clamped to the length. */
  function Slice<T>(s: seq<T>, start: nat, end: nat): (r: seq<T>)
    ensures |r| == if Min(start, |s|) < Min(end, |s|) then Min(end, |s|) - Min(start, |s|) else 0
    ensures forall i :: 0 <= i < |r| ==> start + i < |s| && r[i] == s[start + i]
  {
    var lo := Min(start, |s|);
    var hi := Min(end, |s|);
    if lo < hi then s[lo..hi] else []
  }
}
