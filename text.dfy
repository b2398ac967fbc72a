/**
 * The JavaScript string built-ins the handlers rely on, on `seq<char>`:
 * `split`, `includes`, `startsWith`, `padStart`, `parseInt`, `trim`,
 * `toLowerCase`, `replace(/\D/g, '')` and Node's `path.extname`.
 */
module Text {
  import opened Wrappers

  // ---------------------------------------------------------------------
  // Characters
  // ---------------------------------------------------------------------

  /** `\d` in a JavaScript regular expression: the ASCII digits only. */
  predicate IsDigit(c: char) {
    '0' <= c <= '9'
  }

  predicate AllDigits(s: string) {
    forall i :: 0 <= i < |s| ==> IsDigit(s[i])
  }

  /**
   * The WhiteSpace and LineTerminator characters of ECMAScript, which
   * `trim` and `parseInt` skip.
   */
  predicate IsJsWhitespace(c: char) {
    c == '\t' || c == '\n' || c == '\U{000B}' || c == '\U{000C}' || c == '\r' || c == ' '
    || c == '\U{00A0}' || c == '\U{1680}' || ('\U{2000}' <= c <= '\U{200A}')
    || c == '\U{2028}' || c == '\U{2029}' || c == '\U{202F}' || c == '\U{205F}'
    || c == '\U{3000}' || c == '\U{FEFF}'
  }

  /** Value of `c` as a digit in bases up to 36, and 36 when it is no digit at all. */
  function RadixDigit(c: char): (d: nat)
    ensures d <= 36
    ensures d < 10 <==> IsDigit(c)
  {
    if '0' <= c <= '9' then c as nat - '0' as nat
    else if 'a' <= c <= 'z' then c as nat - 'a' as nat + 10
    else if 'A' <= c <= 'Z' then c as nat - 'A' as nat + 10
    else 36
  }

  function DigitChar(d: nat): (c: char)
    requires d < 10
    ensures IsDigit(c) && RadixDigit(c) == d
  {
    ('0' as nat + d) as char
  }

  // ---------------------------------------------------------------------
  // Prefixes, substrings, padding
  // ---------------------------------------------------------------------

  /** `s.startsWith(p)`. */
  predicate StartsWith(s: string, p: string) {
    |p| <= |s| && s[..|p|] == p
  }

  /** `s.includes(sub)`: `sub` occurs somewhere in `s`. */
  predicate Contains(s: string, sub: string)
    decreases |s|
  {
    StartsWith(s, sub) || (|s| > 0 && Contains(s[1..], sub))
  }

  lemma {:induction false} ContainsSuffix(a: string, b: string)
    ensures Contains(a + b, b)
  {
    if a == [] {
      assert a + b == b;
    } else {
      ContainsSuffix(a[1..], b);
      assert (a + b)[1..] == a[1..] + b;
    }
  }

  /** An occurrence in `b` is an occurrence in any `a + b`. */
  lemma {:induction false} ContainsMonotone(a: string, b: string, sub: string)
    requires Contains(b, sub)
    ensures Contains(a + b, sub)
  {
    if a == [] {
      assert a + b == b;
    } else {
      ContainsMonotone(a[1..], b, sub);
      assert (a + b)[1..] == a[1..] + b;
    }
  }

  /** No occurrence of `sub` in a string none of whose characters occurs in `sub`. */
  lemma {:induction false} NotContainsDisjoint(s: string, sub: string)
    requires |sub| > 0
    requires forall i :: 0 <= i < |s| ==> s[i] != sub[0]
    ensures !Contains(s, sub)
  {
    if |s| > 0 {
      assert |sub| <= |s| ==> s[..|sub|][0] != sub[0];
      NotContainsDisjoint(s[1..], sub);
    }
  }

  /** No occurrence of `sub` in a string lacking one of `sub`'s characters. */
  lemma {:induction false} NotContainsMissingChar(s: string, sub: string, i: nat)
    requires i < |sub| && sub[i] !in s
    ensures !Contains(s, sub)
  {
    if |sub| <= |s| {
      assert s[..|sub|][i] == s[i];
    }
    if |s| > 0 {
      assert forall j :: 0 <= j < |s| - 1 ==> s[1..][j] == s[j + 1];
      NotContainsMissingChar(s[1..], sub, i);
    }
  }

  function Repeat(c: char, n: nat): (r: string)
    ensures |r| == n && forall i :: 0 <= i < n ==> r[i] == c
  {
    seq(n, _ => c)
  }

  /** Concatenation regrouped, for proofs that build a sequence piece by piece. */
  lemma AppendAssoc<T>(a: seq<T>, b: seq<T>, c: seq<T>)
    ensures a + (b + c) == a + b + c
  {
  }

  /** `s.padStart(width, fill)` with a one-character fill: never truncates. */
  function PadStart(s: string, width: nat, fill: char): (r: string)
    ensures |r| == if |s| >= width then |s| else width
    ensures r[|r| - |s|..] == s
    ensures forall i :: 0 <= i < |r| - |s| ==> r[i] == fill
  {
    if |s| >= width then s else Repeat(fill, width - |s|) + s
  }

  // ---------------------------------------------------------------------
  // split(sep) with a one-character separator, and its inverse
  // ---------------------------------------------------------------------

  /** `s.split(sep)`: the maximal pieces between separators, at least one. */
  function Split(s: string, sep: char): (parts: seq<string>)
    ensures |parts| >= 1
    ensures forall i :: 0 <= i < |parts| ==> sep !in parts[i]
  {
    if s == [] then [[]]
    else
      var rest := Split(s[1..], sep);
      if s[0] == sep then [[]] + rest else [[s[0]] + rest[0]] + rest[1..]
  }

  /** `parts.join(sep)`. */
  function Join(parts: seq<string>, sep: char): string
    requires |parts| >= 1
  {
    if |parts| == 1 then parts[0] else parts[0] + [sep] + Join(parts[1..], sep)
  }

  /** `parts.join(sep)` with a separator of any length; `[].join(sep)` is empty. */
  function JoinWith(parts: seq<string>, sep: string): string
  {
    if |parts| == 0 then "" else if |parts| == 1 then parts[0] else parts[0] + sep + JoinWith(parts[1..], sep)
  }

  /** Splitting loses nothing: joining the pieces gives the input back. */
  lemma {:induction false} JoinSplit(s: string, sep: char)
    ensures Join(Split(s, sep), sep) == s
  {
    if s != [] {
      var rest := Split(s[1..], sep);
      JoinSplit(s[1..], sep);
      if s[0] == sep {
        assert Split(s, sep)[1..] == rest;
      } else if |rest| > 1 {
        var parts := Split(s, sep);
        assert parts[1..] == rest[1..];
        assert Join(rest, sep) == rest[0] + [sep] + Join(rest[1..], sep);
        assert s == [s[0]] + s[1..];
      }
    }
  }

  lemma {:induction false} SplitNoSeparator(s: string, sep: char)
    requires sep !in s
    ensures Split(s, sep) == [s]
  {
    if s != [] {
      SplitNoSeparator(s[1..], sep);
      assert [s[0]] + s[1..] == s;
    }
  }

  lemma {:induction false} SplitAtFirst(a: string, sep: char, b: string)
    requires sep !in a
    ensures Split(a + [sep] + b, sep) == [a] + Split(b, sep)
  {
    var s := a + [sep] + b;
    if a == [] {
      assert s[1..] == b;
    } else {
      assert s[1..] == a[1..] + [sep] + b;
      SplitAtFirst(a[1..], sep, b);
      assert [a[0]] + a[1..] == a;
    }
  }

  // ---------------------------------------------------------------------
  // Numbers as text
  // ---------------------------------------------------------------------

  /** Value of a string of digits in base `radix`, most significant first. */
  function RadixValue(s: string, radix: nat): nat
    requires forall i :: 0 <= i < |s| ==> RadixDigit(s[i]) < radix
  {
    if s == [] then 0 else RadixValue(s[..|s| - 1], radix) * radix + RadixDigit(s[|s| - 1])
  }

  /** `n.toString()` for a natural number: decimal, no leading zeros. */
  function Decimal(n: nat): (s: string)
    ensures |s| >= 1 && AllDigits(s)
  {
    if n < 10 then [DigitChar(n)] else Decimal(n / 10) + [DigitChar(n % 10)]
  }

  /** `Number.prototype.toString` of an integer. */
  function IntText(n: int): (s: string)
    ensures |s| >= 1
  {
    if n < 0 then ['-'] + Decimal(-n) else Decimal(n)
  }

  lemma {:induction false} DecimalValue(n: nat)
    ensures RadixValue(Decimal(n), 10) == n
  {
    if n >= 10 {
      var s := Decimal(n);
      assert s[..|s| - 1] == Decimal(n / 10);
      DecimalValue(n / 10);
    }
  }

  /** Leading zeros do not change the value of a digit string. */
  lemma {:induction false} LeadingZerosValue(k: nat, s: string)
    requires AllDigits(s)
    ensures AllDigits(Repeat('0', k) + s)
    ensures RadixValue(Repeat('0', k) + s, 10) == RadixValue(s, 10)
  {
    var t := Repeat('0', k) + s;
    if s == [] {
      ZerosValue(k);
      assert t == Repeat('0', k);
    } else {
      LeadingZerosValue(k, s[..|s| - 1]);
      assert t[..|t| - 1] == Repeat('0', k) + s[..|s| - 1];
    }
  }

  lemma {:induction false} ZerosValue(k: nat)
    ensures RadixValue(Repeat('0', k), 10) == 0
  {
    if k > 0 {
      assert Repeat('0', k)[..k - 1] == Repeat('0', k - 1);
      ZerosValue(k - 1);
    }
  }

  /** Decimal renderings of distinct numbers differ (a consequence of DecimalValue). */
  lemma DecimalInjective(m: nat, n: nat)
    requires Decimal(m) == Decimal(n)
    ensures m == n
  {
    DecimalValue(m);
    DecimalValue(n);
  }

  /** The longest prefix of `s` made of digits of base `radix`. */
  function DigitPrefix(s: string, radix: nat): (p: string)
    ensures |p| <= |s| && p == s[..|p|]
    ensures forall i :: 0 <= i < |p| ==> RadixDigit(p[i]) < radix
    ensures |p| < |s| ==> RadixDigit(s[|p|]) >= radix
  {
    if s == [] || RadixDigit(s[0]) >= radix then [] else [s[0]] + DigitPrefix(s[1..], radix)
  }

  function TrimStart(s: string): (r: string)
    ensures |r| <= |s| && r == s[|s| - |r|..]
    ensures r == [] || !IsJsWhitespace(r[0])
  {
    if s != [] && IsJsWhitespace(s[0]) then TrimStart(s[1..]) else s
  }

  /** `s.trim() === ''`. */
  predicate IsBlank(s: string) {
    forall i :: 0 <= i < |s| ==> IsJsWhitespace(s[i])
  }

  /**
   * `parseInt(s)` with no radix: leading white space is skipped, one sign is
   * accepted, a `0x`/`0X` prefix selects base 16, and the longest digit
   * prefix is read. `None` is NaN.
   */
  function ParseInt(s: string): (r: Option<int>)
  {
    ParseSignedMagnitude(TrimStart(s))
  }

  /** `parseInt` once white space is skipped: an optional sign, then the magnitude. */
  function ParseSignedMagnitude(t: string): Option<int>
  {
    if |t| > 0 && t[0] == '-' then
      match ParseMagnitude(t[1..])
      case None => None
      case Some(v) => Some(-(v as int))
    else if |t| > 0 && t[0] == '+' then
      match ParseMagnitude(t[1..])
      case None => None
      case Some(v) => Some(v as int)
    else
      match ParseMagnitude(t)
      case None => None
      case Some(v) => Some(v as int)
  }

  /** The unsigned part of `parseInt`: hexadecimal after `0x`, else decimal. */
  function ParseMagnitude(u: string): Option<nat>
  {
    if |u| >= 2 && u[0] == '0' && (u[1] == 'x' || u[1] == 'X') then
      var digits := DigitPrefix(u[2..], 16);
      if digits == [] then None else Some(RadixValue(digits, 16))
    else
      var digits := DigitPrefix(u, 10);
      if digits == [] then None else Some(RadixValue(digits, 10))
  }

  lemma MagnitudeOfDigits(s: string)
    requires |s| >= 1 && AllDigits(s)
    ensures ParseMagnitude(s) == Some(RadixValue(s, 10))
  {
    assert !(|s| >= 2 && (s[1] == 'x' || s[1] == 'X'));
    DigitPrefixOfDigits(s);
  }

  /** A non-empty digit string parses to its decimal value. */
  lemma ParseDigitString(s: string)
    requires |s| >= 1 && AllDigits(s)
    ensures ParseInt(s) == Some(RadixValue(s, 10) as int)
  {
    assert !IsJsWhitespace(s[0]);
    assert TrimStart(s) == s;
    MagnitudeOfDigits(s);
  }

  /** A zero-padded decimal rendering parses back to its number. */
  lemma ParsePadded(n: nat, width: nat)
    ensures ParseInt(PadStart(Decimal(n), width, '0')) == Some(n)
  {
    var d := Decimal(n);
    var s := PadStart(d, width, '0');
    var zeros := Repeat('0', |s| - |d|);
    assert s == zeros + d by {
      if |d| < width { assert s == Repeat('0', width - |d|) + d; }
    }
    LeadingZerosValue(|s| - |d|, d);
    DecimalValue(n);
    ParseDigitString(zeros + d);
  }

  lemma ParseDecimal(n: nat)
    ensures ParseInt(Decimal(n)) == Some(n)
  {
    ParsePadded(n, 0);
  }

  /** A leading minus sign negates whatever magnitude follows it. */
  lemma ParseSigned(u: string)
    requires ParseMagnitude(u).Some?
    ensures ParseInt(['-'] + u) == Some(-(ParseMagnitude(u).value as int))
  {
    var s := ['-'] + u;
    assert !IsJsWhitespace(s[0]);
    assert TrimStart(s) == s;
    assert s[1..] == u;
  }

  /** `parseInt(String(n))` gives `n` back, negative numbers included. */
  lemma ParseIntText(n: int)
    ensures ParseInt(IntText(n)) == Some(n)
  {
    if n < 0 {
      ParseNegativeText(n);
    } else {
      ParseDecimal(n);
    }
  }

  lemma ParseNegativeText(n: int)
    requires n < 0
    ensures ParseInt(['-'] + Decimal(-n)) == Some(n)
  {
    var d := Decimal(-n);
    DecimalValue(-n);
    assert RadixValue(d, 10) == -n;
    MagnitudeOfDigits(d);
    ParseSigned(d);
  }

  lemma {:induction false} DigitPrefixOfDigits(s: string)
    requires AllDigits(s)
    ensures DigitPrefix(s, 10) == s
  {
    if s != [] {
      DigitPrefixOfDigits(s[1..]);
    }
  }

  // ---------------------------------------------------------------------
  // Digit filtering, case, file extensions
  // ---------------------------------------------------------------------

  /** `s.replace(/\D/g, '')`: keeps exactly the ASCII digits, in order. */
  function DigitsOnly(s: string): (r: string)
    ensures AllDigits(r) && |r| <= |s|
    ensures forall c :: c in r <==> c in s && IsDigit(c)
  {
    if s == [] then []
    else if IsDigit(s[0]) then [s[0]] + DigitsOnly(s[1..])
    else DigitsOnly(s[1..])
  }

  /** Stripping non-digits from a digit string changes nothing, so it is idempotent. */
  lemma {:induction false} DigitsOnlyFixesDigits(s: string)
    requires AllDigits(s)
    ensures DigitsOnly(s) == s
  {
    if s != [] {
      DigitsOnlyFixesDigits(s[1..]);
    }
  }

  lemma DigitsOnlyIdempotent(s: string)
    ensures DigitsOnly(DigitsOnly(s)) == DigitsOnly(s)
  {
    DigitsOnlyFixesDigits(DigitsOnly(s));
  }

  /** ASCII case folding, as `toLowerCase` acts on the letters of file extensions. */
  function LowerAscii(s: string): (r: string)
    ensures |r| == |s|
    ensures forall i :: 0 <= i < |s| ==> !('A' <= r[i] <= 'Z')
  {
    seq(|s|, i requires 0 <= i < |s| =>
      if 'A' <= s[i] <= 'Z' then (s[i] as int - 'A' as int + 'a' as int) as char else s[i])
  }

  /** Index of the last occurrence of `c` in `s`, or -1. */
  function LastIndexOf(s: string, c: char): (i: int)
    ensures -1 <= i < |s|
    ensures i >= 0 ==> s[i] == c
    ensures forall j :: i < j < |s| ==> s[j] != c
  {
    if s == [] then -1
    else if s[|s| - 1] == c then |s| - 1
    else LastIndexOf(s[..|s| - 1], c)
  }

  function DropTrailing(s: string, c: char): (r: string)
    ensures |r| <= |s| && r == s[..|r|] && (r == [] || r[|r| - 1] != c)
  {
    if s != [] && s[|s| - 1] == c then DropTrailing(s[..|s| - 1], c) else s
  }

  /**
   * Node's `path.extname` (POSIX): trailing slashes are ignored; of the last
   * path segment, the part from its last `.` on, unless that dot is the
   * segment's first character or the segment is `..`.
   */
  function ExtName(path: string): (e: string)
    ensures e == [] || (e[0] == '.' && '.' !in e[1..] && '/' !in e)
  {
    var t := DropTrailing(path, '/');
    var base := t[LastIndexOf(t, '/') + 1..];
    var dot := LastIndexOf(base, '.');
    if dot <= 0 || base == ".." then []
    else
      var e := base[dot..];
      assert forall j :: 0 <= j < |e| ==> e[j] == base[dot + j];
      e
  }

  /**
   * A name that ends in an extension and has no other dot and no slash has
   * that extension; with no extension it has none.
   */
  lemma ExtNameOfSuffixed(stem: string, ext: string)
    requires |stem| > 0 && '.' !in stem && '/' !in stem
    requires ext == [] || (ext[0] == '.' && '.' !in ext[1..] && '/' !in ext)
    ensures ExtName(stem + ext) == ext
  {
    var s := stem + ext;
    assert forall j :: 0 <= j < |s| ==> s[j] != '/';
    assert DropTrailing(s, '/') == s;
    assert LastIndexOf(s, '/') == -1;
    assert s[0..] == s;
    if ext == [] {
      assert s == stem;
      assert LastIndexOf(s, '.') == -1;
    } else {
      assert forall j :: |stem| < j < |s| ==> s[j] == ext[j - |stem|] && s[j] != '.';
      assert s[|stem|] == '.';
      assert LastIndexOf(s, '.') == |stem|;
      assert s[|stem|..] == ext;
      assert s != "..";
    }
  }

  // ---------------------------------------------------------------------
  // Text order
  // ---------------------------------------------------------------------

  /** Lexicographic order by character code, as the database compares ISO dates and times. */
  predicate TextLe(a: string, b: string) {
    a == [] || (b != [] && (a[0] < b[0] || (a[0] == b[0] && TextLe(a[1..], b[1..]))))
  }

  lemma {:induction false} TextLeTotal(a: string, b: string)
    ensures TextLe(a, b) || TextLe(b, a)
  {
    if a != [] && b != [] && a[0] == b[0] {
      TextLeTotal(a[1..], b[1..]);
    }
  }

  lemma {:induction false} TextLeAntisymmetric(a: string, b: string)
    requires TextLe(a, b) && TextLe(b, a)
    ensures a == b
  {
    if a != [] && b != [] {
      TextLeAntisymmetric(a[1..], b[1..]);
      assert a == [a[0]] + a[1..];
      assert b == [b[0]] + b[1..];
    }
  }

  lemma {:induction false} TextLeTransitive(a: string, b: string, c: string)
    requires TextLe(a, b) && TextLe(b, c)
    ensures TextLe(a, c)
  {
    if a != [] && b != [] && c != [] && a[0] == b[0] && b[0] == c[0] {
      TextLeTransitive(a[1..], b[1..], c[1..]);
    }
  }
}
