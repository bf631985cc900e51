/**
 * The JavaScript string primitives the client's helpers are built from:
 * the `\s` character class and `String.prototype.trim`, `split` and `join`
 * on a single separator, `startsWith`/`includes`, `Number.prototype.toString`
 * for integers, `padStart(2, '0')` and `parseInt`.
 *
 * Strings are sequences of Unicode scalar values. JavaScript counts UTF-16
 * code units, in which a character outside the Basic Multilingual Plane
 * takes two: `length` is `Utf16Length` below, and the few operations that
 * count units say so.
 */
module JsText {

  datatype Option<+T> = None | Some(value: T)

  // ---------------------------------------------------------------------------
  // Character classes

  /** The WhiteSpace and LineTerminator code points of ECMAScript: what `\s`
      matches and what `trim` removes. */
  predicate IsSpace(c: char) {
    || c == ' ' || c == '\t' || c == '\n' || c == '\r' || c == '\U{B}' || c == '\U{C}'
    || c == '\U{A0}' || c == '\U{1680}' || ('\U{2000}' <= c <= '\U{200A}')
    || c == '\U{2028}' || c == '\U{2029}' || c == '\U{202F}' || c == '\U{205F}'
    || c == '\U{3000}' || c == '\U{FEFF}'
  }

  /** The characters a regular-expression `.` does not match. */
  predicate IsLineTerminator(c: char) {
    c == '\n' || c == '\r' || c == '\U{2028}' || c == '\U{2029}'
  }

  /** `\d` */
  predicate IsDigit(c: char) {
    '0' <= c <= '9'
  }

  /** `[0-9a-f]` under the `i` flag */
  predicate IsHexDigit(c: char) {
    IsDigit(c) || 'a' <= c <= 'f' || 'A' <= c <= 'F'
  }

  /** `\w` */
  predicate IsWordChar(c: char) {
    IsDigit(c) || 'a' <= c <= 'z' || 'A' <= c <= 'Z' || c == '_'
  }

  predicate AllDigits(s: string) {
    forall i :: 0 <= i < |s| ==> IsDigit(s[i])
  }

  predicate NoSpace(s: string) {
    forall i :: 0 <= i < |s| ==> !IsSpace(s[i])
  }

  /** A character outside the Basic Multilingual Plane: UTF-16 writes it as
      a surrogate pair. */
  predicate IsAstral(c: char) {
    c >= '\U{10000}'
  }

  /** The UTF-16 code units of one character. */
  function Utf16Units(c: char): nat {
    if IsAstral(c) then 2 else 1
  }

  /** `s.length`: the number of UTF-16 code units. */
  function Utf16Length(s: string): (n: nat)
    ensures |s| <= n <= 2 * |s|
  {
    if s == [] then 0 else Utf16Length(s[..|s| - 1]) + Utf16Units(s[|s| - 1])
  }

  /** The length of a concatenation is the sum of the lengths. */
  lemma {:induction false} Utf16LengthAppend(a: string, b: string)
    ensures Utf16Length(a + b) == Utf16Length(a) + Utf16Length(b)
    decreases |b|
  {
    if b == [] {
      assert a + b == a;
    } else {
      var c := a + b;
      assert c[..|c| - 1] == a + b[..|b| - 1];
      assert c[|c| - 1] == b[|b| - 1];
      Utf16LengthAppend(a, b[..|b| - 1]);
    }
  }

  /** Two characters take the units of each. */
  lemma Utf16LengthOfPair(c: char, d: char)
    ensures Utf16Length([c, d]) == Utf16Units(c) + Utf16Units(d)
  {
    assert [c, d][..1] == [c];
    assert [c][..0] == [];
  }

  /** Inside the Basic Multilingual Plane the length is the number of
      characters; each character beyond it adds one more unit. */
  lemma {:induction false} Utf16LengthOfBmp(s: string)
    ensures (forall i :: 0 <= i < |s| ==> !IsAstral(s[i])) <==> Utf16Length(s) == |s|
  {
    if s != [] {
      var init := s[..|s| - 1];
      Utf16LengthOfBmp(init);
      assert forall i :: 0 <= i < |init| ==> init[i] == s[i];
    }
  }

  // ---------------------------------------------------------------------------
  // Prefixes and substrings

  /** `s.substring(0, n)` on whole characters: the longest prefix of `s`
      that fits in `n` code units. */
  function Utf16Prefix(s: string, n: nat): (r: string)
    ensures |r| <= |s| && r == s[..|r|]
    ensures Utf16Length(r) <= n
    ensures |r| < |s| ==> Utf16Length(s[..|r| + 1]) > n
    ensures Utf16Length(s) <= n ==> r == s
    decreases |s|
  {
    if Utf16Length(s) <= n then s
    else
      var init := s[..|s| - 1];
      var r := Utf16Prefix(init, n);
      assert init[..|r|] == s[..|r|];
      assert |r| < |init| ==> init[..|r| + 1] == s[..|r| + 1];
      assert |r| == |init| ==> s[..|r| + 1] == s;
      r
  }

  predicate StartsWith(s: string, prefix: string) {
    |prefix| <= |s| && s[..|prefix|] == prefix
  }

  predicate EndsWith(s: string, suffix: string) {
    |suffix| <= |s| && s[|s| - |suffix|..] == suffix
  }

  predicate OccursAt(s: string, t: string, i: int) {
    0 <= i && i + |t| <= |s| && s[i..i + |t|] == t
  }

  /** `s.includes(t)` */
  predicate Contains(s: string, t: string) {
    exists i :: 0 <= i <= |s| && OccursAt(s, t, i)
  }

  /** A string that starts with `t` also includes it. */
  lemma StartsWithImpliesContains(s: string, t: string)
    requires StartsWith(s, t)
    ensures Contains(s, t)
  {
    assert OccursAt(s, t, 0);
  }

  // ---------------------------------------------------------------------------
  // trim

  function TrimStart(s: string): (r: string)
    ensures |r| <= |s| && r == s[|s| - |r|..]
    ensures r == [] || !IsSpace(r[0])
    ensures forall i :: 0 <= i < |s| - |r| ==> IsSpace(s[i])
  {
    if s == [] || !IsSpace(s[0]) then s else TrimStart(s[1..])
  }

  function TrimEnd(s: string): (r: string)
    ensures |r| <= |s| && r == s[..|r|]
    ensures r == [] || !IsSpace(r[|r| - 1])
    ensures forall i :: |r| <= i < |s| ==> IsSpace(s[i])
  {
    if s == [] || !IsSpace(s[|s| - 1]) then s else TrimEnd(s[..|s| - 1])
  }

  /** How many leading white-space characters `trim` drops. */
  function TrimOffset(s: string): (k: nat)
    ensures k <= |s|
  {
    |s| - |TrimStart(s)|
  }

  /** `s.trim()`: the infix of `s` left after dropping white space at both
      ends; everything dropped is white space. */
  function Trim(s: string): (r: string)
    ensures r == [] || (!IsSpace(r[0]) && !IsSpace(r[|r| - 1]))
    ensures TrimOffset(s) + |r| <= |s| && r == s[TrimOffset(s)..TrimOffset(s) + |r|]
    ensures forall i :: 0 <= i < TrimOffset(s) ==> IsSpace(s[i])
    ensures forall i :: TrimOffset(s) + |r| <= i < |s| ==> IsSpace(s[i])
  {
    var t := TrimStart(s);
    var r := TrimEnd(t);
    assert r == s[|s| - |t|..|s| - |t| + |r|];
    r
  }

  /** Concatenation regroups; the verifier only sees it element by
      element. */
  lemma ConcatAssoc<T>(a: seq<T>, b: seq<T>, c: seq<T>)
    ensures a + b + c == a + (b + c)
  {
  }

  /** Trimming removes only white space: the trimmed text is empty exactly
      when the whole string is white space. */
  lemma TrimEmptyIffAllSpace(s: string)
    ensures Trim(s) == [] <==> forall i :: 0 <= i < |s| ==> IsSpace(s[i])
  {
    var t := TrimStart(s);
    if t != [] {
      assert !IsSpace(s[|s| - |t|]);
    }
  }

  /** Trimming twice is trimming once. */
  lemma {:induction false} TrimIdempotent(s: string)
    ensures Trim(Trim(s)) == Trim(s)
  {
    var r := Trim(s);
    assert TrimStart(r) == r;
    assert TrimEnd(r) == r;
  }

  // ---------------------------------------------------------------------------
  // split / join on one separator character

  /** `s.split(sep)` for a one-character separator. */
  function Split(s: string, sep: char): (parts: seq<string>)
    ensures |parts| >= 1
    ensures forall k :: 0 <= k < |parts| ==> sep !in parts[k]
  {
    if s == [] then [[]]
    else
      var rest := Split(s[1..], sep);
      if s[0] == sep then [[]] + rest
      else [[s[0]] + rest[0]] + rest[1..]
  }

  /** `parts.join(sep)` */
  function Join(parts: seq<string>, sep: char): string {
    if parts == [] then []
    else if |parts| == 1 then parts[0]
    else parts[0] + [sep] + Join(parts[1..], sep)
  }

  /** Two pieces are joined by one separator. */
  lemma JoinPair(a: string, b: string, sep: char)
    ensures Join([a, b], sep) == a + [sep] + b
  {
    assert [a, b][1..] == [b];
  }

  /** Splitting and joining again with the same separator gives back the
      original string. */
  lemma {:induction false} JoinSplit(s: string, sep: char)
    ensures Join(Split(s, sep), sep) == s
  {
    if s != [] {
      var rest := Split(s[1..], sep);
      JoinSplit(s[1..], sep);
      if s[0] == sep {
        assert Split(s, sep) == [[]] + rest;
        assert Join([[]] + rest, sep) == [sep] + Join(rest, sep);
      } else {
        var parts := [[s[0]] + rest[0]] + rest[1..];
        if |rest| == 1 {
          assert Join(parts, sep) == [s[0]] + rest[0];
        } else {
          assert Join(parts, sep) == [s[0]] + rest[0] + [sep] + Join(rest[1..], sep);
          assert Join(rest, sep) == rest[0] + [sep] + Join(rest[1..], sep);
        }
      }
    }
  }

  /** A piece without the separator splits to itself. */
  lemma {:induction false} SplitNoSeparator(a: string, sep: char)
    requires sep !in a
    ensures Split(a, sep) == [a]
  {
    if a != [] {
      SplitNoSeparator(a[1..], sep);
      assert [a[0]] + a[1..] == a;
    }
  }

  /** Splitting `a + sep + b`, where `a` has no separator, gives `a` followed
      by the pieces of `b`. */
  lemma {:induction false} SplitAfterPiece(a: string, sep: char, b: string)
    requires sep !in a
    ensures Split(a + [sep] + b, sep) == [a] + Split(b, sep)
  {
    if a == [] {
      assert a + [sep] + b == [sep] + b;
      assert ([sep] + b)[1..] == b;
    } else {
      SplitAfterPiece(a[1..], sep, b);
      assert (a + [sep] + b)[1..] == a[1..] + [sep] + b;
      assert [a[0]] + a[1..] == a;
    }
  }

  /** Index of the first occurrence of `c`, or `|s|` when there is none. */
  function IndexOf(s: string, c: char): (i: nat)
    ensures i <= |s|
    ensures c !in s[..i]
    ensures i < |s| ==> s[i] == c
  {
    if s == [] then 0 else if s[0] == c then 0 else 1 + IndexOf(s[1..], c)
  }

  /** The first occurrence is where the character first shows up. */
  lemma IndexOfAt(s: string, c: char, k: nat)
    requires k <= |s| && c !in s[..k]
    requires k == |s| || s[k] == c
    ensures IndexOf(s, c) == k
  {
    var i := IndexOf(s, c);
    forall j | 0 <= j < k ensures s[j] != c {
      assert s[..k][j] == s[j];
    }
    forall j | 0 <= j < i ensures s[j] != c {
      assert s[..i][j] == s[j];
    }
  }

  /** The first piece of a split is the text before the first separator. */
  lemma {:induction false} SplitHead(s: string, sep: char)
    ensures Split(s, sep)[0] == s[..IndexOf(s, sep)]
  {
    if s != [] && s[0] != sep {
      SplitHead(s[1..], sep);
      assert s[..IndexOf(s, sep)] == [s[0]] + s[1..][..IndexOf(s[1..], sep)];
    }
  }

  /** Dropping the first piece and joining the rest gives the text after the
      first separator (nothing when there is no separator). */
  lemma {:induction false} JoinSplitTail(s: string, sep: char)
    ensures var i := IndexOf(s, sep);
            Join(Split(s, sep)[1..], sep) == if i < |s| then s[i + 1..] else []
  {
    if s != [] {
      var rest := Split(s[1..], sep);
      if s[0] == sep {
        JoinSplit(s[1..], sep);
        assert Split(s, sep)[1..] == rest;
      } else {
        JoinSplitTail(s[1..], sep);
        assert Split(s, sep)[1..] == rest[1..];
      }
    }
  }

  /** `s.indexOf(t)` for a non-empty `t`, with `|s|` standing for -1: the
      first position where `t` occurs. */
  function IndexOfText(s: string, t: string): (i: nat)
    requires t != []
    ensures i <= |s|
    ensures i < |s| ==> OccursAt(s, t, i)
    ensures forall j :: 0 <= j < i ==> !OccursAt(s, t, j)
    ensures i == |s| ==> !Contains(s, t)
  {
    if |s| < |t| then
      assert forall j :: 0 <= j <= |s| ==> !OccursAt(s, t, j);
      |s|
    else if s[..|t|] == t then 0
    else
      var k := IndexOfText(s[1..], t);
      OccursShift(s, t);
      1 + k
  }

  /** An occurrence after the first character is one in the rest. */
  lemma OccursShift(s: string, t: string)
    requires s != []
    ensures forall j :: 1 <= j <= |s| ==> (OccursAt(s, t, j) <==> OccursAt(s[1..], t, j - 1))
  {
    forall j | 1 <= j <= |s| ensures OccursAt(s, t, j) <==> OccursAt(s[1..], t, j - 1) {
      if j + |t| <= |s| {
        assert s[1..][j - 1..j - 1 + |t|] == s[j..j + |t|];
      }
    }
  }

  /** `s.split(sep).pop()`: the text after the last separator. */
  function LastSegment(s: string, sep: char): (r: string)
    ensures sep !in r
    ensures EndsWith(s, r)
    ensures |r| < |s| ==> s[|s| - |r| - 1] == sep
  {
    if s == [] then []
    else if s[|s| - 1] == sep then []
    else
      var r := LastSegment(s[..|s| - 1], sep);
      EndsWithLast(s, r);
      r + [s[|s| - 1]]
  }

  /** A suffix of all but the last character, extended by that character,
      is a suffix of the whole. */
  lemma EndsWithLast(s: string, r: string)
    requires s != [] && EndsWith(s[..|s| - 1], r)
    ensures EndsWith(s, r + [s[|s| - 1]])
    ensures |r| < |s| - 1 ==> s[|s| - |r| - 2] == s[..|s| - 1][|s| - 1 - |r| - 1]
  {
    assert s[|s| - |r| - 1..] == s[..|s| - 1][|s| - 1 - |r|..] + [s[|s| - 1]];
  }

  // ---------------------------------------------------------------------------
  // Integers as decimal text

  function DigitChar(d: nat): (c: char)
    requires d < 10
    ensures IsDigit(c)
  {
    (48 + d) as char
  }

  function DigitValue(c: char): (d: nat)
    requires IsDigit(c)
    ensures d < 10
  {
    (c as int - 48) as nat
  }

  /** `String(n)` for a non-negative integer: decimal, no leading zeros. */
  function NatToString(n: nat): (s: string)
    ensures |s| >= 1 && AllDigits(s)
    ensures |s| > 1 ==> s[0] != '0'
  {
    if n < 10 then [DigitChar(n)] else NatToString(n / 10) + [DigitChar(n % 10)]
  }

  /** `String(i)` for any integer. */
  function IntToString(i: int): (s: string)
    ensures |s| >= 1
  {
    if i < 0 then "-" + NatToString(-i) else NatToString(i)
  }

  /** The value of a run of decimal digits. */
  function DecimalValue(s: string): nat
    requires AllDigits(s)
  {
    if s == [] then 0 else DecimalValue(s[..|s| - 1]) * 10 + DigitValue(s[|s| - 1])
  }

  /** Reading the decimal text of `n` gives back `n`. */
  lemma {:induction false} DecimalValueOfNatToString(n: nat)
    ensures DecimalValue(NatToString(n)) == n
  {
    if n >= 10 {
      DecimalValueOfNatToString(n / 10);
      var s := NatToString(n);
      assert s[..|s| - 1] == NatToString(n / 10);
    }
  }

  /** Distinct numbers print differently. */
  lemma NatToStringInjective(m: nat, n: nat)
    requires NatToString(m) == NatToString(n)
    ensures m == n
  {
    DecimalValueOfNatToString(m);
    DecimalValueOfNatToString(n);
  }

  /** `s.padStart(2, '0')` */
  function PadStart2(s: string): (r: string)
    ensures |r| == if |s| >= 2 then |s| else 2
    ensures EndsWith(r, s)
    ensures forall i :: 0 <= i < |r| - |s| ==> r[i] == '0'
  {
    if |s| >= 2 then s else if |s| == 1 then "0" + s else "00"
  }

  /** Two-digit, zero-padded text of a number below 100. */
  lemma TwoDigits(n: nat)
    requires n < 100
    ensures var p := PadStart2(NatToString(n));
            |p| == 2 && AllDigits(p) && DecimalValue(p) == n
  {
    DecimalValueOfNatToString(n);
    if n >= 10 {
      assert NatToString(n) == NatToString(n / 10) + [DigitChar(n % 10)];
    } else {
      var p := PadStart2(NatToString(n));
      assert p == ['0', DigitChar(n)];
      assert p[..1] == ['0'];
    }
  }

  // ---------------------------------------------------------------------------
  // parseInt

  /** The longest prefix of `s` whose characters all satisfy `IsDigit`. */
  function DigitRun(s: string): (r: string)
    ensures AllDigits(r) && StartsWith(s, r)
    ensures |r| < |s| ==> !IsDigit(s[|r|])
  {
    if s == [] || !IsDigit(s[0]) then [] else [s[0]] + DigitRun(s[1..])
  }

  /** The digit run of digits followed by a non-digit is those digits. */
  lemma {:induction false} DigitRunOfDigitsThen(a: string, b: string)
    requires AllDigits(a)
    requires b == [] || !IsDigit(b[0])
    ensures DigitRun(a + b) == a
  {
    if a != [] {
      DigitRunOfDigitsThen(a[1..], b);
      assert (a + b)[1..] == a[1..] + b;
    }
  }

  function HexRun(s: string): (r: string)
    ensures StartsWith(s, r)
    ensures forall i :: 0 <= i < |r| ==> IsHexDigit(r[i])
  {
    if s == [] || !IsHexDigit(s[0]) then [] else [s[0]] + HexRun(s[1..])
  }

  function HexDigitValue(c: char): (d: nat)
    requires IsHexDigit(c)
    ensures d < 16
  {
    if IsDigit(c) then DigitValue(c)
    else if 'a' <= c <= 'f' then (c as int - 'a' as int + 10) as nat
    else (c as int - 'A' as int + 10) as nat
  }

  function HexValue(s: string): nat
    requires forall i :: 0 <= i < |s| ==> IsHexDigit(s[i])
  {
    if s == [] then 0 else HexValue(s[..|s| - 1]) * 16 + HexDigitValue(s[|s| - 1])
  }

  /** `parseInt(s)` (when `allowHex`, i.e. no radix given) or `parseInt(s, 10)`:
      leading white space, an optional sign, then the longest run of digits;
      `None` stands for NaN. Without a radix a `0x`/`0X` prefix selects
      base 16. */
  function ParseInt(s: string, allowHex: bool): (r: Option<int>)
  {
    var t := TrimStart(s);
    var negative := t != [] && t[0] == '-';
    var u := if t != [] && (t[0] == '-' || t[0] == '+') then t[1..] else t;
    match ParseUnsigned(u, allowHex)
    case None => None
    case Some(v) => var n: int := v; Some(if negative then -n else n)
  }

  /** The digits after the sign: hexadecimal after `0x` when allowed,
      otherwise decimal. */
  function ParseUnsigned(u: string, allowHex: bool): (r: Option<nat>)
    ensures r.None? ==> DigitRun(u) == [] || allowHex
  {
    if allowHex && (StartsWith(u, "0x") || StartsWith(u, "0X")) then
      var h := HexRun(u[2..]);
      if h == [] then None else Some(HexValue(h))
    else
      var d := DigitRun(u);
      if d == [] then None else Some(DecimalValue(d))
  }

  /** `parseInt(String(n))` is `n` for every non-negative integer. */
  lemma ParseIntOfNatToString(n: nat, allowHex: bool)
    ensures ParseInt(NatToString(n), allowHex) == Some(n)
  {
    var s := NatToString(n);
    DecimalValueOfNatToString(n);
    assert !StartsWith(s, "0x") && !StartsWith(s, "0X") by {
      assert |s| >= 2 ==> s[..2][0] == s[0] && s[..2][1] == s[1];
    }
    ParseIntOfDigits(s, n, allowHex);
  }

  /** A run of decimal digits without a hexadecimal prefix parses to its
      value. */
  lemma ParseIntOfDigits(s: string, v: nat, allowHex: bool)
    requires s != [] && AllDigits(s) && DecimalValue(s) == v
    requires !StartsWith(s, "0x") && !StartsWith(s, "0X")
    ensures ParseInt(s, allowHex) == Some(v)
  {
    assert TrimStart(s) == s;
    AllDigitsRun(s);
  }

  lemma {:induction false} AllDigitsRun(s: string)
    requires AllDigits(s)
    ensures DigitRun(s) == s
  {
    if s != [] {
      AllDigitsRun(s[1..]);
    }
  }

  /** A string that starts with a non-blank, non-sign, non-digit character
      parses to NaN: in particular everything that starts with a letter. */
  lemma ParseIntOfLetterFirst(s: string, allowHex: bool)
    requires s != [] && !IsSpace(s[0]) && !IsDigit(s[0]) && s[0] != '-' && s[0] != '+'
    ensures ParseInt(s, allowHex).None?
  {
    assert TrimStart(s) == s;
  }

  // ---------------------------------------------------------------------------
  // Number(s)

  predicate AllHexDigits(s: string) {
    forall i :: 0 <= i < |s| ==> IsHexDigit(s[i])
  }

  /** A `0x` or `0X` prefix. */
  predicate HexPrefixed(t: string) {
    |t| >= 2 && t[0] == '0' && (t[1] == 'x' || t[1] == 'X')
  }

  /** `Number(s)` for the integer forms: the trimmed text is empty (zero), a
      decimal run with an optional sign, or `0x` and hexadecimal digits
      without a sign; anything else is NaN (`None`). */
  function StringToNumber(s: string): (r: Option<int>)
    ensures Trim(s) == [] ==> r == Some(0)
    ensures r.Some? && Trim(s) != [] ==> IsHexDigit(Trim(s)[|Trim(s)| - 1])
  {
    TrimmedToNumber(Trim(s))
  }

  /** The same, once the white space is gone. */
  function TrimmedToNumber(t: string): (r: Option<int>)
    ensures t == [] ==> r == Some(0)
    ensures r.Some? && t != [] ==> IsHexDigit(t[|t| - 1])
  {
    if t == [] then Some(0)
    else if HexPrefixed(t) then
      if |t| > 2 && AllHexDigits(t[2..]) then
        assert t[|t| - 1] == t[2..][|t| - 3];
        Some(HexValue(t[2..]))
      else None
    else
      var u := if t[0] == '-' || t[0] == '+' then t[1..] else t;
      if u == [] || !AllDigits(u) then None
      else
        assert u[|u| - 1] == t[|t| - 1];
        var v: int := DecimalValue(u);
        Some(if t[0] == '-' then -v else v)
  }

  /** `Number(String(i))` is `i` for every integer. */
  lemma {:induction false} StringToNumberOfIntToString(i: int)
    ensures StringToNumber(IntToString(i)) == Some(i)
  {
    if i < 0 {
      var n: nat := -i;
      assert IntToString(i) == "-" + NatToString(n);
      NegativeStringToNumber(n);
    } else {
      assert IntToString(i) == NatToString(i);
      NatStringToNumber(i);
    }
  }

  lemma NatStringToNumber(n: nat)
    ensures StringToNumber(NatToString(n)) == Some(n)
  {
    var t := NatToString(n);
    TrimOfUnspaced(t);
    NatTextToNumber(n);
  }

  lemma NegativeStringToNumber(n: nat)
    ensures StringToNumber("-" + NatToString(n)) == Some(-(n as int))
  {
    var t := "-" + NatToString(n);
    assert t[|t| - 1] == NatToString(n)[|NatToString(n)| - 1];
    TrimOfUnspaced(t);
    NegativeTextToNumber(n);
  }

  /** Text with no white space at either end trims to itself. */
  lemma TrimOfUnspaced(t: string)
    requires t != [] && !IsSpace(t[0]) && !IsSpace(t[|t| - 1])
    ensures Trim(t) == t
  {
    assert TrimStart(t) == t;
  }

  lemma NatTextToNumber(n: nat)
    ensures TrimmedToNumber(NatToString(n)) == Some(n)
  {
    var t := NatToString(n);
    DecimalValueOfNatToString(n);
    assert !HexPrefixed(t) by {
      if |t| >= 2 {
        assert IsDigit(t[1]);
      }
    }
    assert t[0] != '-' && t[0] != '+' by {
      assert IsDigit(t[0]);
    }
  }

  lemma NegativeTextToNumber(n: nat)
    ensures TrimmedToNumber("-" + NatToString(n)) == Some(-(n as int))
  {
    var t := "-" + NatToString(n);
    DecimalValueOfNatToString(n);
    assert t[1..] == NatToString(n);
    assert !HexPrefixed(t);
  }

  /** Surrounding white space does not change the number. */
  lemma {:induction false} StringToNumberTrims(s: string)
    ensures StringToNumber(Trim(s)) == StringToNumber(s)
  {
    TrimIdempotent(s);
  }
}
