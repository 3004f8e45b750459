/** String helpers shared by the browser and server models: decimal digits,
    zero padding, JavaScript `parseInt`, `split`/`join`, `trim`,
    lower-casing, substring search and Python's whitespace `split()`. */
module Text {

  datatype Option<T> = None | Some(value: T)

  predicate IsDigit(c: char) { '0' <= c <= '9' }

  predicate AllDigits(s: string) { forall i :: 0 <= i < |s| ==> IsDigit(s[i]) }

  /** The whitespace both JavaScript `trim` and Python `split()` skip: tab,
      line feed, vertical tab, form feed, carriage return, space, the
      no-break space and the Unicode space separators and line and paragraph
      separators. */
  predicate IsSpace(c: char) {
    c == ' ' || c == '\t' || c == '\n' || c == '\r' || c == '\U{0B}' || c == '\U{0C}' || c == '\U{A0}'
    || c == '\U{1680}' || ('\U{2000}' <= c <= '\U{200A}') || c == '\U{2028}' || c == '\U{2029}'
    || c == '\U{202F}' || c == '\U{205F}' || c == '\U{3000}'
  }

  function DigitChar(n: int): (c: char)
    requires 0 <= n < 10
    ensures IsDigit(c)
  {
    ['0', '1', '2', '3', '4', '5', '6', '7', '8', '9'][n]
  }

  function DigitValue(c: char): (n: int)
    requires IsDigit(c)
    ensures 0 <= n < 10
  {
    (c as int) - ('0' as int)
  }

  lemma DigitRoundTrip(n: int)
    requires 0 <= n < 10
    ensures DigitValue(DigitChar(n)) == n
  {
  }

  /** Decimal notation of a natural number, without leading zeros. */
  function NatToString(n: nat): (s: string)
    ensures |s| >= 1 && AllDigits(s)
    ensures n < 10 <==> |s| == 1
    ensures 10 <= n < 100 ==> |s| == 2
    decreases n
  {
    if n < 10 then [DigitChar(n)] else NatToString(n / 10) + [DigitChar(n % 10)]
  }

  /** Value of a string of decimal digits (the empty string reads as 0). */
  function ParseDigits(s: string): (n: nat)
    requires AllDigits(s)
    decreases |s|
  {
    if |s| == 0 then 0 else 10 * ParseDigits(s[..|s| - 1]) + DigitValue(s[|s| - 1])
  }

  lemma {:induction false} ParseNatToString(n: nat)
    ensures ParseDigits(NatToString(n)) == n
    decreases n
  {
    if n >= 10 {
      var s := NatToString(n);
      assert s[..|s| - 1] == NatToString(n / 10);
      ParseNatToString(n / 10);
      DigitRoundTrip(n % 10);
    } else {
      DigitRoundTrip(n);
    }
  }

  lemma NatToStringInjective(a: nat, b: nat)
    requires NatToString(a) == NatToString(b)
    ensures a == b
  {
    ParseNatToString(a);
    ParseNatToString(b);
  }

  /** JavaScript's template rendering of an integer: `-` then the digits when negative. */
  function IntToString(i: int): (s: string)
    ensures |s| >= 1
  {
    if i < 0 then "-" + NatToString(-i) else NatToString(i)
  }

  /** JavaScript `s.padStart(width, c)`. */
  function PadStart(s: string, width: nat, c: char): (r: string)
    ensures |r| == if |s| >= width then |s| else width
  {
    if |s| >= width then s else seq(width - |s|, _ => c) + s
  }

  /** The padded string ends with `s` and is `c` before it. */
  lemma PadStartParts(s: string, width: nat, c: char)
    ensures PadStart(s, width, c)[|PadStart(s, width, c)| - |s|..] == s
    ensures forall i :: 0 <= i < |PadStart(s, width, c)| - |s| ==> PadStart(s, width, c)[i] == c
  {
  }

  /** Padding digits with `'0'` gives digits. */
  lemma PadStartDigits(s: string, width: nat)
    requires AllDigits(s)
    ensures AllDigits(PadStart(s, width, '0'))
  {
    var r := PadStart(s, width, '0');
    PadStartParts(s, width, '0');
    forall i | 0 <= i < |r| ensures IsDigit(r[i]) {
      if i >= |r| - |s| {
        assert r[i] == r[|r| - |s|..][i - (|r| - |s|)];
      }
    }
  }

  /** `String(n).padStart(2, '0')`. */
  function Pad2(n: nat): (s: string)
    ensures n < 100 ==> |s| == 2 && AllDigits(s)
  {
    PadStartDigits(NatToString(n), 2);
    PadStart(NatToString(n), 2, '0')
  }

  lemma Pad2RoundTrip(n: nat)
    requires n < 100
    ensures ParseDigits(Pad2(n)) == n
  {
    if n < 10 {
      assert Pad2(n) == ['0', DigitChar(n)];
      assert Pad2(n)[..1] == ['0'];
      DigitRoundTrip(n);
    } else {
      ParseNatToString(n);
    }
  }

  /** Leading whitespace removed. */
  function TrimStart(s: string): (r: string)
    ensures |r| <= |s| && r == s[|s| - |r|..]
    ensures |r| > 0 ==> !IsSpace(r[0])
    decreases |s|
  {
    if |s| > 0 && IsSpace(s[0]) then TrimStart(s[1..]) else s
  }

  /** Trailing whitespace removed. */
  function TrimEnd(s: string): (r: string)
    ensures |r| <= |s| && r == s[..|r|]
    ensures |r| > 0 ==> !IsSpace(r[|r| - 1])
    decreases |s|
  {
    if |s| > 0 && IsSpace(s[|s| - 1]) then TrimEnd(s[..|s| - 1]) else s
  }

  /** JavaScript `s.trim()`. */
  function Trim(s: string): string { TrimEnd(TrimStart(s)) }

  lemma TrimUntrimmed(s: string)
    requires |s| > 0 ==> !IsSpace(s[0]) && !IsSpace(s[|s| - 1])
    ensures Trim(s) == s
  {
  }

  /** The longest prefix of decimal digits. */
  function TakeDigits(s: string): (r: string)
    ensures AllDigits(r) && |r| <= |s| && r == s[..|r|]
    ensures |r| < |s| ==> !IsDigit(s[|r|])
    decreases |s|
  {
    if |s| > 0 && IsDigit(s[0]) then [s[0]] + TakeDigits(s[1..]) else []
  }

  lemma TakeAllDigits(s: string)
    requires AllDigits(s)
    ensures TakeDigits(s) == s
  {
  }

  /** JavaScript `parseInt(s)` on decimal text: leading whitespace, an
      optional sign, then the longest run of digits; `None` is `NaN`. */
  function ParseIntJs(s: string): (r: Option<int>)
  {
    ParseSigned(TrimStart(s))
  }

  /** An optional sign, then the digits. */
  function ParseSigned(t: string): (r: Option<int>)
  {
    if |t| > 0 && t[0] == '-' then
      match ParseUnsigned(t[1..])
      case None => None
      case Some(v) => Some(-v)
    else if |t| > 0 && t[0] == '+' then ParseUnsigned(t[1..])
    else ParseUnsigned(t)
  }

  /** The value of the leading digits; `None` when there are none. */
  function ParseUnsigned(b: string): (r: Option<int>)
    ensures r.Some? ==> r.value >= 0
  {
    var digits := TakeDigits(b);
    if digits == [] then None else Some(ParseDigits(digits))
  }

  /** `parseInt` reads back what integer rendering wrote. */
  lemma ParseIntRoundTrip(i: int)
    ensures ParseIntJs(IntToString(i)) == Some(i)
  {
    var n: nat := if i < 0 then -i else i;
    var d := NatToString(n);
    ParseNatToString(n);
    ParseUnsignedDigits(d, n);
    if i < 0 {
      ParseIntNegated(d, n);
    } else {
      assert IsDigit(d[0]);
      ParseIntUnsigned(d, n);
    }
  }

  /** `parseInt` of a zero-padded two-digit field is its value. */
  lemma ParseIntPad2(n: nat)
    requires n < 100
    ensures ParseIntJs(Pad2(n)) == Some(n)
  {
    Pad2RoundTrip(n);
    ParseIntOfDigits(Pad2(n), n);
  }

  lemma TrimStartUnspaced(s: string)
    requires |s| > 0 && !IsSpace(s[0])
    ensures TrimStart(s) == s
  {
  }

  /** `parseInt` of plain decimal digits is their value. */
  lemma ParseIntOfDigits(s: string, n: nat)
    requires |s| > 0 && AllDigits(s) && ParseDigits(s) == n
    ensures ParseIntJs(s) == Some(n)
  {
    assert IsDigit(s[0]);
    ParseUnsignedDigits(s, n);
    ParseIntUnsigned(s, n);
  }

  lemma ParseUnsignedDigits(s: string, n: nat)
    requires |s| > 0 && AllDigits(s) && ParseDigits(s) == n
    ensures ParseUnsigned(s) == Some(n)
  {
    TakeAllDigits(s);
  }

  lemma ParseIntUnsigned(s: string, n: int)
    requires |s| > 0 && !IsSpace(s[0]) && s[0] != '-' && s[0] != '+'
    requires ParseUnsigned(s) == Some(n)
    ensures ParseIntJs(s) == Some(n)
  {
    TrimStartUnspaced(s);
  }

  lemma ParseIntNegated(d: string, n: int)
    requires ParseUnsigned(d) == Some(n)
    ensures ParseIntJs("-" + d) == Some(-n)
  {
    TrimStartUnspaced("-" + d);
    assert ("-" + d)[1..] == d;
  }

  lemma IntToStringInjective(a: int, b: int)
    requires IntToString(a) == IntToString(b)
    ensures a == b
  {
    ParseIntRoundTrip(a);
    ParseIntRoundTrip(b);
  }

  lemma ParseIntEmpty()
    ensures ParseIntJs("") == None
  {
  }

  /** JavaScript `s.split(sep)` for a one-character separator: always at
      least one part, and the parts hold no separator. */
  function Split(s: string, sep: char): (parts: seq<string>)
    ensures |parts| >= 1
    ensures forall k :: 0 <= k < |parts| ==> sep !in parts[k]
    decreases |s|
  {
    if |s| == 0 then [""]
    else
      var rest := Split(s[1..], sep);
      if s[0] == sep then [""] + rest else [[s[0]] + rest[0]] + rest[1..]
  }

  lemma {:induction false} SplitNoSeparator(s: string, sep: char)
    requires sep !in s
    ensures Split(s, sep) == [s]
    decreases |s|
  {
    if |s| > 0 {
      SplitNoSeparator(s[1..], sep);
      assert [s[0]] + s[1..] == s;
    }
  }

  /** Text with one separator splits into the pieces on either side of it. */
  lemma {:induction false} SplitAround(a: string, b: string, sep: char)
    requires sep !in a && sep !in b
    ensures Split(a + [sep] + b, sep) == [a, b]
    decreases |a|
  {
    if |a| == 0 {
      assert a + [sep] + b == [sep] + b;
      assert ([sep] + b)[1..] == b;
      SplitNoSeparator(b, sep);
    } else {
      assert (a + [sep] + b)[1..] == a[1..] + [sep] + b;
      SplitAround(a[1..], b, sep);
      assert [a[0]] + a[1..] == a;
    }
  }

  /** JavaScript `parts.join(sep)`. */
  function Join(parts: seq<string>, sep: string): string
    decreases |parts|
  {
    if |parts| == 0 then "" else if |parts| == 1 then parts[0]
    else parts[0] + sep + Join(parts[1..], sep)
  }

  /** Joining the parts of a split with the separator restores the string. */
  lemma {:induction false} JoinSplit(s: string, sep: char)
    ensures Join(Split(s, sep), [sep]) == s
    decreases |s|
  {
    if |s| > 0 {
      var rest := Split(s[1..], sep);
      JoinSplit(s[1..], sep);
      if s[0] == sep {
        assert Split(s, sep) == [""] + rest;
      } else if |rest| == 1 {
        assert Split(s, sep) == [[s[0]] + rest[0]];
      } else {
        assert Split(s, sep) == [[s[0]] + rest[0]] + rest[1..];
        assert ([[s[0]] + rest[0]] + rest[1..])[1..] == rest[1..];
        assert Join(rest, [sep]) == rest[0] + [sep] + Join(rest[1..], [sep]);
      }
    }
  }

  lemma JoinAppend(a: seq<string>, b: seq<string>, sep: string)
    requires |a| >= 1 && |b| >= 1
    ensures Join(a + b, sep) == Join(a, sep) + sep + Join(b, sep)
    decreases |a|
  {
    if |a| == 1 {
      assert (a + b)[1..] == b;
    } else {
      assert (a + b)[1..] == a[1..] + b;
      JoinAppend(a[1..], b, sep);
    }
  }

  /** The upper-case letters of Latin Extended-A whose lower case is the
      next code point (all of them but `İ` and `Ÿ`). */
  predicate ExtendedUpper(c: char) {
    var n := c as int;
    (0x100 <= n <= 0x12F && n % 2 == 0) || (0x132 <= n <= 0x137 && n % 2 == 0)
    || (0x139 <= n <= 0x148 && n % 2 == 1) || (0x14A <= n <= 0x177 && n % 2 == 0)
    || (0x179 <= n <= 0x17E && n % 2 == 1)
  }

  /** Upper-case letters of Basic Latin, Latin-1 and Latin Extended-A mapped
      to lower case; other characters unchanged. */
  function LowerChar(c: char): char {
    if 'A' <= c <= 'Z' || ('À' <= c <= 'Þ' && c != '×') then ((c as int) + 32) as char
    else if ExtendedUpper(c) then ((c as int) + 1) as char
    else if c == 'Ÿ' then 'ÿ'
    else c
  }

  /** JavaScript `s.toLowerCase()` restricted to `LowerChar`. */
  function ToLower(s: string): (r: string)
    ensures |r| == |s| && forall i :: 0 <= i < |s| ==> r[i] == LowerChar(s[i])
  {
    seq(|s|, i requires 0 <= i < |s| => LowerChar(s[i]))
  }

  predicate IsPrefix(t: string, s: string) { |t| <= |s| && s[..|t|] == t }

  /** JavaScript `s.includes(t)`. */
  predicate Contains(s: string, t: string)
    decreases |s|
  {
    IsPrefix(t, s) || (|s| > 0 && Contains(s[1..], t))
  }

  /** `t` occurs in `s` starting at index `i`. */
  predicate OccursAt(s: string, t: string, i: int) {
    0 <= i <= |s| - |t| && s[i..i + |t|] == t
  }

  lemma {:induction false} ContainsAt(s: string, t: string)
    ensures Contains(s, t) <==> exists i :: OccursAt(s, t, i)
    decreases |s|
  {
    if IsPrefix(t, s) {
      assert OccursAt(s, t, 0);
    } else if |s| > 0 {
      ContainsAt(s[1..], t);
      if Contains(s[1..], t) {
        var i :| OccursAt(s[1..], t, i);
        assert s[i + 1..i + 1 + |t|] == t;
        assert OccursAt(s, t, i + 1);
      }
      if exists i :: OccursAt(s, t, i) {
        var i :| OccursAt(s, t, i);
        assert i != 0;
        assert s[1..][i - 1..i - 1 + |t|] == t;
        assert OccursAt(s[1..], t, i - 1);
      }
    }
  }

  lemma ContainsEmpty(s: string)
    ensures Contains(s, "")
  {
  }

  /** Python `s.replace(c, '')` for one character. */
  function RemoveChar(s: string, c: char): (r: string)
    ensures c !in r && |r| <= |s|
    ensures c !in s ==> r == s
    decreases |s|
  {
    if |s| == 0 then "" else (if s[0] == c then "" else [s[0]]) + RemoveChar(s[1..], c)
  }

  /** The first word of `s` (which must not start with whitespace). */
  function TakeWord(s: string): (w: string)
    ensures |w| <= |s| && w == s[..|w|]
    ensures forall i :: 0 <= i < |w| ==> !IsSpace(w[i])
    ensures |w| < |s| ==> IsSpace(s[|w|])
    decreases |s|
  {
    if |s| > 0 && !IsSpace(s[0]) then [s[0]] + TakeWord(s[1..]) else []
  }

  predicate IsWord(w: string) {
    |w| > 0 && forall i :: 0 <= i < |w| ==> !IsSpace(w[i])
  }

  /** Python `s.split()`: the maximal runs of non-whitespace characters. */
  function Words(s: string): (ws: seq<string>)
    ensures forall k :: 0 <= k < |ws| ==> IsWord(ws[k])
    ensures forall k :: 0 <= k < |ws| ==> Contains(s, ws[k])
    decreases |s|
  {
    if |s| == 0 then []
    else if IsSpace(s[0]) then
      var rest := Words(s[1..]);
      WordsInTail(s, rest);
      rest
    else
      var w := TakeWord(s);
      var rest := Words(s[|w|..]);
      assert IsPrefix(w, s);
      WordsInSuffix(s, |w|, rest);
      [w] + rest
  }

  lemma WordsInTail(s: string, rest: seq<string>)
    requires |s| > 0 && forall k :: 0 <= k < |rest| ==> Contains(s[1..], rest[k])
    ensures forall k :: 0 <= k < |rest| ==> Contains(s, rest[k])
  {
  }

  lemma {:induction false} ContainsSuffix(s: string, n: nat, t: string)
    requires n <= |s| && Contains(s[n..], t)
    ensures Contains(s, t)
    decreases n
  {
    if n > 0 {
      assert s[1..][n - 1..] == s[n..];
      ContainsSuffix(s[1..], n - 1, t);
    }
  }

  lemma WordsInSuffix(s: string, n: nat, rest: seq<string>)
    requires n <= |s| && forall k :: 0 <= k < |rest| ==> Contains(s[n..], rest[k])
    ensures forall k :: 0 <= k < |rest| ==> Contains(s, rest[k])
  {
    forall k | 0 <= k < |rest| ensures Contains(s, rest[k]) {
      ContainsSuffix(s, n, rest[k]);
    }
  }

  predicate AllSpace(s: string) { forall i :: 0 <= i < |s| ==> IsSpace(s[i]) }

  lemma {:induction false} WordsOfSpace(s: string)
    ensures Words(s) == [] <==> AllSpace(s)
    decreases |s|
  {
    if |s| > 0 {
      if IsSpace(s[0]) {
        WordsOfSpace(s[1..]);
        if AllSpace(s[1..]) {
          assert AllSpace(s);
        } else {
          var i :| 0 <= i < |s[1..]| && !IsSpace(s[1..][i]);
          assert !IsSpace(s[i + 1]);
        }
      }
    }
  }
}
