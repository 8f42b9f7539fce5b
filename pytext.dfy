/**
 * The small part of Python's string, byte and integer behaviour the hub
 * client relies on: clamped slicing, `str.split`, `str.strip`, `str.upper`,
 * `hex()`, `str()`, `int(text, base)`, `bytes.fromhex`, signed bytes and
 * masks, negative indexing.
 */
module PyText {
  import opened Wrappers

  type byte = b: int | 0 <= b < 256

  // ---------------------------------------------------------------- slicing

  /**
   * Python `s[i:j]` for non-negative bounds: both ends are clamped to the
   * length, and an empty range gives the empty sequence.
   */
  function Slice<T>(s: seq<T>, i: nat, j: nat): (r: seq<T>)
    ensures |r| == if i < j && i < |s| then (if j < |s| then j else |s|) - i else 0
    decreases j - i
  {
    if i < j && i < |s| then [s[i]] + Slice(s, i + 1, j) else []
  }

  /** Within bounds a Python slice is the subsequence. */
  lemma {:induction false} SliceInRange<T>(s: seq<T>, i: nat, j: nat)
    requires i <= j <= |s|
    ensures Slice(s, i, j) == s[i..j]
    decreases j - i
  {
    if i < j {
      SliceInRange(s, i + 1, j);
      assert s[i..j] == [s[i]] + s[i + 1..j];
    }
  }

  /** An end beyond the length reads like the length. */
  lemma {:induction false} SliceClamped<T>(s: seq<T>, i: nat, j: nat)
    requires |s| <= j
    ensures Slice(s, i, j) == Slice(s, i, |s|)
    decreases j - i
  {
    if i < |s| {
      SliceClamped(s, i + 1, j);
    }
  }

  /** Python `s[i:]`. */
  function Drop<T>(s: seq<T>, i: nat): (r: seq<T>)
    ensures |r| == if i < |s| then |s| - i else 0
  {
    Slice(s, i, |s|)
  }

  /** Within bounds `s[i:]` is the suffix. */
  lemma DropInRange<T>(s: seq<T>, i: nat)
    requires i <= |s|
    ensures Drop(s, i) == s[i..]
  {
    SliceInRange(s, i, |s|);
  }

  /** Python `s[i]`, where a negative index counts from the end. */
  function PyIndex<T>(s: seq<T>, i: int): (r: Result<T>)
    ensures r.Ok? <==> -|s| <= i < |s|
    ensures 0 <= i < |s| ==> r == Ok(s[i])
  {
    if 0 <= i < |s| then Ok(s[i])
    else if -|s| <= i < 0 then Ok(s[|s| + i])
    else Err(IndexError)
  }

  // -------------------------------------------------------- split and join

  /** Python `s.split(sep)` for a one-character separator. */
  function Split(s: string, sep: char): (r: seq<string>)
    ensures |r| >= 1
    ensures forall k :: 0 <= k < |r| ==> sep !in r[k]
  {
    if |s| == 0 then [""]
    else
      var rest := Split(s[1..], sep);
      if s[0] == sep then [""] + rest
      else [[s[0]] + rest[0]] + rest[1..]
  }

  /** Python `sep.join(parts)`. */
  function Join(parts: seq<string>, sep: char): string
  {
    if |parts| == 0 then ""
    else if |parts| == 1 then parts[0]
    else parts[0] + [sep] + Join(parts[1..], sep)
  }

  /** Splitting loses nothing: joining the pieces gives the text back. */
  lemma {:induction false} SplitJoin(s: string, sep: char)
    ensures Join(Split(s, sep), sep) == s
  {
    if |s| > 0 {
      var rest := Split(s[1..], sep);
      SplitJoin(s[1..], sep);
      if s[0] != sep && |rest| > 1 {
        assert Split(s, sep)[1..] == rest[1..];
      }
    }
  }

  /** A piece without the separator is split off whole. */
  lemma {:induction false} SplitNoSep(a: string, sep: char)
    requires sep !in a
    ensures Split(a, sep) == [a]
  {
    if |a| > 0 {
      assert sep !in a[1..];
      SplitNoSep(a[1..], sep);
      assert [a[0]] + a[1..] == a;
    }
  }

  /** A separator ends the first piece. */
  lemma {:induction false} SplitCons(a: string, sep: char, b: string)
    requires sep !in a
    ensures Split(a + [sep] + b, sep) == [a] + Split(b, sep)
  {
    if |a| > 0 {
      assert (a + [sep] + b)[1..] == a[1..] + [sep] + b;
      assert sep !in a[1..];
      SplitCons(a[1..], sep, b);
      assert [a[0]] + a[1..] == a;
    } else {
      assert a + [sep] + b == [sep] + b;
    }
  }

  /** Joining pieces free of the separator and splitting again gives the pieces back. */
  lemma {:induction false} JoinSplit(parts: seq<string>, sep: char)
    requires |parts| >= 1
    requires forall k :: 0 <= k < |parts| ==> sep !in parts[k]
    ensures Split(Join(parts, sep), sep) == parts
  {
    if |parts| == 1 {
      SplitNoSep(parts[0], sep);
    } else {
      JoinSplit(parts[1..], sep);
      SplitCons(parts[0], sep, Join(parts[1..], sep));
    }
  }

  // ------------------------------------------------------------- stripping

  /**
   * The characters Python's `str.isspace()` accepts, which `str.strip()`
   * and `int()` remove: the ASCII controls 9-13 and 28-31, the space, NEL,
   * the no-break space, and the Unicode spaces and separators.
   */
  predicate IsSpace(c: char)
  {
    || 9 <= c as int <= 13 || 28 <= c as int <= 32
    || c as int == 0x85 || c as int == 0xA0 || c as int == 0x1680
    || 0x2000 <= c as int <= 0x200A || c as int == 0x2028 || c as int == 0x2029
    || c as int == 0x202F || c as int == 0x205F || c as int == 0x3000
  }

  function TrimLeft(s: string): (r: string)
    ensures |r| <= |s| && r == s[|s| - |r|..]
    ensures r == [] || !IsSpace(r[0])
  {
    if |s| > 0 && IsSpace(s[0]) then TrimLeft(s[1..]) else s
  }

  function TrimRight(s: string): (r: string)
    ensures |r| <= |s| && r == s[..|r|]
    ensures r == [] || !IsSpace(r[|r| - 1])
  {
    if |s| > 0 && IsSpace(s[|s| - 1]) then TrimRight(s[..|s| - 1]) else s
  }

  /** Python `s.strip()`: the leading and trailing whitespace removed, so none is left at either end. */
  function Strip(s: string): (r: string)
    ensures |r| <= |s|
    ensures r == [] || (!IsSpace(r[0]) && !IsSpace(r[|r| - 1]))
  {
    TrimLeft(TrimRight(s))
  }

  /** Everything `TrimLeft` removes is whitespace. */
  lemma {:induction false} TrimLeftRemovesSpace(s: string)
    ensures forall k :: 0 <= k < |s| - |TrimLeft(s)| ==> IsSpace(s[k])
    decreases |s|
  {
    if |s| > 0 && IsSpace(s[0]) {
      TrimLeftRemovesSpace(s[1..]);
    }
  }

  /** Everything `TrimRight` removes is whitespace. */
  lemma {:induction false} TrimRightRemovesSpace(s: string)
    ensures forall k :: |TrimRight(s)| <= k < |s| ==> IsSpace(s[k])
    decreases |s|
  {
    if |s| > 0 && IsSpace(s[|s| - 1]) {
      TrimRightRemovesSpace(s[..|s| - 1]);
    }
  }

  /**
   * Python `s.strip()` removes only whitespace, from the two ends: the
   * result is a slice of the input, and everything before and after that
   * slice is whitespace. With `Strip`'s own contract (the slice neither
   * starts nor ends with whitespace) this fixes the result.
   */
  lemma StripInfix(s: string)
    ensures var r := Strip(s);
      exists i, j :: 0 <= i <= j <= |s| && r == s[i..j]
        && (forall k :: 0 <= k < i ==> IsSpace(s[k]))
        && (forall k :: j <= k < |s| ==> IsSpace(s[k]))
  {
    var t := TrimRight(s);
    var r := TrimLeft(t);
    TrimRightRemovesSpace(s);
    TrimLeftRemovesSpace(t);
    var j := |t|;
    var i := |t| - |r|;
    assert t == s[..j];
    assert r == s[i..j];
    assert forall k :: 0 <= k < i ==> IsSpace(s[k]) by {
      forall k | 0 <= k < i
        ensures IsSpace(s[k])
      {
        assert s[k] == t[k];
      }
    }
    assert Strip(s) == r;
    assert 0 <= i <= j <= |s| && r == s[i..j]
      && (forall k :: 0 <= k < i ==> IsSpace(s[k]))
      && (forall k :: j <= k < |s| ==> IsSpace(s[k]));
  }

  /** Text that neither starts nor ends with whitespace is its own strip. */
  lemma StripOfStripped(s: string)
    requires s == [] || (!IsSpace(s[0]) && !IsSpace(s[|s| - 1]))
    ensures Strip(s) == s
  {
  }

  /** Stripping twice is stripping once. */
  lemma StripIdempotent(s: string)
    ensures Strip(Strip(s)) == Strip(s)
  {
    StripOfStripped(Strip(s));
  }

  /** Trailing whitespace is stripped away. */
  lemma {:induction false} StripTrailingSpace(s: string, tail: string)
    requires s != [] && !IsSpace(s[0]) && !IsSpace(s[|s| - 1])
    requires forall k :: 0 <= k < |tail| ==> IsSpace(tail[k])
    ensures Strip(s + tail) == s
  {
    TrimRightSpace(s, tail);
  }

  lemma {:induction false} TrimRightSpace(s: string, tail: string)
    requires s != [] && !IsSpace(s[|s| - 1])
    requires forall k :: 0 <= k < |tail| ==> IsSpace(tail[k])
    ensures TrimRight(s + tail) == s
    decreases |tail|
  {
    if |tail| > 0 {
      var t' := tail[..|tail| - 1];
      assert (s + tail)[..|s + tail| - 1] == s + t';
      TrimRightSpace(s, t');
    } else {
      assert s + tail == s;
    }
  }

  // -------------------------------------------------------------- case

  function UpperChar(c: char): char
  {
    if 'a' <= c <= 'z' then (c as int - 32) as char else c
  }

  /** Python `s.upper()` on ASCII letters. */
  function Upper(s: string): (r: string)
    ensures |r| == |s|
    ensures forall k :: 0 <= k < |s| ==> r[k] == UpperChar(s[k])
  {
    seq(|s|, k requires 0 <= k < |s| => UpperChar(s[k]))
  }

  // ------------------------------------------------------------ numerals

  /** The upper-case hexadecimal digit of a value below 16. */
  function UpperHexChar(k: nat): char
    requires k < 16
  {
    if k < 10 then ('0' as int + k) as char else ('A' as int + k - 10) as char
  }

  /** The lower-case hexadecimal digit of a value below 16. */
  function LowerHexChar(k: nat): char
    requires k < 16
  {
    if k < 10 then ('0' as int + k) as char else ('a' as int + k - 10) as char
  }

  predicate IsUpperHexDigit(c: char)
  {
    '0' <= c <= '9' || 'A' <= c <= 'F'
  }

  lemma UpperDigit(k: nat)
    requires k < 16
    ensures IsUpperHexDigit(UpperHexChar(k))
  {
  }

  /** The value of a hexadecimal digit of either case. */
  function HexDigitValue(c: char): (r: Option<nat>)
    ensures r.Some? ==> r.value < 16
  {
    if '0' <= c <= '9' then Some(c as int - '0' as int)
    else if 'a' <= c <= 'f' then Some(c as int - 'a' as int + 10)
    else if 'A' <= c <= 'F' then Some(c as int - 'A' as int + 10)
    else None
  }

  lemma HexDigitValueUpper(k: nat)
    requires k < 16
    ensures HexDigitValue(UpperHexChar(k)) == Some(k)
  {
  }

  lemma HexDigitValueLower(k: nat)
    requires k < 16
    ensures HexDigitValue(LowerHexChar(k)) == Some(k)
  {
  }

  /** Python `'{:02X}'.format(b)`. */
  function HexByte(b: byte): (r: string)
    ensures |r| == 2
    ensures IsUpperHexDigit(r[0]) && IsUpperHexDigit(r[1])
  {
    UpperDigit(b / 16);
    UpperDigit(b % 16);
    [UpperHexChar(b / 16), UpperHexChar(b % 16)]
  }

  predicate IsLowerHexDigit(c: char)
  {
    '0' <= c <= '9' || 'a' <= c <= 'f'
  }

  /** The digits of Python `hex(n)` for `n >= 0`: lower case, no padding. */
  function HexLower(n: nat): (r: string)
    ensures |r| >= 1
    ensures forall k :: 0 <= k < |r| ==> IsLowerHexDigit(r[k])
    ensures (|r| == 1) <==> n < 16
    ensures (|r| == 2) <==> 16 <= n < 256
    decreases n
  {
    if n < 16 then [LowerHexChar(n)] else HexLower(n / 16) + [LowerHexChar(n % 16)]
  }

  /** Python `hex(n)[2:]`: for a negative n the slice keeps the `x` of `-0x`. */
  function HexTail(n: int): string
  {
    if n >= 0 then HexLower(n) else "x" + HexLower(-n)
  }

  function DigitChar(d: nat): char
    requires d < 10
  {
    ('0' as int + d) as char
  }

  lemma DigitCharValue(d: nat)
    requires d < 10
    ensures HexDigitValue(DigitChar(d)) == Some(d)
  {
  }

  /** Decimal digits of a natural number. */
  function DecimalDigits(n: nat): (r: string)
    ensures |r| >= 1
    ensures forall k :: 0 <= k < |r| ==> '0' <= r[k] <= '9'
    ensures (|r| == 1) <==> n < 10
    ensures (|r| == 2) <==> 10 <= n < 100
    decreases n
  {
    if n < 10 then [DigitChar(n)] else DecimalDigits(n / 10) + [DigitChar(n % 10)]
  }

  /** Three digits exactly for 100..999. */
  lemma DecimalDigitsThree(n: nat)
    requires 100 <= n < 1000
    ensures |DecimalDigits(n)| == 3
  {
    assert DecimalDigits(n) == DecimalDigits(n / 10) + [DigitChar(n % 10)];
  }

  /** Python `str(n)` on an integer. */
  function DecimalString(n: int): string
  {
    if n >= 0 then DecimalDigits(n) else "-" + DecimalDigits(-n)
  }

  /** Python `bytes.fromhex(s)` on text without whitespace: pairs of hex digits. */
  function FromHex(s: string): (r: Option<seq<byte>>)
    ensures r.Some? ==> 2 * |r.value| == |s|
    decreases |s|
  {
    if |s| == 0 then Some([])
    else if |s| == 1 then None
    else match (HexDigitValue(s[0]), HexDigitValue(s[1]), FromHex(s[2..]))
      case (Some(hi), Some(lo), Some(rest)) => Some([(hi * 16 + lo) as byte] + rest)
      case _ => None
  }

  /** An odd number of digits is always rejected. */
  lemma {:induction false} FromHexOdd(s: string)
    requires |s| % 2 == 1
    ensures FromHex(s) == None
    decreases |s|
  {
    if |s| > 1 {
      FromHexOdd(s[2..]);
    }
  }

  /** Decoding splits at any even offset. */
  lemma {:induction false} FromHexAppend(a: string, b: string)
    requires |a| % 2 == 0
    ensures FromHex(a + b) == if FromHex(a).Some? && FromHex(b).Some? then Some(FromHex(a).value + FromHex(b).value) else None
    decreases |a|
  {
    if |a| > 0 {
      var t := a + b;
      assert t[0] == a[0] && t[1] == a[1];
      assert t[2..] == a[2..] + b;
      FromHexAppend(a[2..], b);
      if HexDigitValue(a[0]).None? || HexDigitValue(a[1]).None? {
        assert FromHex(a) == None && FromHex(t) == None;
      } else {
        FromHexCons(a);
        FromHexCons(t);
        if FromHex(a).Some? && FromHex(b).Some? {
          var x := (HexDigitValue(a[0]).value * 16 + HexDigitValue(a[1]).value) as byte;
          var ra, rb := FromHex(a[2..]).value, FromHex(b).value;
          assert FromHex(t) == Some([x] + (ra + rb));
          assert [x] + (ra + rb) == ([x] + ra) + rb;
        }
      }
    } else {
      assert a + b == b;
      assert FromHex(a) == Some([]);
      assert FromHex(b).Some? ==> [] + FromHex(b).value == FromHex(b).value;
    }
  }

  /** The first pair of digits of a text, once both are known to be digits. */
  lemma FromHexCons(t: string)
    requires |t| >= 2 && HexDigitValue(t[0]).Some? && HexDigitValue(t[1]).Some?
    ensures FromHex(t) == if FromHex(t[2..]).Some?
      then Some([(HexDigitValue(t[0]).value * 16 + HexDigitValue(t[1]).value) as byte] + FromHex(t[2..]).value)
      else None
  {
  }

  /** Two upper-case digits of a byte decode back to that byte. */
  lemma FromHexByte(b: byte, s: string)
    ensures FromHex(HexByte(b) + s) == if FromHex(s).Some? then Some([b] + FromHex(s).value) else None
  {
    var t := HexByte(b) + s;
    var hi, lo := b / 16, b % 16;
    HexDigitValueUpper(hi);
    HexDigitValueUpper(lo);
    assert t[0] == UpperHexChar(hi) && t[1] == UpperHexChar(lo);
    assert t[2..] == s;
    FromHexCons(t);
    assert (HexDigitValue(t[0]).value * 16 + HexDigitValue(t[1]).value) as byte == b;
  }

  /** A value of digits in base 10 or 16, read most significant first. */
  function ParseDigits(s: string, base: nat): (r: Result<nat>)
    requires base == 10 || base == 16
    decreases |s|
  {
    if |s| == 0 then Err(ValueError)
    else
      var last := HexDigitValue(s[|s| - 1]);
      if last.None? || last.value >= base then Err(ValueError)
      else if |s| == 1 then Ok(last.value)
      else
        var high :- ParseDigits(s[..|s| - 1], base);
        Ok(high * base + last.value)
  }

  /**
   * Python `int(s, base)`: surrounding whitespace and one sign are allowed.
   * (Underscores between digits and a `0x` prefix are not modelled.)
   */
  function ParseInt(s: string, base: nat): (r: Result<int>)
    requires base == 10 || base == 16
  {
    var t := Strip(s);
    if |t| > 0 && (t[0] == '-' || t[0] == '+') then
      var mag :- ParseDigits(t[1..], base);
      var v: int := mag;
      Ok(if t[0] == '-' then -v else v)
    else
      var mag :- ParseDigits(t, base);
      Ok(mag)
  }

  lemma {:induction false} ParseHexLower(n: nat)
    ensures ParseDigits(HexLower(n), 16) == Ok(n)
    decreases n
  {
    var s := HexLower(n);
    if n < 16 {
      HexDigitValueLower(n);
    } else {
      var q, d := n / 16, n % 16;
      assert s == HexLower(q) + [LowerHexChar(d)];
      HexDigitValueLower(d);
      assert s[|s| - 1] == LowerHexChar(d);
      assert s[..|s| - 1] == HexLower(q);
      ParseHexLower(q);
      assert ParseDigits(s, 16) == Ok(q * 16 + d);
    }
  }

  lemma {:induction false} ParseDecimalDigits(n: nat)
    ensures ParseDigits(DecimalDigits(n), 10) == Ok(n)
    decreases n
  {
    var s := DecimalDigits(n);
    if n >= 10 {
      var q, d := n / 10, n % 10;
      assert s == DecimalDigits(q) + [DigitChar(d)];
      assert s[|s| - 1] == DigitChar(d);
      DigitCharValue(d);
      assert s[..|s| - 1] == DecimalDigits(q);
      ParseDecimalDigits(q);
      assert ParseDigits(s, 10) == Ok(q * 10 + d);
    }
  }

  /** `int(u, base)` once the stripped text is known to be unsigned digits. */
  lemma ParseIntUnsigned(u: string, t: string, base: nat, v: nat)
    requires base == 10 || base == 16
    requires Strip(u) == t && |t| > 0 && t[0] != '-' && t[0] != '+'
    requires ParseDigits(t, base) == Ok(v)
    ensures ParseInt(u, base) == Ok(v)
  {
  }

  /** `int(u, base)` once the stripped text is known to be a minus sign and digits. */
  lemma ParseIntNegative(u: string, t: string, base: nat, v: nat)
    requires base == 10 || base == 16
    requires Strip(u) == t && |t| > 0 && t[0] == '-'
    requires ParseDigits(t[1..], base) == Ok(v)
    ensures ParseInt(u, base) == Ok(-(v as int))
  {
  }

  /** `int(hex(n)[2:], 16)` gives n back, with trailing whitespace. */
  lemma ParseIntHex(n: nat, tail: string)
    requires forall k :: 0 <= k < |tail| ==> IsSpace(tail[k])
    ensures ParseInt(HexLower(n) + tail, 16) == Ok(n)
  {
    var s := HexLower(n);
    assert IsLowerHexDigit(s[0]) && IsLowerHexDigit(s[|s| - 1]);
    StripTrailingSpace(s, tail);
    ParseHexLower(n);
    ParseIntUnsigned(s + tail, s, 16, n);
  }

  lemma ParseIntDecimalNat(n: nat, tail: string)
    requires forall k :: 0 <= k < |tail| ==> IsSpace(tail[k])
    ensures ParseInt(DecimalDigits(n) + tail, 10) == Ok(n)
  {
    var d := DecimalDigits(n);
    assert '0' <= d[0] <= '9' && '0' <= d[|d| - 1] <= '9';
    StripTrailingSpace(d, tail);
    ParseDecimalDigits(n);
    ParseIntUnsigned(d + tail, d, 10, n);
  }

  lemma ParseIntDecimalMinus(n: nat, tail: string)
    requires forall k :: 0 <= k < |tail| ==> IsSpace(tail[k])
    ensures ParseInt("-" + DecimalDigits(n) + tail, 10) == Ok(-(n as int))
  {
    var d := DecimalDigits(n);
    var s := "-" + d;
    assert s[1..] == d && s[0] == '-';
    assert s[|s| - 1] == d[|d| - 1] && '0' <= d[|d| - 1] <= '9';
    StripTrailingSpace(s, tail);
    ParseDecimalDigits(n);
    ParseIntNegative(s + tail, s, 10, n);
  }

  /** `int(str(n))` gives n back, with trailing whitespace. */
  lemma ParseIntDecimal(n: int, tail: string)
    requires forall k :: 0 <= k < |tail| ==> IsSpace(tail[k])
    ensures ParseInt(DecimalString(n) + tail, 10) == Ok(n)
  {
    if n >= 0 {
      assert DecimalString(n) + tail == DecimalDigits(n) + tail;
      ParseIntDecimalNat(n, tail);
    } else {
      assert DecimalString(n) + tail == "-" + DecimalDigits(-n) + tail;
      ParseIntDecimalMinus(-n, tail);
    }
  }

  // ------------------------------------------------------ bytes and bits

  /** Python `int(x)` on a float: truncation toward zero, here of a / b. */
  function TruncDiv(a: int, b: int): (r: int)
    requires b > 0
    ensures a >= 0 ==> r == a / b
    ensures a < 0 ==> r == -((-a) / b)
  {
    if a >= 0 then a / b else -((-a) / b)
  }

  /** `struct.unpack('b', ...)`: a byte read as a signed two's-complement value. */
  function Signed(b: byte): (r: int)
    ensures -128 <= r < 128
    ensures r == b || r == b - 256
  {
    if b < 128 then b else b - 256
  }

  function Pow2(k: nat): (r: nat)
    ensures r >= 1
  {
    if k == 0 then 1 else 2 * Pow2(k - 1)
  }

  /** Python `a & b` on non-negative integers, bit by bit from the lowest. */
  function BitAnd(a: nat, b: nat): (r: nat)
    ensures r <= a
    decreases a
  {
    if a == 0 || b == 0 then 0
    else 2 * BitAnd(a / 2, b / 2) + (if a % 2 == 1 && b % 2 == 1 then 1 else 0)
  }

  lemma MulAtLeast(m: int, k: int)
    requires m > 0 && k >= 1
    ensures m * k >= m
  {
  }

  /** Quotient and remainder are determined by a == m * s + x with 0 <= x < m. */
  lemma DivModUnique(a: int, m: int, s: int, x: int)
    requires m > 0 && 0 <= x < m && a == m * s + x
    ensures a / m == s && a % m == x
  {
    var q, y := a / m, a % m;
    assert a == m * q + y;
    assert m * (s - q) == y - x;
    if s > q {
      MulAtLeast(m, s - q);
    } else if s < q {
      MulAtLeast(m, q - s);
    }
  }

  lemma HalfSteps(a: nat, p: nat)
    requires p >= 1
    ensures a % (2 * p) == 2 * ((a / 2) % p) + a % 2
    ensures a / (2 * p) == (a / 2) / p
  {
    var q := a / 2;
    var s, t := q / p, q % p;
    assert a == 2 * p * s + (2 * t + a % 2);
    DivModUnique(a, 2 * p, s, 2 * t + a % 2);
  }

  lemma BitAndOdd(a: nat, m: nat)
    ensures BitAnd(a, 2 * m + 1) == 2 * BitAnd(a / 2, m) + a % 2
  {
    DivModUnique(2 * m + 1, 2, m, 1);
  }

  /** Masking with k low one-bits keeps the value modulo 2^k. */
  lemma {:induction false} LowMask(a: nat, k: nat)
    ensures BitAnd(a, Pow2(k) - 1) == a % Pow2(k)
  {
    if k > 0 {
      var p := Pow2(k - 1);
      assert Pow2(k) - 1 == 2 * (p - 1) + 1;
      BitAndOdd(a, p - 1);
      LowMask(a / 2, k - 1);
      HalfSteps(a, p);
    }
  }

  lemma BitAndEven(a: nat, m: nat)
    requires m > 0
    ensures BitAnd(a, 2 * m) == 2 * BitAnd(a / 2, m)
  {
    DivModUnique(2 * m, 2, m, 0);
  }

  /** Masking with the single bit 2^k keeps that bit: 0 or 2^k. */
  lemma {:induction false} SingleBit(a: nat, k: nat)
    ensures (a / Pow2(k)) % 2 == 0 ==> BitAnd(a, Pow2(k)) == 0
    ensures (a / Pow2(k)) % 2 == 1 ==> BitAnd(a, Pow2(k)) == Pow2(k)
  {
    if a > 0 {
      if k == 0 {
        assert BitAnd(a, 1) == 2 * BitAnd(a / 2, 0) + a % 2;
      } else {
        var p := Pow2(k - 1);
        assert Pow2(k) == 2 * p;
        BitAndEven(a, p);
        SingleBit(a / 2, k - 1);
        HalfSteps(a, p);
      }
    }
  }

  lemma Pow2Small()
    ensures Pow2(2) == 4 && Pow2(3) == 8 && Pow2(7) == 128
  {
    assert Pow2(1) == 2;
    assert Pow2(4) == 16;
    assert Pow2(5) == 32;
    assert Pow2(6) == 64;
  }

  lemma LowMasks(b: byte)
    ensures BitAnd(b, 0x03) == b % 4
    ensures BitAnd(b, 0x07) == b % 8
    ensures BitAnd(b, 0x7F) == b % 128
  {
    Pow2Small();
    LowMask(b, 2);
    LowMask(b, 3);
    LowMask(b, 7);
  }

  lemma BitMasks(b: byte)
    ensures BitAnd(b, 0x08) == ((b / 8) % 2) * 8
    ensures BitAnd(b, 0x80) == (b / 128) * 128
  {
    Pow2Small();
    SingleBit(b, 3);
    SingleBit(b, 7);
  }

  /** The masks the live-status decoder applies to a byte. */
  lemma ByteMasks(b: byte)
    ensures BitAnd(b, 0x03) == b % 4
    ensures BitAnd(b, 0x07) == b % 8
    ensures BitAnd(b, 0x7F) == b % 128
    ensures BitAnd(b, 0x08) == ((b / 8) % 2) * 8
    ensures BitAnd(b, 0x80) == (b / 128) * 128
  {
    LowMasks(b);
    BitMasks(b);
  }
}
