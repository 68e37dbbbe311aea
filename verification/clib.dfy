/** The two pieces of the C library the response reader depends on: the string a
    `const char *` designates, and `strtol` with base 16 as glibc implements it
    (the chunk-size line is decoded with it). */
module CLib {

  /** The characters a `const char *` pointing at `s` designates: those before the first NUL. */
  function CString(s: seq<char>): (c: seq<char>)
    ensures c <= s
    ensures '\0' !in c
    ensures |c| < |s| ==> s[|c|] == '\0'
  {
    if s == [] || s[0] == '\0' then [] else [s[0]] + CString(s[1..])
  }

  /** A string without NUL is its own C string, and whatever follows a NUL is invisible. */
  lemma {:induction false} CStringOfTerminated(line: seq<char>, rest: seq<char>)
    ensures CString(line) == CString(line + ['\0'] + rest)
    ensures '\0' !in line ==> CString(line) == line
  {
    if line != [] && line[0] != '\0' {
      assert (line + ['\0'] + rest)[1..] == line[1..] + ['\0'] + rest;
      CStringOfTerminated(line[1..], rest);
    }
  }

  /** isspace in the C locale. */
  predicate IsSpace(ch: char)
  {
    ch == ' ' || ch == '\t' || ch == '\n' || ch == '\U{000B}' || ch == '\U{000C}' || ch == '\r'
  }

  predicate IsHexDigit(ch: char)
  {
    ('0' <= ch <= '9') || ('a' <= ch <= 'f') || ('A' <= ch <= 'F')
  }

  predicate AllHex(ds: seq<char>)
  {
    forall k :: 0 <= k < |ds| ==> IsHexDigit(ds[k])
  }

  function DigitValue(ch: char): (d: nat)
    requires IsHexDigit(ch)
    ensures d < 16
  {
    if '0' <= ch <= '9' then ch as int - '0' as int
    else if 'a' <= ch <= 'f' then ch as int - 'a' as int + 10
    else ch as int - 'A' as int + 10
  }

  /** The first index at or after `i` that does not hold white space. */
  function SkipSpace(s: seq<char>, i: nat): (j: nat)
    requires i <= |s|
    ensures i <= j <= |s|
    ensures forall k :: i <= k < j ==> IsSpace(s[k])
    ensures j < |s| ==> !IsSpace(s[j])
    decreases |s| - i
  {
    if i < |s| && IsSpace(s[i]) then SkipSpace(s, i + 1) else i
  }

  /** The end of the run of hexadecimal digits that starts at `i`. */
  function HexRunEnd(s: seq<char>, i: nat): (j: nat)
    requires i <= |s|
    ensures i <= j <= |s|
    ensures AllHex(s[i..j])
    ensures j < |s| ==> !IsHexDigit(s[j])
    decreases |s| - i
  {
    if i < |s| && IsHexDigit(s[i]) then
      var j := HexRunEnd(s, i + 1);
      assert s[i..j] == [s[i]] + s[i + 1..j];
      j
    else i
  }

  /** The number the digits `ds` spell in base 16, most significant first. */
  function HexValue(ds: seq<char>): nat
    requires AllHex(ds)
  {
    if ds == [] then 0 else HexValue(ds[..|ds| - 1]) * 16 + DigitValue(ds[|ds| - 1])
  }

  const LONG_MAX: int := 0x7fff_ffff_ffff_ffff
  const LONG_MIN: int := -0x8000_0000_0000_0000

  /** size_t is 64 bits wide: converting a long to it reduces modulo 2^64. */
  const SIZE_MODULUS: int := 0x1_0000_0000_0000_0000

  /** What strtol returns, and where `*endptr` points (an index into its argument). */
  datatype Conversion = Conversion(value: int, end: nat)

  /** strtol(s, &endptr, 16) on the C string `s`: leading white space, an optional sign
      and an optional 0x or 0X (taken only when a hex digit follows it) are skipped, then
      the longest run of hex digits is converted; a value outside the range of long is
      clamped to LONG_MAX or LONG_MIN; with no digits the result is 0 and `endptr` is `s`. */
  function Strtol16(s: seq<char>): (r: Conversion)
    ensures LONG_MIN <= r.value <= LONG_MAX
    ensures r.end <= |s|
    ensures r.end == 0 ==> r.value == 0
  {
    var i := SkipSpace(s, 0);
    ConvertRun(s, DigitsStart(s), i < |s| && s[i] == '-')
  }

  /** Where the digits strtol converts start: after the white space, the sign and a 0x or
      0X followed by a hex digit. */
  function DigitsStart(s: seq<char>): (k: nat)
    ensures k <= |s|
  {
    var i := SkipSpace(s, 0);
    var j := if i < |s| && (s[i] == '+' || s[i] == '-') then i + 1 else i;
    if j + 2 < |s| && s[j] == '0' && (s[j + 1] == 'x' || s[j + 1] == 'X') && IsHexDigit(s[j + 2])
    then j + 2 else j
  }

  /** The conversion of the digit run at `k`, clamped to the range of long. */
  function ConvertRun(s: seq<char>, k: nat, negative: bool): (r: Conversion)
    requires k <= |s|
    ensures LONG_MIN <= r.value <= LONG_MAX
    ensures r.end <= |s|
    ensures r.end == 0 ==> r.value == 0
  {
    var e := HexRunEnd(s, k);
    if e == k then Conversion(0, 0)
    else
      var m := HexValue(s[k..e]);
      if negative then Conversion(if m > -LONG_MIN then LONG_MIN else -(m as int), e)
      else Conversion(if m > LONG_MAX then LONG_MAX else m, e)
  }

  function HexChar(d: nat): (ch: char)
    requires d < 16
    ensures IsHexDigit(ch) && DigitValue(ch) == d
  {
    if d < 10 then ('0' as int + d) as char else ('a' as int + d - 10) as char
  }

  /** The lower-case hexadecimal numeral of `n`, without leading zeros. */
  function HexString(n: nat): (s: seq<char>)
    ensures s != [] && AllHex(s)
    ensures HexValue(s) == n
    ensures s[0] == '0' ==> n == 0
  {
    if n < 16 then [HexChar(n)]
    else
      var hs := HexString(n / 16) + [HexChar(n % 16)];
      assert hs[..|hs| - 1] == HexString(n / 16);
      hs
  }

  /** strtol reads a numeral written by HexString back, and stops at the `;` that opens a
      chunk extension or at the end of the string. */
  lemma Strtol16OfHexString(n: nat, t: seq<char>)
    requires n <= LONG_MAX
    requires t == [] || t[0] == ';'
    ensures Strtol16(HexString(n) + t) == Conversion(n, |HexString(n)|)
  {
    var h := HexString(n);
    var s := h + t;
    assert s[0] == h[0];
    assert !(2 < |s| && s[0] == '0' && (s[1] == 'x' || s[1] == 'X')) by {
      if 2 < |s| && s[0] == '0' {
        assert |h| == 1;
        assert s[1] == ';';
      }
    }
    assert Strtol16(s) == ConvertRun(s, 0, false) by {
      DigitsStartOfDigit(s);
    }
    assert HexRunEnd(s, 0) == |h| by {
      HexRunOfNumeral(h, t);
    }
    assert s[0..|h|] == h;
  }

  /** strtol on a string that starts with a hexadecimal digit and no "0x" prefix converts
      the digit run from the start, as a non-negative number. */
  lemma DigitsStartOfDigit(s: seq<char>)
    requires s != [] && IsHexDigit(s[0])
    requires !(2 < |s| && s[0] == '0' && (s[1] == 'x' || s[1] == 'X') && IsHexDigit(s[2]))
    ensures DigitsStart(s) == 0
    ensures Strtol16(s) == ConvertRun(s, 0, false)
  {
    assert SkipSpace(s, 0) == 0;
  }

  /** The digit run of a numeral ends where the numeral does, when nothing or a
      character other than a hex digit (such as the `;` of an extension) follows it. */
  lemma HexRunOfNumeral(h: seq<char>, t: seq<char>)
    requires AllHex(h)
    requires t == [] || !IsHexDigit(t[0])
    ensures HexRunEnd(h + t, 0) == |h|
  {
    var s := h + t;
    forall x | 0 <= x < |h|
      ensures IsHexDigit(s[x])
    {
      assert s[x] == h[x];
    }
    if |h| < |s| {
      assert s[|h|] == t[0];
    }
    HexRunEndAt(s, 0, |h|);
  }

  /** strtol on any string that starts with a run of hex digits converts exactly that run,
      clamped to LONG_MAX, unless the run is the "0" of a 0x prefix followed by a hex digit.
      Lines such as "FF", "0a" or "2x" are read this way. */
  lemma Strtol16OfHexRun(h: seq<char>, t: seq<char>)
    requires h != [] && AllHex(h)
    requires t == [] || !IsHexDigit(t[0])
    requires !(h == "0" && 2 <= |t| && (t[0] == 'x' || t[0] == 'X') && IsHexDigit(t[1]))
    ensures Strtol16(h + t) == Conversion(if HexValue(h) > LONG_MAX then LONG_MAX else HexValue(h), |h|)
  {
    var s := h + t;
    NoHexPrefix(h, t);
    DigitsStartOfDigit(s);
    HexRunOfNumeral(h, t);
    assert s[0..|h|] == h;
  }

  /** A hex run followed by something other than "x" and a hex digit, or longer than "0",
      does not open with a 0x prefix strtol would skip. */
  lemma NoHexPrefix(h: seq<char>, t: seq<char>)
    requires h != [] && AllHex(h)
    requires t == [] || !IsHexDigit(t[0])
    requires !(h == "0" && 2 <= |t| && (t[0] == 'x' || t[0] == 'X') && IsHexDigit(t[1]))
    ensures var s := h + t;
            s != [] && IsHexDigit(s[0]) &&
            !(2 < |s| && s[0] == '0' && (s[1] == 'x' || s[1] == 'X') && IsHexDigit(s[2]))
  {
    var s := h + t;
    assert s[0] == h[0];
    if 2 < |s| && s[0] == '0' && (s[1] == 'x' || s[1] == 'X') {
      assert h == "0";
      assert s[1] == t[0] && s[2] == t[1];
    }
  }

  /** strtol reads "-1" as -1 and stops at the end of the string. */
  lemma Strtol16MinusOne()
    ensures Strtol16("-1") == Conversion(-1, 2)
  {
    var s := "-1";
    assert SkipSpace(s, 0) == 0;
    assert DigitsStart(s) == 1;
    HexRunEndAt(s, 1, 2);
    assert s[1..2] == "1";
    assert HexValue("1") == 1 by {
      assert "1"[..0] == [];
    }
    assert ConvertRun(s, 1, true) == Conversion(-1, 2);
  }

  /** strtol skips the line break in front of a digit: "\r\n5" reads as 5, ending at
      the end of the string. */
  lemma Strtol16AfterLineBreak()
    ensures Strtol16("\r\n5") == Conversion(5, 3)
  {
    var s := "\r\n5";
    assert SkipSpace(s, 0) == 2 by {
      assert SkipSpace(s, 2) == 2;
      assert SkipSpace(s, 1) == 2;
    }
    assert DigitsStart(s) == 2;
    HexRunEndAt(s, 2, 3);
    assert s[2..3] == "5";
    assert HexValue("5") == 5 by {
      assert "5"[..0] == [];
    }
  }

  /** A lone carriage return is white space too: "\r5" reads as 5. */
  lemma Strtol16AfterCarriageReturn()
    ensures Strtol16("\r5") == Conversion(5, 2)
  {
    var s := "\r5";
    assert SkipSpace(s, 0) == 1 by {
      assert SkipSpace(s, 1) == 1;
    }
    assert DigitsStart(s) == 1;
    HexRunEndAt(s, 1, 2);
    assert s[1..2] == "5";
    assert HexValue("5") == 5 by {
      assert "5"[..0] == [];
    }
  }

  lemma {:induction false} HexRunEndAt(s: seq<char>, i: nat, e: nat)
    requires i <= e <= |s|
    requires forall x :: i <= x < e ==> IsHexDigit(s[x])
    requires e == |s| || !IsHexDigit(s[e])
    ensures HexRunEnd(s, i) == e
    decreases e - i
  {
    if i < e {
      HexRunEndAt(s, i + 1, e);
    }
  }
}
