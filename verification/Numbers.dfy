/**
 Number printing: `itoa` writes the digits lowest first and reverses them in place;
 the printed text is proved to parse back to the number.
 */
module Numbers {
  const MAX_WORD := 0x1_0000_0000

  function DigitOf(d: nat): (c: char)
    requires d < 36
    ensures c != '\0'
  {
    if d < 10 then '0' + d as char else 'A' + (d - 10) as char
  }

  lemma DigitsAreSpelled(d: nat)
    requires d < 36
    ensures DigitOf(d) == "0123456789ABCDEFGHIJKLMNOPQRSTUVWXYZ"[d]
  {
  }

  function ValueOf(c: char): (d: nat) {
    if '0' <= c <= '9' then (c - '0') as int
    else if 'A' <= c <= 'Z' then (c - 'A') as int + 10
    else 0
  }

  lemma DigitRoundTrip(d: nat)
    requires d < 36
    ensures ValueOf(DigitOf(d)) == d
  {
  }

  /** Reading a text as a number, most significant digit first. */
  function Parse(s: string, radix: nat): nat {
    if s == "" then 0 else Parse(s[..|s| - 1], radix) * radix + ValueOf(s[|s| - 1])
  }

  /** The digits of a number, most significant first. */
  function Digits(value: nat, radix: nat): (s: string)
    requires 2 <= radix <= 36
    ensures value > 0 ==> s != ""
    decreases value
  {
    if value == 0 then "" else Digits(value / radix, radix) + [DigitOf(value % radix)]
  }

  function Text(value: nat, radix: nat): string
    requires 2 <= radix <= 36
  {
    if value == 0 then "0" else Digits(value, radix)
  }

  lemma {:induction false} DigitsParseBack(value: nat, radix: nat)
    requires 2 <= radix <= 36
    ensures Parse(Digits(value, radix), radix) == value
    ensures value > 0 ==> Digits(value, radix)[0] != '0'
    ensures NoNul(Digits(value, radix))
    decreases value
  {
    if value > 0 {
      var rest, last := value / radix, value % radix;
      Split(value, radix);
      DigitsParseBack(rest, radix);
      DigitRoundTrip(last);
      ParseSnoc(Digits(rest, radix), DigitOf(last), radix);
    }
  }

  lemma Split(value: nat, radix: nat)
    requires radix >= 2
    ensures value == value / radix * radix + value % radix && value % radix < radix
    ensures value > 0 ==> 0 <= value / radix < value
  {
  }

  lemma ParseSnoc(s: string, c: char, radix: nat)
    ensures Parse(s + [c], radix) == Parse(s, radix) * radix + ValueOf(c)
  {
    assert (s + [c])[..|s|] == s;
  }

  /** Printing and reading back gives the number; no leading zero except for 0. */
  lemma TextRoundTrip(value: nat, radix: nat)
    requires 2 <= radix <= 36
    ensures Parse(Text(value, radix), radix) == value
    ensures Text(value, radix)[0] == '0' <==> value == 0
    ensures NoNul(Text(value, radix))
  {
    DigitsParseBack(value, radix);
    ParseSnoc("", '0', radix);
  }

  /** A text of digits of the radix that does not begin with a zero. */
  predicate Numeral(s: string, radix: nat) {
    && (s != "" ==> s[0] != '0')
    && forall i :: 0 <= i < |s| ==> ValueOf(s[i]) < radix && DigitOf(ValueOf(s[i])) == s[i]
  }

  /** The other half of the round trip: printing a number that was read restores its text. */
  lemma {:induction false} NumeralRoundTrip(s: string, radix: nat)
    requires 2 <= radix <= 36 && Numeral(s, radix)
    ensures Digits(Parse(s, radix), radix) == s
    ensures s != "" ==> Parse(s, radix) > 0
  {
    if s != "" {
      var front, d := s[..|s| - 1], ValueOf(s[|s| - 1]);
      NumeralRoundTrip(front, radix);
      Rejoin(Parse(front, radix), d, radix);
      if front == "" {
        assert s == [s[0]];
      }
    }
  }

  lemma Rejoin(high: nat, low: nat, radix: nat)
    requires low < radix
    ensures (high * radix + low) / radix == high && (high * radix + low) % radix == low
    ensures high > 0 ==> high * radix + low > 0
  {
    var v := high * radix + low;
    var q, r := v / radix, v % radix;
    assert v == q * radix + r;
    assert q > high ==> q * radix >= (high + 1) * radix;
    assert q < high ==> (q + 1) * radix <= high * radix;
  }

  lemma TextHasNoNul(value: nat, radix: nat)
    requires 2 <= radix <= 36
    ensures NoNul(Text(value, radix))
    ensures value == 0 ==> Text(value, radix) == ['0']
    ensures value > 0 ==> Text(value, radix) == Digits(value, radix)
  {
    DigitsParseBack(value, radix);
  }

  function Pow(radix: nat, n: nat): nat {
    if n == 0 then 1 else Pow(radix, n - 1) * radix
  }

  lemma QuotientBelow(value: nat, radix: nat, bound: nat)
    requires radix >= 2 && value < bound * radix
    ensures value / radix < bound
  {
    Split(value, radix);
    var q, r := value / radix, value % radix;
    assert q >= bound ==> q * radix >= bound * radix;
  }

  /** A number below `radix` to the `n` has at most `n` digits. */
  lemma {:induction false} DigitsFit(value: nat, radix: nat, n: nat)
    requires 2 <= radix <= 36 && value < Pow(radix, n)
    ensures |Digits(value, radix)| <= n
    decreases value
  {
    if value > 0 {
      QuotientBelow(value, radix, Pow(radix, n - 1));
      Split(value, radix);
      DigitsFit(value / radix, radix, n - 1);
    }
  }

  lemma {:induction false} PowGrows(radix: nat, small: nat, n: nat)
    requires 2 <= small <= radix
    ensures 1 <= Pow(small, n) <= Pow(radix, n)
  {
    if n > 0 {
      PowGrows(radix, small, n - 1);
      Monotone(Pow(small, n - 1), Pow(radix, n - 1), small, radix);
    }
  }

  lemma Monotone(a: nat, b: nat, c: nat, d: nat)
    requires 1 <= a <= b && 1 <= c <= d
    ensures 1 <= a * c <= b * d
  {
    assert a * c <= b * c;
    assert b * c <= b * d;
  }

  /** No 32-bit number needs more than 32 digits: `printf`'s buffers never overflow. */
  lemma WordFits(value: nat, radix: nat)
    requires 2 <= radix <= 36 && value < MAX_WORD
    ensures 1 <= |Text(value, radix)| <= 32
    ensures radix >= 10 ==> |Text(value, radix)| <= 10
    ensures radix >= 16 ==> |Text(value, radix)| <= 8
  {
    assert Pow(2, 4) == 16 && Pow(2, 8) == 256;
    PowersOfTwo();
    PowGrows(radix, 2, 32);
    DigitsFit(value, radix, 32);
    if radix >= 10 {
      PowersOfTen();
      PowGrows(radix, 10, 10);
      DigitsFit(value, radix, 10);
    }
    if radix >= 16 {
      PowersOfSixteen();
      PowGrows(radix, 16, 8);
      DigitsFit(value, radix, 8);
    }
  }

  lemma {:induction false} PowAdds(radix: nat, m: nat, n: nat)
    ensures Pow(radix, m + n) == Pow(radix, m) * Pow(radix, n)
  {
    if n > 0 {
      PowAdds(radix, m, n - 1);
      Associate(Pow(radix, m), Pow(radix, n - 1), radix);
    }
  }

  lemma Associate(a: nat, b: nat, c: nat)
    ensures a * b * c == a * (b * c)
  {
  }

  lemma PowersOfTwo()
    ensures Pow(2, 32) == MAX_WORD
  {
    assert Pow(2, 2) == 4;
    PowAdds(2, 2, 2);
    PowAdds(2, 4, 4);
    PowAdds(2, 8, 8);
    PowAdds(2, 16, 16);
  }

  lemma PowersOfTen()
    ensures Pow(10, 10) > MAX_WORD
  {
    assert Pow(10, 2) == 100;
    PowAdds(10, 2, 3);
    assert Pow(10, 3) == 1000;
    PowAdds(10, 5, 5);
  }

  lemma PowersOfSixteen()
    ensures Pow(16, 8) == MAX_WORD
  {
    assert Pow(16, 2) == 256;
    PowAdds(16, 2, 2);
    PowAdds(16, 4, 4);
  }

  /** Zeros in front of a number do not change what it reads as. */
  lemma {:induction false} PaddingIsHarmless(n: nat, s: string, radix: nat)
    ensures Parse(Zeros(n) + s, radix) == Parse(s, radix)
  {
    if s != "" {
      PaddingIsHarmless(n, s[..|s| - 1], radix);
      assert (Zeros(n) + s)[..n + |s| - 1] == Zeros(n) + s[..|s| - 1];
    } else if n > 0 {
      PaddingIsHarmless(n - 1, s, radix);
      assert (Zeros(n) + s)[..n - 1] == Zeros(n - 1) + s;
    }
  }

  function Zeros(n: nat): (s: string)
    ensures |s| == n
  {
    seq(n, i => '0')
  }

  function Reverse(s: string): (r: string)
    ensures |r| == |s| && forall i :: 0 <= i < |s| ==> r[i] == s[|s| - 1 - i]
  {
    seq(|s|, i requires 0 <= i < |s| => s[|s| - 1 - i])
  }

  lemma ReverseReverse(s: string)
    ensures Reverse(Reverse(s)) == s
  {
  }

  lemma ReverseSnoc(s: string, c: char)
    ensures Reverse(s + [c]) == [c] + Reverse(s)
  {
  }

  /** A text without NUL, terminated by one, starts at `at`. */
  ghost predicate IsText(buf: array<char>, at: nat, s: string)
    reads buf
  {
    && at + |s| < buf.Length
    && (forall k :: at <= k < at + |s| ==> buf[k] == s[k - at])
    && buf[at + |s|] == '\0'
    && NoNul(s)
  }

  ghost predicate NoNul(s: string) {
    forall i :: 0 <= i < |s| ==> s[i] != '\0'
  }

  method Strlen(buf: array<char>, at: nat, ghost s: string) returns (len: nat)
    requires IsText(buf, at, s)
    ensures len == |s|
  {
    len := 0;
    while buf[at + len] != '\0'
      invariant len <= |s|
      decreases |s| - len
    {
      len := len + 1;
    }
  }

  /** Both copies of the in-place reversal; nothing outside the text moves. */
  method Strrev(buf: array<char>, at: nat, ghost s: string)
    requires IsText(buf, at, s)
    modifies buf
    ensures IsText(buf, at, Reverse(s))
    ensures forall k :: 0 <= k < buf.Length && !(at <= k < at + |s|) ==> buf[k] == old(buf[k])
  {
    var len := Strlen(buf, at, s);
    var beg, end := 0, len - 1;
    while beg < end
      invariant beg + end == len - 1 && 0 <= beg <= len && beg <= end + 2
      invariant forall k :: at <= k < at + len ==>
        buf[k] == if beg <= k - at <= end then s[k - at] else s[len - 1 - (k - at)]
      invariant forall k :: 0 <= k < buf.Length && !(at <= k < at + len) ==> buf[k] == old(buf[k])
    {
      buf[at + beg], buf[at + end] := buf[at + end], buf[at + beg];
      beg, end := beg + 1, end - 1;
    }
  }

  /**
   Both copies of `itoa`: the digits are written lowest place first and then reversed.
   Only the text and its NUL are written.
   */
  method Itoa(value: nat, buf: array<char>, at: nat, radix: nat)
    requires 2 <= radix <= 36 && value < MAX_WORD
    requires at + |Text(value, radix)| < buf.Length
    modifies buf
    ensures IsText(buf, at, Text(value, radix))
    ensures forall k :: 0 <= k < at || at + |Text(value, radix)| < k < buf.Length ==>
      buf[k] == old(buf[k])
  {
    ghost var text := Text(value, radix);
    TextHasNoNul(value, radix);
    if value == 0 {
      buf[at] := '0';
      buf[at + 1] := '\0';
      return;
    }
    var end := WriteDigits(value, buf, at, radix);
    buf[end] := '\0';
    ReverseReverse(text);
    NoNulReversed(text);
    Strrev(buf, at, Reverse(text));
  }

  lemma NoNulReversed(s: string)
    requires NoNul(s)
    ensures NoNul(Reverse(s))
  {
  }

  method WriteDigits(value: nat, buf: array<char>, at: nat, radix: nat) returns (end: nat)
    requires 2 <= radix <= 36
    requires at + |Digits(value, radix)| <= buf.Length
    modifies buf
    ensures end == at + |Digits(value, radix)|
    ensures forall k :: at <= k < end ==> buf[k] == Reverse(Digits(value, radix))[k - at]
    ensures forall k :: 0 <= k < at || end <= k < buf.Length ==> buf[k] == old(buf[k])
  {
    ghost var text := Digits(value, radix);
    ghost var written := "";
    var newval: nat := value;
    end := at;
    while newval > 0
      invariant end == at + |written|
      invariant Digits(newval, radix) + Reverse(written) == text
      invariant forall k :: at <= k < end ==> buf[k] == written[k - at]
      invariant forall k :: 0 <= k < at || end <= k < buf.Length ==> buf[k] == old(buf[k])
      decreases newval
    {
      Split(newval, radix);
      MoveDigit(Digits(newval / radix, radix), DigitOf(newval % radix), written, text);
      buf[end] := DigitOf(newval % radix);
      written := written + [DigitOf(newval % radix)];
      end := end + 1;
      newval := newval / radix;
    }
    assert Reverse(written) == text;
    ReverseReverse(written);
  }

  lemma MoveDigit(front: string, c: char, written: string, text: string)
    requires front + [c] + Reverse(written) == text
    ensures |written| < |text|
    ensures front + Reverse(written + [c]) == text
  {
    ReverseSnoc(written, c);
  }

  /** The string that starts at `at`, which is what `puts` prints. */
  method TextAt(buf: array<char>, at: nat, ghost s: string) returns (shown: string)
    requires IsText(buf, at, s)
    ensures shown == s
  {
    var len := Strlen(buf, at, s);
    shown := buf[at..at + len];
  }

  /** What `%x` and `%u` print. */
  method Unsigned(value: nat, radix: nat) returns (shown: string)
    requires radix == 10 || radix == 16
    requires value < MAX_WORD
    ensures Parse(shown, radix) == value
    ensures 1 <= |shown| <= 10 && (shown[0] == '0' <==> value == 0)
  {
    var buf := new char[36];
    WordFits(value, radix);
    TextRoundTrip(value, radix);
    Itoa(value, buf, 0, radix);
    shown := TextAt(buf, 0, Text(value, radix));
  }

  /** What `%#x` prints: always eight digits, and still the number. */
  method Padded(value: nat) returns (shown: string)
    requires value < MAX_WORD
    ensures |shown| == 8 && Parse(shown, 16) == value
  {
    var buf := new char[64];
    ghost var text := Text(value, 16);
    WordFits(value, 16);
    TextRoundTrip(value, 16);
    Itoa(value, buf, 8, 16);
    var start := Pad(buf, text);
    PaddingIsHarmless(8 - start, text, 16);
    shown := TextAt(buf, start, Zeros(8 - start) + text);
  }

  /** Zeros fill the gap between the length of the text and its start at index 8. */
  method Pad(buf: array<char>, ghost text: string) returns (start: nat)
    requires IsText(buf, 8, text) && |text| <= 8
    modifies buf
    ensures start == |text|
    ensures IsText(buf, start, Zeros(8 - start) + text)
  {
    start := Strlen(buf, 8, text);
    var i := start;
    while i < 8
      invariant start <= i <= 8
      invariant forall k :: start <= k < i ==> buf[k] == '0'
      invariant IsText(buf, 8, text)
    {
      buf[i] := '0';
      i := i + 1;
    }
  }

  /** Reading a text that may begin with a minus sign. */
  function ParseSigned(s: string): int {
    if s != "" && s[0] == '-' then 0 - Parse(s[1..], 10) else Parse(s, 10)
  }

  /** What `%d` prints, down to the lowest number. */
  method Signed(value: int) returns (shown: string)
    requires -0x8000_0000 <= value < 0x8000_0000
    ensures ParseSigned(shown) == value
    ensures shown != "" && (shown[0] == '-' <==> value < 0)
  {
    var buf := new char[36];
    ghost var text := Text(if value < 0 then -value else value, 10);
    WordFits(if value < 0 then -value else value, 10);
    TextRoundTrip(if value < 0 then -value else value, 10);
    if value < 0 {
      buf[0] := '-';
      Itoa(-value, buf, 1, 10);
      assert ("-" + text)[1..] == text;
      shown := TextAt(buf, 0, "-" + text);
    } else {
      Itoa(value, buf, 0, 10);
      NoSign(value, 10);
      shown := TextAt(buf, 0, text);
    }
  }

  lemma NoSign(value: nat, radix: nat)
    requires 2 <= radix <= 36
    ensures Text(value, radix)[0] != '-'
  {
    NoSignInDigits(value, radix);
  }

  lemma {:induction false} NoSignInDigits(value: nat, radix: nat)
    requires 2 <= radix <= 36
    ensures forall i :: 0 <= i < |Digits(value, radix)| ==> Digits(value, radix)[i] != '-'
    decreases value
  {
    if value > 0 {
      Split(value, radix);
      NoSignInDigits(value / radix, radix);
    }
  }
}
