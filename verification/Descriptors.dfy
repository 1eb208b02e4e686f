/** Descriptors as text: client_socket_send's "%d,%d,%d,%s" and parse_data. */
module Descriptors {
  import opened CTypes
  import opened CStrings
  import opened RadixSort

  function DigitChar(d: int): (c: char)
    requires 0 <= d < 10
    ensures '0' <= c <= '9'
  {
    '0' + d as char
  }

  /** %d of a non-negative int */
  function Dec(n: nat): (s: string)
    ensures s != "" && forall i :: 0 <= i < |s| ==> '0' <= s[i] <= '9'
  {
    if n < 10 then [DigitChar(n)] else Dec(n / 10) + [DigitChar(n % 10)]
  }

  function PrintInt(n: int): string {
    if n < 0 then "-" + Dec(-n) else Dec(n)
  }

  /** The digits at the front of s, read after those already in acc. */
  function Digits(s: string, acc: nat): nat {
    if s == "" || !('0' <= s[0] <= '9') then acc
    else Digits(s[1..], 10 * acc + (s[0] - '0') as int)
  }

  /** isspace */
  predicate Space(c: char) {
    c == ' ' || 9 as char <= c <= 13 as char
  }

  /** atoi */
  function Atoi(s: string): int {
    if s == "" then 0
    else if Space(s[0]) then Atoi(s[1..])
    else if s[0] == '-' then 0 - Digits(s[1..], 0)
    else if s[0] == '+' then Digits(s[1..], 0)
    else Digits(s, 0)
  }

  lemma {:induction false} DigitsAppend(a: string, b: string, acc: nat)
    requires forall i :: 0 <= i < |a| ==> '0' <= a[i] <= '9'
    ensures Digits(a + b, acc) == Digits(b, Digits(a, acc))
  {
    if a == "" {
      assert a + b == b;
    } else {
      DigitsAppend(a[1..], b, 10 * acc + (a[0] - '0') as int);
      assert (a + b)[1..] == a[1..] + b;
    }
  }

  lemma {:induction false} DecRoundTrip(n: nat)
    ensures Digits(Dec(n), 0) == n
  {
    if n >= 10 {
      DecRoundTrip(n / 10);
      var last := [DigitChar(n % 10)];
      DigitsAppend(Dec(n / 10), last, 0);
      assert last[1..] == "";
    } else {
      assert Dec(n)[1..] == "";
    }
  }

  /** atoi undoes %d, for negative numbers too. */
  lemma AtoiRoundTrip(n: int)
    ensures Atoi(PrintInt(n)) == n
  {
    if n < 0 {
      DecRoundTrip(-n);
      assert ("-" + Dec(-n))[1..] == Dec(-n);
    } else {
      DecRoundTrip(n);
    }
  }

  lemma {:induction false} DecShort(n: nat, k: nat)
    requires k >= 1 && n < Pow10(k)
    ensures |Dec(n)| <= k
  {
    if n >= 10 {
      assert Pow10(1) == 10;
      DecShort(n / 10, k - 1);
    }
  }

  /** A C int prints in at most ten digits and a sign, well inside parse_data's 24 bytes. */
  lemma IntShort(n: int)
    requires -INT_MAX - 1 <= n <= INT_MAX
    ensures |PrintInt(n)| <= 11 && (n >= 0 ==> |PrintInt(n)| <= 10)
  {
    assert Pow10(5) == 100_000;
    assert Pow10(10) == 10_000_000_000;
    DecShort(if n < 0 then -n else n, 10);
  }

  /** What client_socket_send prints between the markers. */
  function Payload(num: int, offset: int, len: int, md5: string): string {
    PrintInt(num) + "," + (PrintInt(offset) + "," + (PrintInt(len) + "," + md5))
  }

  function FindChar(s: string, c: char): (i: nat)
    ensures i <= |s| && (i < |s| ==> s[i] == c) && c !in s[..i]
  {
    if s == "" || s[0] == c then 0 else
      var i := FindChar(s[1..], c);
      assert s[..i + 1] == [s[0]] + s[1..][..i];
      i + 1
  }

  lemma {:induction false} FindCharIs(a: string, c: char, b: string)
    requires c !in a
    ensures FindChar(a + [c] + b, c) == |a|
  {
    var s := a + [c] + b;
    if a == "" {
      assert s[0] == c;
    } else {
      assert s[0] == a[0] && a[0] in a;
      assert s[1..] == a[1..] + [c] + b;
      FindCharIs(a[1..], c, b);
    }
  }

  /** What parse_data makes of a payload; Stopped when one of its assertions fails, or where it
      would run past the end of the string or of its 24-byte digit buffer. */
  datatype Parsed = Parsed(num: int, offset: int, len: int, md5: string) | Stopped

  /** The text before the first comma, and the text after it. */
  function Field(s: string): string {
    s[..FindChar(s, ',')]
  }

  function Rest(s: string): string
    requires ',' in s
  {
    s[FindChar(s, ',') + 1..]
  }

  /** A field parse_data can read: it ends at a comma, and fits the digit buffer. */
  predicate Readable(s: string) {
    ',' in s && |Field(s)| < 24
  }

  function Parse(s: string): Parsed {
    if !Readable(s) || Atoi(Field(s)) <= 0 then Stopped
    else ParseOffset(Rest(s), Atoi(Field(s)))
  }

  function ParseOffset(s: string, num: int): Parsed {
    if !Readable(s) || Atoi(Field(s)) <= 0 then Stopped
    else ParseLen(Rest(s), num, Atoi(Field(s)))
  }

  function ParseLen(s: string, num: int, offset: int): Parsed {
    if !Readable(s) || Atoi(Field(s)) < 0 || Rest(s) == "" then Stopped
    else Parsed(num, offset, Atoi(Field(s)), Rest(s))
  }

  lemma PrintHasNoComma(n: int)
    ensures ',' !in PrintInt(n)
  {
  }

  lemma SplitField(n: int, t: string)
    ensures var s := PrintInt(n) + "," + t;
            ',' in s && Field(s) == PrintInt(n) && Rest(s) == t
  {
    var a := PrintInt(n);
    PrintHasNoComma(n);
    FindCharIs(a, ',', t);
    var s := a + "," + t;
    assert s[|a|] == ',' && s[..|a|] == a && s[|a| + 1..] == t;
  }

  lemma SplitInt(n: cint, t: string)
    ensures var s := PrintInt(n) + "," + t;
            Readable(s) && Atoi(Field(s)) == n && Rest(s) == t
  {
    SplitField(n, t);
    AtoiRoundTrip(n);
    IntShort(n);
  }

  /** parse_data undoes the printing of every descriptor Jane can send. */
  lemma ParseRoundTrip(num: cint, offset: cint, len: cint, md5: string)
    requires num > 0 && offset > 0 && len >= 0 && md5 != ""
    ensures Parse(Payload(num, offset, len, md5)) == Parsed(num, offset, len, md5)
  {
    var s2 := PrintInt(len) + "," + md5;
    var s1 := PrintInt(offset) + "," + s2;
    SplitInt(len, md5);
    assert ParseLen(s2, num, offset) == Parsed(num, offset, len, md5);
    SplitInt(offset, s2);
    assert ParseOffset(s1, num) == Parsed(num, offset, len, md5);
    SplitInt(num, s1);
  }

  /** Two descriptors print alike only when they are alike. */
  lemma PayloadInjective(n1: cint, o1: cint, l1: cint, d1: string, n2: cint, o2: cint, l2: cint, d2: string)
    requires n1 > 0 && o1 > 0 && l1 >= 0 && d1 != ""
    requires n2 > 0 && o2 > 0 && l2 >= 0 && d2 != ""
    requires Payload(n1, o1, l1, d1) == Payload(n2, o2, l2, d2)
    ensures (n1, o1, l1, d1) == (n2, o2, l2, d2)
  {
    ParseRoundTrip(n1, o1, l1, d1);
    ParseRoundTrip(n2, o2, l2, d2);
  }

  // ---------------------------------------------------------------- the text, character by character

  predicate IsDigit(c: char) {
    '0' <= c <= '9'
  }

  /** Decimal digits, with no zero in front of others. */
  ghost predicate Numeral(s: string) {
    s != "" && (forall i :: 0 <= i < |s| ==> IsDigit(s[i])) && (s[0] == '0' ==> |s| == 1)
  }

  /** A numeral, or a minus sign and one that is not zero. */
  ghost predicate Decimal(s: string) {
    if s != "" && s[0] == '-' then Numeral(s[1..]) && s[1..] != "0" else Numeral(s)
  }

  lemma {:induction false} DecIsNumeral(n: nat)
    ensures Numeral(Dec(n)) && (Dec(n)[0] == '0' ==> n == 0)
  {
    if n >= 10 {
      DecIsNumeral(n / 10);
      assert Dec(n)[0] == Dec(n / 10)[0];
    }
  }

  lemma {:induction false} NumeralIsDec(s: string)
    requires Numeral(s)
    ensures Dec(Digits(s, 0)) == s
  {
    var n := |s| - 1;
    var t, d := s[..n], s[n..];
    assert s == t + d && d[1..] == "" && IsDigit(s[n]);
    if n == 0 {
      assert s[1..] == "";
    } else {
      assert Numeral(t);
      NumeralIsDec(t);
      DigitsAppend(t, d, 0);
      DecIsNumeral(Digits(t, 0));
      assert Digits(t, 0) > 0;
    }
  }

  lemma PrintIsDecimal(n: int)
    ensures Decimal(PrintInt(n))
  {
    DecIsNumeral(if n < 0 then -n else n);
    if n < 0 {
      assert PrintInt(n)[1..] == Dec(-n);
    } else {
      assert IsDigit(PrintInt(n)[0]);
    }
  }

  /** The text %d prints is the only decimal, without superfluous characters, that atoi reads as n. */
  lemma PrintIsUnique(s: string, n: int)
    requires Decimal(s)
    ensures Atoi(s) == n <==> s == PrintInt(n)
  {
    AtoiRoundTrip(n);
    if s[0] == '-' {
      NumeralIsDec(s[1..]);
      DecRoundTrip(Digits(s[1..], 0));
      assert Dec(0) == "0";
      assert s == "-" + s[1..];
    } else {
      assert IsDigit(s[0]);
      NumeralIsDec(s);
    }
  }

  /** A descriptor is four fields and three commas, in this order. */
  lemma DescriptorText(num: int, offset: int, len: int, md5: string, a: string, b: string, c: string)
    requires Decimal(a) && Decimal(b) && Decimal(c) && Atoi(a) == num && Atoi(b) == offset && Atoi(c) == len
    ensures Payload(num, offset, len, md5) == a + "," + b + "," + c + "," + md5
  {
    PrintIsUnique(a, num);
    PrintIsUnique(b, offset);
    PrintIsUnique(c, len);
    FieldsInOrder(a, b, c, md5);
  }

  lemma FieldsInOrder(a: string, b: string, c: string, d: string)
    ensures a + "," + (b + "," + (c + "," + d)) == a + "," + b + "," + c + "," + d
  {
  }

  /** What a blank is to atoi, written out. */
  ghost predicate Blanks(s: string) {
    forall i :: 0 <= i < |s| ==>
      s[i] == ' ' || s[i] == '\t' || s[i] == '\n' || s[i] == 11 as char || s[i] == 12 as char || s[i] == '\r'
  }

  lemma {:induction false} AtoiSkipsBlanks(ws: string, s: string)
    requires Blanks(ws)
    ensures Atoi(ws + s) == Atoi(s)
  {
    if ws == "" {
      assert ws + s == s;
    } else {
      assert (ws + s)[0] == ws[0] && (ws + s)[1..] == ws[1..] + s;
      AtoiSkipsBlanks(ws[1..], s);
    }
  }

  lemma {:induction false} ZerosAreNothing(zeros: string)
    requires forall i :: 0 <= i < |zeros| ==> zeros[i] == '0'
    ensures Digits(zeros, 0) == 0
  {
    if zeros != "" {
      ZerosAreNothing(zeros[1..]);
    }
  }

  lemma DigitsRead(zeros: string, n: nat, tail: string)
    requires forall i :: 0 <= i < |zeros| ==> zeros[i] == '0'
    requires tail == "" || !IsDigit(tail[0])
    ensures Digits(zeros + (Dec(n) + tail), 0) == n
  {
    DigitsAppend(zeros, Dec(n) + tail, 0);
    ZerosAreNothing(zeros);
    DigitsAppend(Dec(n), tail, 0);
    DecRoundTrip(n);
  }

  /** atoi: blanks, a sign, leading zeros and whatever follows the digits do not matter. */
  lemma AtoiReads(ws: string, sign: string, zeros: string, n: nat, tail: string)
    requires Blanks(ws) && (sign == "" || sign == "+" || sign == "-")
    requires forall i :: 0 <= i < |zeros| ==> zeros[i] == '0'
    requires tail == "" || !IsDigit(tail[0])
    ensures Atoi(ws + (sign + (zeros + (Dec(n) + tail)))) == if sign == "-" then 0 - n else n
  {
    var digits := zeros + (Dec(n) + tail);
    AtoiSkipsBlanks(ws, sign + digits);
    DigitsRead(zeros, n, tail);
    DecIsNumeral(n);
    assert IsDigit(digits[0]);
    if sign == "" {
      assert sign + digits == digits;
    } else {
      assert (sign + digits)[0] == sign[0] && (sign + digits)[1..] == digits;
    }
  }

  /** And without a digit it is 0. */
  lemma AtoiOfNoNumber(ws: string, sign: string, tail: string)
    requires Blanks(ws) && (sign == "+" || sign == "-") && (tail == "" || !IsDigit(tail[0]))
    ensures Atoi(ws + (sign + tail)) == 0 && Atoi(ws) == 0
  {
    AtoiSkipsBlanks(ws, sign + tail);
    AtoiSkipsBlanks(ws, "");
    assert ws + "" == ws && (sign + tail)[1..] == tail;
  }

  // ---------------------------------------------------------------- what parse_data accepts

  lemma FieldIs(a: string, t: string)
    requires ',' !in a
    ensures var s := a + "," + t; ',' in s && Field(s) == a && Rest(s) == t
  {
    var s := a + "," + t;
    FindCharIs(a, ',', t);
    assert s[|a|] == ',' && s[..|a|] == a && s[|a| + 1..] == t;
  }

  lemma LenFieldIs(c: string, d: string, num: int, offset: int)
    requires ',' !in c
    ensures ParseLen(c + "," + d, num, offset) ==
            if |c| < 24 && Atoi(c) >= 0 && d != "" then Parsed(num, offset, Atoi(c), d) else Stopped
  {
    FieldIs(c, d);
  }

  lemma OffsetFieldIs(b: string, t: string, num: int)
    requires ',' !in b
    ensures ParseOffset(b + "," + t, num) ==
            if |b| < 24 && Atoi(b) > 0 then ParseLen(t, num, Atoi(b)) else Stopped
  {
    FieldIs(b, t);
  }

  lemma NumFieldIs(a: string, t: string)
    requires ',' !in a
    ensures Parse(a + "," + t) == if |a| < 24 && Atoi(a) > 0 then ParseOffset(t, Atoi(a)) else Stopped
  {
    FieldIs(a, t);
  }

  /** Exactly what is read out of three fields, their commas and what follows them. */
  lemma ParseFields(a: string, b: string, c: string, d: string)
    requires ',' !in a && ',' !in b && ',' !in c
    ensures Parse(a + "," + (b + "," + (c + "," + d))) ==
            if |a| < 24 && Atoi(a) > 0 && |b| < 24 && Atoi(b) > 0 && |c| < 24 && Atoi(c) >= 0 && d != ""
            then Parsed(Atoi(a), Atoi(b), Atoi(c), d) else Stopped
  {
    var s2 := c + "," + d;
    var s1 := b + "," + s2;
    NumFieldIs(a, s1);
    OffsetFieldIs(b, s2, Atoi(a));
    LenFieldIs(c, d, Atoi(a), Atoi(b));
  }

  /** With fewer than three commas nothing is. */
  lemma ParseNeedsThreeCommas(a: string, b: string, c: string)
    requires ',' !in a && ',' !in b && ',' !in c
    ensures Parse(a) == Stopped && Parse(a + "," + b) == Stopped && Parse(a + "," + (b + "," + c)) == Stopped
  {
    FieldIs(a, b);
    FieldIs(a, b + "," + c);
    FieldIs(b, c);
  }

  /** So of what Jane's format can print, parse_data accepts just the descriptors with a positive
      number and offset, a length that is not negative, and a digest. */
  lemma ParsePrintedIff(num: cint, offset: cint, len: cint, md5: string)
    ensures Parse(Payload(num, offset, len, md5)) ==
            if num > 0 && offset > 0 && len >= 0 && md5 != "" then Parsed(num, offset, len, md5) else Stopped
  {
    PrintHasNoComma(num);
    PrintHasNoComma(offset);
    PrintHasNoComma(len);
    IntShort(num);
    IntShort(offset);
    IntShort(len);
    AtoiRoundTrip(num);
    AtoiRoundTrip(offset);
    AtoiRoundTrip(len);
    ParseFields(PrintInt(num), PrintInt(offset), PrintInt(len), md5);
  }

  // ---------------------------------------------------------------- parse_data in C

  /** The copying loop: input[from..stop] into the digit buffer, then a terminator. Whatever an
      earlier field left further on does not matter. */
  method CopyField(input: array<char>, from: nat, stop: nat, nums: array<char>)
    requires input != nums && from <= stop <= input.Length && stop - from < nums.Length
    requires NUL !in input[from..stop]
    modifies nums
    ensures CStr(nums[..]) == input[from..stop]
  {
    var t := from;
    var pt := 0;
    while t != stop
      invariant from <= t <= stop && pt == t - from
      invariant forall k :: 0 <= k < pt ==> nums[k] == input[from + k]
      decreases stop - t
    {
      nums[pt] := input[t];
      pt := pt + 1;
      t := t + 1;
    }
    nums[pt] := NUL;
    assert nums[..pt] == input[from..stop];
    CStrIs(nums[..], input[from..stop]);
  }

  /** strstr(input + from, ","): the index of the comma, or the end of the string. */
  method FindComma(input: array<char>, from: nat) returns (comma: nat)
    requires from <= |CStr(input[..])| < input.Length
    ensures comma == from + FindChar(CStr(input[..])[from..], ',')
    ensures comma <= |CStr(input[..])|
  {
    ghost var s := CStr(input[..]);
    comma := from;
    while input[comma] != NUL && input[comma] != ','
      invariant from <= comma <= |s|
      invariant comma + FindChar(s[comma..], ',') == from + FindChar(s[from..], ',')
      decreases |s| - comma
    {
      assert input[comma] == s[comma] by {
        if comma < |s| { assert s[comma] == input[..][comma]; }
      }
      assert s[comma..][1..] == s[comma + 1..];
      comma := comma + 1;
    }
    if comma < |s| {
      assert s[comma] == input[..][comma] && s[comma] in s;
    }
  }

  /** One field: find its comma, copy it, convert it. Not ok where that goes out of bounds. */
  method ReadField(input: array<char>, from: nat, nums: array<char>) returns (ok: bool, comma: nat, value: int)
    requires input != nums && nums.Length == 24
    requires from <= |CStr(input[..])| < input.Length
    modifies nums
    ensures ok <==> Readable(CStr(input[..])[from..])
    ensures ok ==> comma < |CStr(input[..])|
                   && Rest(CStr(input[..])[from..]) == CStr(input[..])[comma + 1..]
                   && value == Atoi(Field(CStr(input[..])[from..]))
  {
    ghost var s := CStr(input[..]);
    comma := FindComma(input, from);
    NoComma(s[from..]);
    if comma == |CStr(input[..])| || comma - from >= nums.Length {
      return false, comma, 0;
    }
    FieldAt(input[..], s, from, comma);
    CopyField(input, from, comma, nums);
    value := Atoi(CStr(nums[..]));
    ok := true;
  }

  /** The field that starts at from and ends at the next comma. */
  lemma FieldAt(buf: seq<char>, s: string, from: nat, comma: nat)
    requires s <= buf && NUL !in s && from <= |s| && ',' in s[from..]
    requires comma == from + FindChar(s[from..], ',')
    ensures comma < |s|
    ensures buf[from..comma] == Field(s[from..])
    ensures NUL !in buf[from..comma]
    ensures Rest(s[from..]) == s[comma + 1..]
  {
    var t := s[from..];
    NoComma(t);
    assert buf[from..comma] == t[..comma - from];
    assert t[comma - from + 1..] == s[comma + 1..];
    forall i | from <= i < comma ensures buf[i] != NUL {
      assert buf[i] == s[i] && s[i] in s;
    }
  }

  lemma NoComma(s: string)
    ensures ',' in s <==> FindChar(s, ',') < |s|
  {
    assert s[..|s|] == s;
  }

  /** The third field and the digest after it; t is what is left of the string. */
  method ParseLenField(input: array<char>, from: nat, ghost t: string, num: int, offset: int, nums: array<char>)
    returns (r: Parsed)
    requires input != nums && nums.Length == 24
    requires from <= |CStr(input[..])| < input.Length && t == CStr(input[..])[from..]
    modifies nums
    ensures r == ParseLen(t, num, offset)
  {
    ghost var s := CStr(input[..]);
    var ok, comma, len := ReadField(input, from, nums);
    if !ok || len < 0 {
      return Stopped;
    }
    var md5 := CStr(input[comma + 1..]);
    CStrIs(input[comma + 1..], s[comma + 1..]);
    if md5 == "" {
      return Stopped;
    }
    return Parsed(num, offset, len, md5);
  }

  /** The second field and what follows it. */
  method ParseOffsetField(input: array<char>, from: nat, ghost t: string, num: int, nums: array<char>)
    returns (r: Parsed)
    requires input != nums && nums.Length == 24
    requires from <= |CStr(input[..])| < input.Length && t == CStr(input[..])[from..]
    modifies nums
    ensures r == ParseOffset(t, num)
  {
    var ok, comma, offset := ReadField(input, from, nums);
    if !ok || offset <= 0 {
      return Stopped;
    }
    r := ParseLenField(input, comma + 1, Rest(t), num, offset, nums);
  }

  /** parse_data */
  method ParseData(input: array<char>) returns (r: Parsed)
    requires |CStr(input[..])| < input.Length
    ensures r == Parse(CStr(input[..]))
  {
    ghost var s := CStr(input[..]);
    assert s[0..] == s;
    var nums := new char[24](_ => NUL);
    var ok, comma, num := ReadField(input, 0, nums);
    if !ok || num <= 0 {
      return Stopped;
    }
    r := ParseOffsetField(input, comma + 1, Rest(s), num, nums);
  }
}
