/** Printing numbers (lib/print.c, print_num). */
module PrintNum {
  import opened Common

  predicate IsBase(base: nat) { 2 <= base <= 16 }

  function DigitChar(d: nat, upcase: bool): char
    requires d < 16
  {
    if d <= 9 then '0' + d as char else if upcase then 'A' + (d - 10) as char else 'a' + (d - 10) as char
  }

  function DigitValue(c: char): nat {
    if '0' <= c <= '9' then (c - '0') as nat
    else if 'A' <= c <= 'F' then (c - 'A') as nat + 10
    else if 'a' <= c <= 'f' then (c - 'a') as nat + 10
    else 0
  }

  /** The digits, most significant first. */
  function Digits(u: nat, base: nat, upcase: bool): (s: string)
    requires IsBase(base)
    ensures |s| > 0
  {
    if u < base then [DigitChar(u, upcase)] else Digits(u / base, base, upcase) + [DigitChar(u % base, upcase)]
  }

  /** The number that digits stand for. */
  function Value(s: string, base: nat): nat {
    if s == "" then 0 else Value(s[..|s| - 1], base) * base + DigitValue(s[|s| - 1])
  }

  function Repeat(c: char, n: nat): (s: string)
    ensures |s| == n && forall i :: 0 <= i < n ==> s[i] == c
  {
    if n == 0 then "" else [c] + Repeat(c, n - 1)
  }

  function Sign(neg: bool): string { if neg then "-" else "" }

  function Max(a: nat, b: nat): (m: nat)
    ensures m >= a && m >= b && (m == a || m == b)
  {
    if a < b then b else a
  }

  /** Sign and digits, filled up to `length` with spaces behind, with zeros between sign and
      digits, or with padc in front. */
  function Adjusted(num: string, neg: bool, length: nat, ladjust: bool, padc: char): string {
    var core := Sign(neg) + num;
    var fill := Max(length, |core|) - |core|;
    if ladjust then core + Repeat(' ', fill)
    else if neg && padc == '0' then Sign(neg) + Repeat('0', fill) + num
    else Repeat(padc, fill) + core
  }

  /** What is printed. */
  function Printed(u: nat, base: nat, neg: bool, length: nat, ladjust: bool, padc: char, upcase: bool): string
    requires IsBase(base)
  {
    Adjusted(Digits(u, base, upcase), neg, length, ladjust, padc)
  }

  // ---- Reading it back --------------------------------------------------------------------

  function SkipSpaces(s: string): string {
    if s != "" && s[0] == ' ' then SkipSpaces(s[1..]) else s
  }

  function DropSpaces(s: string): string {
    if s != "" && s[|s| - 1] == ' ' then DropSpaces(s[..|s| - 1]) else s
  }

  /** Sign and magnitude of a number between spaces. */
  function Parse(s: string, base: nat): (bool, nat) {
    var t := DropSpaces(SkipSpaces(s));
    if t != "" && t[0] == '-' then (true, Value(t[1..], base)) else (false, Value(t, base))
  }

  lemma DigitRoundTrip(d: nat, upcase: bool)
    requires d < 16
    ensures DigitValue(DigitChar(d, upcase)) == d && DigitChar(d, upcase) != ' ' && DigitChar(d, upcase) != '-'
  {
  }

  predicate NoPadding(s: string) {
    forall i :: 0 <= i < |s| ==> s[i] != ' ' && s[i] != '-'
  }

  lemma ValueAppend(s: string, c: char, base: nat)
    ensures Value(s + [c], base) == Value(s, base) * base + DigitValue(c)
  {
    assert (s + [c])[..|s|] == s;
  }

  lemma Smaller(u: nat, base: nat)
    requires IsBase(base) && u >= base
    ensures u / base < u
  {
  }

  lemma Recombined(u: nat, base: nat, v: nat, d: nat)
    requires base > 0 && v == u / base && d == u % base
    ensures v * base + d == u && d < base
  {
  }

  lemma DigitsRoundTripOneMore(u: nat, base: nat, upcase: bool, q: nat, d: nat)
    requires IsBase(base) && u >= base && q == u / base && d == u % base && Value(Digits(q, base, upcase), base) == q
    ensures Value(Digits(u, base, upcase), base) == u
  {
    var s, c := Digits(q, base, upcase), DigitChar(d, upcase);
    DigitRoundTrip(d, upcase);
    ValueAppend(s, c, base);
    Recombined(u, base, Value(s, base), DigitValue(c));
  }

  lemma {:induction false} DigitsRoundTrip(u: nat, base: nat, upcase: bool)
    requires IsBase(base)
    ensures Value(Digits(u, base, upcase), base) == u
    decreases u
  {
    if u < base {
      DigitRoundTrip(u, upcase);
      ValueAppend("", DigitChar(u, upcase), base);
      assert "" + [DigitChar(u, upcase)] == [DigitChar(u, upcase)];
    } else {
      var q, d := u / base, u % base;
      Smaller(u, base);
      DigitsRoundTripOneMore(u, base, upcase, q, d) by { DigitsRoundTrip(q, base, upcase); }
    }
  }

  lemma {:induction false} DigitsNoPadding(u: nat, base: nat, upcase: bool)
    requires IsBase(base)
    ensures NoPadding(Digits(u, base, upcase))
    decreases u
  {
    DigitRoundTrip(u % base, upcase);
    if u >= base {
      Smaller(u, base);
      DigitsNoPadding(u / base, base, upcase);
    } else {
      DigitRoundTrip(u, upcase);
    }
  }

  /** c is a digit of the base, its letters of the case asked for. */
  predicate IsDigit(c: char, base: nat, upcase: bool) {
    DigitValue(c) < base && ('0' <= c <= '9' || (if upcase then 'A' <= c <= 'F' else 'a' <= c <= 'f'))
  }

  lemma DigitIs(d: nat, base: nat, upcase: bool)
    requires IsBase(base) && d < base
    ensures IsDigit(DigitChar(d, upcase), base, upcase) && (DigitChar(d, upcase) == '0' <==> d == 0)
  {
  }

  lemma QuotientIsPositive(u: nat, base: nat)
    requires IsBase(base) && u >= base
    ensures u / base > 0
  {
  }

  /** Digits only, of the case asked for, and no zero in front except that of zero itself. */
  lemma {:induction false} DigitsAreCanonical(u: nat, base: nat, upcase: bool)
    requires IsBase(base)
    ensures var s := Digits(u, base, upcase);
      (forall i :: 0 <= i < |s| ==> IsDigit(s[i], base, upcase)) && (if u == 0 then s == "0" else s[0] != '0')
    decreases u
  {
    if u < base {
      DigitIs(u, base, upcase);
    } else {
      Smaller(u, base);
      QuotientIsPositive(u, base);
      DigitIs(u % base, base, upcase);
      CanonicalOneMore(u, base, upcase, u / base, u % base) by { DigitsAreCanonical(u / base, base, upcase); }
    }
  }

  lemma CanonicalOneMore(u: nat, base: nat, upcase: bool, q: nat, d: nat)
    requires IsBase(base) && u >= base && q == u / base && d == u % base && q > 0
    requires IsDigit(DigitChar(d, upcase), base, upcase)
    requires var s := Digits(q, base, upcase); (forall i :: 0 <= i < |s| ==> IsDigit(s[i], base, upcase)) && s[0] != '0'
    ensures var s := Digits(u, base, upcase); (forall i :: 0 <= i < |s| ==> IsDigit(s[i], base, upcase)) && s[0] != '0'
  {
    assert Digits(u, base, upcase) == Digits(q, base, upcase) + [DigitChar(d, upcase)];
  }

  /** Where sign, digits and padding stand.  With ladjust: sign and digits first, then spaces.
      Otherwise they are last, behind the padding; but a minus stands before padding by zeros. */
  lemma PrintedLayout(u: nat, base: nat, neg: bool, length: nat, ladjust: bool, padc: char, upcase: bool)
    requires IsBase(base)
    ensures var num, s := Digits(u, base, upcase), Printed(u, base, neg, length, ladjust, padc, upcase);
      var core := if neg then "-" + num else num;
      && |s| >= length && |s| >= |core| && (|s| == length || |s| == |core|)
      && (ladjust ==> s[..|core|] == core && forall i :: |core| <= i < |s| ==> s[i] == ' ')
      && (!ladjust && neg && padc == '0' ==> s[0] == '-' && s[|s| - |num|..] == num)
      && (!ladjust && neg && padc == '0' ==> forall i :: 1 <= i < |s| - |num| ==> s[i] == '0')
      && (!ladjust && !(neg && padc == '0') ==> s[|s| - |core|..] == core)
      && (!ladjust && !(neg && padc == '0') ==> forall i :: 0 <= i < |s| - |core| ==> s[i] == padc)
  {
  }

  /** Zeros in front change nothing. */
  lemma {:induction false} ZerosInFront(n: nat, s: string, base: nat)
    ensures Value(Repeat('0', n) + s, base) == Value(s, base)
    decreases |s|, n
  {
    var t := Repeat('0', n) + s;
    if s != "" {
      assert t[..|t| - 1] == Repeat('0', n) + s[..|s| - 1];
      ZerosInFront(n, s[..|s| - 1], base);
    } else if n > 0 {
      assert t[..|t| - 1] == Repeat('0', n - 1) + "";
      ZerosInFront(n - 1, "", base);
    }
  }

  lemma {:induction false} SkipFill(n: nat, s: string)
    requires s == "" || s[0] != ' '
    ensures SkipSpaces(Repeat(' ', n) + s) == s
  {
    if n > 0 {
      assert (Repeat(' ', n) + s)[1..] == Repeat(' ', n - 1) + s;
      SkipFill(n - 1, s);
    } else {
      assert Repeat(' ', 0) + s == s;
    }
  }

  lemma {:induction false} DropFill(n: nat, s: string)
    requires s == "" || s[|s| - 1] != ' '
    ensures DropSpaces(s + Repeat(' ', n)) == s
  {
    var t := s + Repeat(' ', n);
    if n > 0 {
      assert t[..|t| - 1] == s + Repeat(' ', n - 1);
      DropFill(n - 1, s);
    } else {
      assert t == s;
    }
  }

  lemma Halved(u: nat, base: nat, p: nat)
    requires IsBase(base) && u < 2 * p
    ensures u / base < p
  {
    assert u / base * 2 <= u / base * base <= u;
  }

  lemma {:induction false} FewDigits(u: nat, base: nat, upcase: bool, n: nat)
    requires IsBase(base) && n > 0 && u < Pow2(n)
    ensures |Digits(u, base, upcase)| <= n
    decreases n
  {
    if u >= base {
      assert n > 1;
      Halved(u, base, Pow2(n - 1));
      FewDigits(u / base, base, upcase, n - 1);
    }
  }

  /** Sign and digits, with zeros between, read back; they hold no space. */
  lemma CoreRoundTrip(u: nat, base: nat, neg: bool, zeros: nat, upcase: bool)
    requires IsBase(base)
    ensures var core := Sign(neg) + (Repeat('0', zeros) + Digits(u, base, upcase));
      && core != "" && core[0] != ' ' && core[|core| - 1] != ' ' && (core[0] == '-' <==> neg)
      && Value(if neg then core[1..] else core, base) == u
  {
    var num := Digits(u, base, upcase);
    DigitsRoundTrip(u, base, upcase);
    DigitsNoPadding(u, base, upcase);
    ZerosInFront(zeros, num, base);
    var core := Sign(neg) + (Repeat('0', zeros) + num);
    assert neg ==> core[1..] == Repeat('0', zeros) + num;
    assert !neg ==> core == Repeat('0', zeros) + num;
  }

  lemma ParsePadded(front: nat, core: string, behind: nat, base: nat)
    requires core != "" && core[0] != ' ' && core[|core| - 1] != ' '
    ensures Parse(Repeat(' ', front) + core + Repeat(' ', behind), base) ==
      if core[0] == '-' then (true, Value(core[1..], base)) else (false, Value(core, base))
  {
    var t := core + Repeat(' ', behind);
    assert Repeat(' ', front) + core + Repeat(' ', behind) == Repeat(' ', front) + t;
    SkipFill(front, t);
    DropFill(behind, core);
  }

  lemma NoFill(s: string)
    ensures Repeat(' ', 0) + s + Repeat(' ', 0) == s
    ensures Repeat('0', 0) + s == s
  {
  }

  /** Sign and digits with spaces around, and zeros between. */
  function Around(num: string, neg: bool, front: nat, zeros: nat, behind: nat): string {
    Repeat(' ', front) + (Sign(neg) + (Repeat('0', zeros) + num)) + Repeat(' ', behind)
  }

  lemma AroundSides(num: string, neg: bool, fill: nat)
    ensures Around(num, neg, 0, 0, fill) == Sign(neg) + num + Repeat(' ', fill)
    ensures Around(num, neg, fill, 0, 0) == Repeat(' ', fill) + (Sign(neg) + num)
  {
    NoFill(num);
    assert Repeat(' ', 0) + (Sign(neg) + num) == Sign(neg) + num;
    assert Repeat(' ', fill) + (Sign(neg) + num) + Repeat(' ', 0) == Repeat(' ', fill) + (Sign(neg) + num);
  }

  lemma AroundZeros(num: string, neg: bool, fill: nat)
    ensures Around(num, neg, 0, fill, 0) == Sign(neg) + Repeat('0', fill) + num
  {
    NoFill(Sign(neg) + (Repeat('0', fill) + num));
    Regroup(Sign(neg), Repeat('0', fill), num);
  }

  lemma NoSign(num: string)
    ensures Sign(false) + num == num
  {
  }

  /** Where the padding of a number with zeros or spaces goes. */
  lemma AdjustedShape(num: string, neg: bool, length: nat, ladjust: bool, padc: char)
    returns (front: nat, zeros: nat, behind: nat)
    requires padc == ' ' || padc == '0'
    ensures Adjusted(num, neg, length, ladjust, padc) == Around(num, neg, front, zeros, behind)
  {
    var core := Sign(neg) + num;
    var fill := Max(length, |core|) - |core|;
    front, zeros, behind := 0, 0, 0;
    if ladjust {
      behind := fill;
      AroundSides(num, neg, fill);
    } else if padc == '0' {
      zeros := fill;
      AroundZeros(num, neg, fill);
      if !neg {
        NoSign(num);
        NoSign(Repeat('0', fill));
      }
    } else {
      front := fill;
      AroundSides(num, neg, fill);
    }
  }

  /** Taking away the padding and reading the number gives it back, with its sign. */
  lemma PrintedRoundTrip(u: nat, base: nat, neg: bool, length: nat, ladjust: bool, padc: char, upcase: bool)
    requires IsBase(base) && (padc == ' ' || padc == '0')
    ensures Parse(Printed(u, base, neg, length, ladjust, padc, upcase), base) == (neg, u)
  {
    var front, zeros, behind := AdjustedShape(Digits(u, base, upcase), neg, length, ladjust, padc);
    CoreRoundTrip(u, base, neg, zeros, upcase);
    ParsePadded(front, Sign(neg) + (Repeat('0', zeros) + Digits(u, base, upcase)), behind, base);
  }

  /** Nothing is cut off, and nothing but the padding added. */
  lemma PrintedLength(u: nat, base: nat, neg: bool, length: nat, ladjust: bool, padc: char, upcase: bool)
    requires IsBase(base) && u < Pow2(WORD_BITS)
    ensures var n := |Digits(u, base, upcase)| + if neg then 1 else 0;
      |Printed(u, base, neg, length, ladjust, padc, upcase)| == Max(length, n) && n <= 33
  {
    FewDigits(u, base, upcase, WORD_BITS);
  }

  // ---- The loops ------------------------------------------------------------------------------

  function Reverse(s: string): (r: string)
    ensures |r| == |s| && forall i :: 0 <= i < |s| ==> r[i] == s[|s| - 1 - i]
  {
    if s == "" then "" else Reverse(s[1..]) + [s[0]]
  }

  /** The digits as the loop makes them: least significant first. */
  function Backwards(u: nat, base: nat, upcase: bool): string
    requires IsBase(base)
  {
    if u < base then [DigitChar(u, upcase)] else [DigitChar(u % base, upcase)] + Backwards(u / base, base, upcase)
  }

  lemma {:induction false} BackwardsIsReverse(u: nat, base: nat, upcase: bool)
    requires IsBase(base)
    ensures Reverse(Backwards(u, base, upcase)) == Digits(u, base, upcase)
    decreases u
  {
    if u >= base {
      Smaller(u, base);
      BackwardsIsReverse(u / base, base, upcase);
    }
  }

  method PutDigit(buf: array<char>, n: nat, tmp: nat, upcase: bool)
    requires n < buf.Length && tmp < 16
    modifies buf
    ensures buf[..n + 1] == old(buf[..n]) + [DigitChar(tmp, upcase)]
  {
    if tmp <= 9 {
      buf[n] := '0' + tmp as char;
    } else if upcase {
      buf[n] := 'A' + (tmp - 10) as char;
    } else {
      buf[n] := 'a' + (tmp - 10) as char;
    }
  }

  /** One round of the digit loop: the digit put is the next one, the others are left. */
  method PutNext(buf: array<char>, n: nat, u: nat, base: nat, upcase: bool) returns (rest: nat)
    requires IsBase(base) && n + |Backwards(u, base, upcase)| <= buf.Length
    modifies buf
    ensures rest != 0 ==> rest < u
    ensures old(buf[..n]) + Backwards(u, base, upcase) == buf[..n + 1] + Left(rest, base, upcase)
  {
    var tmp := u % base;
    rest := u / base;
    NextDigit(u, base, upcase, tmp, rest);
    PutDigit(buf, n, tmp, upcase);
  }

  function Left(rest: nat, base: nat, upcase: bool): string
    requires IsBase(base)
  {
    if rest == 0 then "" else Backwards(rest, base, upcase)
  }

  /** The number's digits into the buffer, from the last on. */
  method PutDigits(buf: array<char>, u: nat, base: nat, upcase: bool) returns (n: nat)
    requires IsBase(base) && |Backwards(u, base, upcase)| <= buf.Length
    modifies buf
    ensures n == |Backwards(u, base, upcase)| && buf[..n] == Backwards(u, base, upcase)
  {
    n := 0;
    var rest := PutNext(buf, n, u, base, upcase);
    n := n + 1;
    while rest != 0
      invariant n <= buf.Length && buf[..n] + Left(rest, base, upcase) == Backwards(u, base, upcase)
      decreases rest
    {
      rest := PutNext(buf, n, rest, base, upcase);
      n := n + 1;
    }
    assert buf[..n] + "" == buf[..n];
  }

  lemma SmallDivision(u: nat, base: nat)
    requires IsBase(base)
    ensures u < base ==> u / base == 0 && u % base == u
    ensures u >= base ==> 0 < u / base < u
  {
  }

  lemma NextDigit(u: nat, base: nat, upcase: bool, tmp: nat, rest: nat)
    requires IsBase(base) && tmp == u % base && rest == u / base
    ensures tmp < 16 && (rest != 0 ==> rest < u)
    ensures Backwards(u, base, upcase) == [DigitChar(tmp, upcase)] + Left(rest, base, upcase)
  {
    SmallDivision(u, base);
  }

  /** The in-place reversal of buf[..n]. */
  method ReverseInPlace(buf: array<char>, n: nat)
    requires n <= buf.Length
    modifies buf
    ensures buf[..n] == Reverse(old(buf[..n])) && buf[n..] == old(buf[n..])
  {
    var begin: int, end: int := 0, n - 1;
    while end > begin
      invariant 0 <= begin && begin + end == n - 1 && begin <= end + 1
      invariant forall i :: 0 <= i < n ==> buf[i] == if begin <= i <= end then old(buf[i]) else old(buf[n - 1 - i])
      invariant forall i :: n <= i < buf.Length ==> buf[i] == old(buf[i])
    {
      var tmp := buf[begin];
      buf[begin] := buf[end];
      buf[end] := tmp;
      begin, end := begin + 1, end - 1;
    }
  }

  /** A padding loop: c from position n up to position m. */
  method Fill(buf: array<char>, n: nat, m: nat, c: char)
    requires n <= m <= buf.Length
    modifies buf
    ensures buf[..m] == old(buf[..n]) + Repeat(c, m - n)
  {
    for i := n to m
      invariant buf[..n] == old(buf[..n]) && forall k :: n <= k < i ==> buf[k] == c
    {
      buf[i] := c;
    }
    assert buf[..m] == buf[..n] + buf[n..m];
    assert buf[n..m] == Repeat(c, m - n);
  }

  /** What the buffer holds before the reversal, when the digits are num. */
  function Filled(num: string, neg: bool, length: nat, ladjust: bool, padc: char): string {
    var fill := Max(length, |num| + |Sign(neg)|) - |num| - |Sign(neg)|;
    if neg && !ladjust && padc == '0' then num + Repeat('0', fill) + Sign(neg)
    else num + Sign(neg) + Repeat(if ladjust then ' ' else padc, fill)
  }

  lemma ReverseConcat(s: string, t: string)
    ensures Reverse(s + t) == Reverse(t) + Reverse(s)
  {
  }

  lemma ReverseRepeat(c: char, n: nat)
    ensures Reverse(Repeat(c, n)) == Repeat(c, n)
  {
  }

  lemma ReversedThree(a: string, b: string, c: string)
    ensures Reverse(a + b + c) == Reverse(c) + (Reverse(b) + Reverse(a))
  {
    ReverseConcat(a + b, c);
    ReverseConcat(a, b);
  }

  /** Reversing the whole buffer, or on the left only sign and digits, gives what is printed. */
  lemma ReversalPrints(num: string, neg: bool, length: nat, ladjust: bool, padc: char, end: nat)
    requires end == if ladjust then |num| + |Sign(neg)| else |Filled(num, neg, length, ladjust, padc)|
    ensures var filled := Filled(num, neg, length, ladjust, padc);
      && end <= |filled|
      && Reverse(filled[..end]) + filled[end..] == Adjusted(Reverse(num), neg, length, ladjust, padc)
  {
    var sign, filled := Sign(neg), Filled(num, neg, length, ladjust, padc);
    var fill := Max(length, |num| + |sign|) - |num| - |sign|;
    SignReversed(neg);
    if ladjust {
      ReverseConcat(num, sign);
      TakeAndDrop(num + sign, Repeat(' ', fill));
    } else {
      TakeAndDrop(filled, "");
      FilledReversed(num, sign, fill, padc);
    }
  }

  lemma FilledReversed(num: string, sign: string, fill: nat, padc: char)
    requires Reverse(sign) == sign
    ensures Reverse(num + Repeat(padc, fill) + sign) == sign + Repeat(padc, fill) + Reverse(num)
    ensures Reverse(num + sign + Repeat(padc, fill)) == Repeat(padc, fill) + (sign + Reverse(num))
  {
    ReverseRepeat(padc, fill);
    ReversedThree(num, Repeat(padc, fill), sign);
    Regroup(sign, Repeat(padc, fill), Reverse(num));
    ReversedThree(num, sign, Repeat(padc, fill));
  }

  lemma SignReversed(neg: bool)
    ensures Reverse(Sign(neg)) == Sign(neg)
  {
  }

  lemma TakeAndDrop(s: string, t: string)
    ensures (s + t)[..|s|] == s && (s + t)[|s|..] == t && s + "" == s
  {
  }

  lemma Regroup(s: string, t: string, r: string)
    ensures s + (t + r) == s + t + r
  {
  }

  /** Sign and padding behind the digits already there. */
  method Pad(buf: array<char>, digits: nat, neg: bool, length: nat, ladjust: bool, padc: char)
    returns (actualLength: nat, full: nat)
    requires digits < buf.Length && length < buf.Length
    modifies buf
    ensures actualLength == digits + |Sign(neg)| && actualLength <= full <= buf.Length
    ensures buf[..full] == Filled(old(buf[..digits]), neg, length, ladjust, padc)
  {
    actualLength := digits;
    ghost var num := buf[..digits];
    if neg {
      buf[actualLength] := '-';
      actualLength := actualLength + 1;
    }
    assert buf[..digits] == num && buf[..actualLength] == num + Sign(neg);
    full := if length < actualLength then actualLength else length;
    var pad := if ladjust then ' ' else padc;
    if neg && !ladjust && pad == '0' {
      Fill(buf, actualLength - 1, full - 1, pad);
      buf[full - 1] := '-';
    } else {
      Fill(buf, actualLength, full, pad);
    }
  }

  /** print_num.  The buffer of `length` + 70 characters is large enough for every 32-bit
      number in every base. */
  method PrintNum(u: nat, base: nat, neg: bool, length: nat, ladjust: bool, padc: char, upcase: bool)
    returns (out: string)
    requires IsBase(base) && u < Pow2(WORD_BITS)
    ensures out == Printed(u, base, neg, length, ladjust, padc, upcase)
  {
    FewDigits(u, base, upcase, WORD_BITS);
    BackwardsIsReverse(u, base, upcase);
    var buf := new char[length + 70];
    var digits := PutDigits(buf, u, base, upcase);
    ghost var num := buf[..digits];
    var actualLength, full := Pad(buf, digits, neg, length, ladjust, padc);
    var end := if ladjust then actualLength else full;
    ReversalPrints(num, neg, length, ladjust, padc, end);
    out := Reversed(buf, end, full);
  }

  /** Reverses buf[..end]; the characters up to full are the output. */
  method Reversed(buf: array<char>, end: nat, full: nat) returns (out: string)
    requires end <= full <= buf.Length
    modifies buf
    ensures var filled := old(buf[..full]); out == Reverse(filled[..end]) + filled[end..]
  {
    ghost var filled := buf[..full];
    ghost var behind := buf[end..];
    assert filled[..end] == buf[..end] && filled[end..] == behind[..full - end];
    ReverseInPlace(buf, end);
    assert buf[..full] == buf[..end] + buf[end..][..full - end];
    out := buf[..full];
  }
}
