/**
 * The string handling the screens rely on: decimal rendering of numbers
 * (template literals and `toString()`), `trim()`, the digits-only filter of
 * the PIN field, and reading an `HH:MM` wall-clock time.
 */
module Text {
  import opened Types

  predicate IsDigit(c: char) {
    '0' <= c <= '9'
  }

  predicate AllDigits(s: string) {
    forall i :: 0 <= i < |s| ==> IsDigit(s[i])
  }

  function DigitChar(d: nat): (c: char)
    requires d < 10
    ensures IsDigit(c)
  {
    ['0', '1', '2', '3', '4', '5', '6', '7', '8', '9'][d]
  }

  function DigitValue(c: char): (d: nat)
    requires IsDigit(c)
    ensures d < 10
  {
    (c as int - '0' as int) as nat
  }

  lemma DigitRoundTrip(d: nat)
    requires d < 10
    ensures DigitValue(DigitChar(d)) == d
  {
  }

  /** Decimal notation of a natural number, as `String(n)` prints it. */
  function NatToString(n: nat): (r: string)
    ensures |r| >= 1 && AllDigits(r)
    ensures n >= 10 ==> r[0] != '0'
    decreases n
  {
    if n < 10 then [DigitChar(n)] else NatToString(n / 10) + [DigitChar(n % 10)]
  }

  /** The value of a string of decimal digits. */
  function ParseNat(s: string): nat
    requires AllDigits(s)
  {
    if s == [] then 0 else 10 * ParseNat(s[..|s| - 1]) + DigitValue(s[|s| - 1])
  }

  /** Reading back what `NatToString` printed gives the number again. */
  lemma {:induction false} ParseNatToString(n: nat)
    ensures ParseNat(NatToString(n)) == n
    decreases n
  {
    var r := NatToString(n);
    if n < 10 {
      DigitRoundTrip(n);
    } else {
      ParseNatToString(n / 10);
      assert r[..|r| - 1] == NatToString(n / 10);
      DigitRoundTrip(n % 10);
    }
  }

  /** Five-digit numbers print as exactly five digits. */
  lemma {:induction false} FiveDigits(n: nat)
    requires 10000 <= n <= 99999
    ensures |NatToString(n)| == 5 && NatToString(n)[0] != '0'
  {
    assert n / 1000 / 10 == n / 10000 && 1 <= n / 10000 <= 9;
    assert |NatToString(n / 10000)| == 1;
    assert n / 100 / 10 == n / 1000 && 10 <= n / 1000;
    assert |NatToString(n / 1000)| == 2;
    assert n / 10 / 10 == n / 100 && 100 <= n / 100;
    assert |NatToString(n / 100)| == 3;
    assert 1000 <= n / 10;
    assert |NatToString(n / 10)| == 4;
  }

  /** Decimal notation of an integer, with a leading minus sign when negative. */
  function IntToString(i: int): (r: string)
    ensures |r| >= 1
    ensures i >= 0 ==> AllDigits(r)
    ensures i < 0 ==> r[0] == '-' && AllDigits(r[1..])
  {
    if i < 0 then "-" + NatToString(-i) else NatToString(i)
  }

  /**
   * The characters `String.prototype.trim` removes: white space (tab,
   * vertical tab, form feed, the byte-order mark and the space separators)
   * and line terminators.
   */
  predicate IsSpace(c: char) {
    || c == '\t' || c == '\n' || c == '\U{000B}' || c == '\U{000C}' || c == '\r' || c == ' '
    || c == '\U{00A0}' || c == '\U{1680}' || '\U{2000}' <= c <= '\U{200A}'
    || c == '\U{2028}' || c == '\U{2029}' || c == '\U{202F}' || c == '\U{205F}'
    || c == '\U{3000}' || c == '\U{FEFF}'
  }

  function TrimStart(s: string): (r: string)
    ensures |r| <= |s| && r == s[|s| - |r|..]
    ensures r == [] || !IsSpace(r[0])
    ensures forall i :: 0 <= i < |s| - |r| ==> IsSpace(s[i])
  {
    if s != [] && IsSpace(s[0]) then TrimStart(s[1..]) else s
  }

  function TrimEnd(s: string): (r: string)
    ensures |r| <= |s| && r == s[..|r|]
    ensures r == [] || !IsSpace(r[|r| - 1])
    ensures forall i :: |r| <= i < |s| ==> IsSpace(s[i])
  {
    if s != [] && IsSpace(s[|s| - 1]) then TrimEnd(s[..|s| - 1]) else s
  }

  /**
   * `s.trim()`: the middle part of `s` that neither starts nor ends with white
   * space; everything cut off on either side is white space, so the result is
   * empty exactly when `s` is all white space.
   */
  function Trim(s: string): (r: string)
    ensures r == [] || (!IsSpace(r[0]) && !IsSpace(r[|r| - 1]))
    ensures exists k :: 0 <= k <= |s| - |r| && s[k..k + |r|] == r && SpaceOutside(s, k, |r|)
    ensures r == [] <==> Blank(s)
  {
    var t := TrimStart(s);
    var r := TrimEnd(t);
    var k := |s| - |t|;
    assert s[k..k + |r|] == r;
    forall i | k + |r| <= i < |s|
      ensures IsSpace(s[i])
    {
      assert s[i] == t[i - k];
    }
    assert SpaceOutside(s, k, |r|);
    assert r != [] ==> s[k] == r[0];
    r
  }

  /** Everything of `s` before position `k` and from `k + n` on is white space. */
  predicate SpaceOutside(s: string, k: nat, n: nat) {
    && (forall i :: 0 <= i < k && i < |s| ==> IsSpace(s[i]))
    && (forall i :: k + n <= i < |s| ==> IsSpace(s[i]))
  }

  /** Trimming keeps only characters of the text. */
  lemma TrimChars(s: string)
    ensures forall c :: c in Trim(s) ==> c in s
  {
    var t := TrimStart(s);
    var r := TrimEnd(t);
    forall c | c in r
      ensures c in s
    {
      var j :| 0 <= j < |r| && r[j] == c;
      assert s[|s| - |t| + j] == c;
    }
  }

  /** A text that neither starts nor ends with white space is already trimmed. */
  lemma TrimOfTrimmed(s: string)
    requires s == [] || (!IsSpace(s[0]) && !IsSpace(s[|s| - 1]))
    ensures Trim(s) == s
  {
  }

  /** Trimming twice is trimming once. */
  lemma TrimIdempotent(s: string)
    ensures Trim(Trim(s)) == Trim(s)
  {
    TrimOfTrimmed(Trim(s));
  }

  /** A concatenation is blank exactly when both parts are. */
  lemma BlankAppend(a: string, b: string)
    ensures Blank(a + b) <==> Blank(a) && Blank(b)
  {
    if Blank(a + b) {
      forall i | 0 <= i < |a|
        ensures IsSpace(a[i])
      {
        assert a[i] == (a + b)[i];
      }
      forall i | 0 <= i < |b|
        ensures IsSpace(b[i])
      {
        assert b[i] == (a + b)[|a| + i];
      }
    }
  }

  /** A text made of white space only. */
  predicate Blank(s: string) {
    forall i :: 0 <= i < |s| ==> IsSpace(s[i])
  }

  /**
   * `text.replace(/\D/g, '')`: the digits of `s`, in order; `KeepDigitsAppend`
   * and `KeepDigitsOfChar` pin down which, and in what order.
   */
  function KeepDigits(s: string): (r: string)
    ensures AllDigits(r) && |r| <= |s|
    ensures forall c :: c in r <==> c in s && IsDigit(c)
  {
    if s == [] then []
    else if IsDigit(s[|s| - 1]) then KeepDigits(s[..|s| - 1]) + [s[|s| - 1]]
    else KeepDigits(s[..|s| - 1])
  }

  /** A single character is kept exactly when it is a digit. */
  lemma KeepDigitsOfChar(c: char)
    ensures KeepDigits([c]) == if IsDigit(c) then [c] else []
  {
    assert [c][..0] == [];
  }

  /** Filtering a concatenation filters each part and keeps them in order. */
  lemma {:induction false} KeepDigitsAppend(a: string, b: string)
    ensures KeepDigits(a + b) == KeepDigits(a) + KeepDigits(b)
    decreases |b|
  {
    if b == [] {
      assert a + b == a;
    } else {
      var init := b[..|b| - 1];
      assert (a + b)[..|a + b| - 1] == a + init;
      assert (a + b)[|a + b| - 1] == b[|b| - 1];
      KeepDigitsAppend(a, init);
    }
  }

  /** Two-digit rendering used for clock minutes and hours. */
  function TwoDigits(n: nat): (r: string)
    requires n < 100
    ensures |r| == 2 && AllDigits(r)
  {
    [DigitChar(n / 10), DigitChar(n % 10)]
  }

  /**
   * Reads a wall-clock time written `H:MM` or `HH:MM` (hours 0..23, minutes
   * 0..59) into minutes since midnight; anything else yields None, which is
   * where JavaScript's date parser produces an invalid date.
   */
  function ParseClock(s: string): (r: Option<int>)
    ensures r.Some? ==> 0 <= r.value < 24 * 60
  {
    if |s| == 4 && IsDigit(s[0]) && s[1] == ':' && IsDigit(s[2]) && IsDigit(s[3]) then
      var m := ParseNat(s[2..]);
      if m < 60 then Some(60 * DigitValue(s[0]) + m) else None
    else if |s| == 5 && AllDigits(s[..2]) && s[2] == ':' && AllDigits(s[3..]) then
      var h, m := ParseNat(s[..2]), ParseNat(s[3..]);
      if h < 24 && m < 60 then Some(60 * h + m) else None
    else None
  }

  /** `HH:MM` for a number of minutes since midnight. */
  function ClockString(minutes: nat): (r: string)
    requires minutes < 24 * 60
    ensures |r| == 5 && r[2] == ':'
  {
    TwoDigits(minutes / 60) + ":" + TwoDigits(minutes % 60)
  }

  lemma TwoDigitsValue(n: nat)
    requires n < 100
    ensures ParseNat(TwoDigits(n)) == n
  {
    var r := TwoDigits(n);
    assert r[..1] == [DigitChar(n / 10)];
    assert r[..1][..0] == [];
    DigitRoundTrip(n / 10);
    DigitRoundTrip(n % 10);
  }

  /** Every time the form could show reads back as itself. */
  lemma ParseClockString(minutes: nat)
    requires minutes < 24 * 60
    ensures ParseClock(ClockString(minutes)) == Some(minutes)
  {
    var s := ClockString(minutes);
    assert s[..2] == TwoDigits(minutes / 60);
    assert s[3..] == TwoDigits(minutes % 60);
    TwoDigitsValue(minutes / 60);
    TwoDigitsValue(minutes % 60);
  }
}
