/** Decimal rendering of integers as Python's `str(int)` does it, the
    `', '.join(...)` of such renderings used in conversion notes, and a
    reader for that list so the rendering can be shown to lose nothing. */
module Decimal {
  import opened Optional
  import opened Words

  /** One of the ASCII decimal digits `0`..`9`. */
  predicate IsDigit(c: char)
  {
    '0' <= c <= '9'
  }

  /** The digit character for a value below ten. */
  function DigitChar(d: nat): (c: char)
    requires d < 10
    ensures IsDigit(c)
  {
    (48 + d) as char
  }

  /** The value of a digit character. */
  function DigitValue(c: char): (d: nat)
    requires IsDigit(c)
    ensures d < 10
  {
    c as int - 48
  }

  /** Decimal digits of `n`, most significant first, without leading zeros. */
  function NatToDecimal(n: nat): (s: string)
    ensures |s| > 0
    ensures forall i :: 0 <= i < |s| ==> IsDigit(s[i])
  {
    if n < 10 then [DigitChar(n)] else NatToDecimal(n / 10) + [DigitChar(n % 10)]
  }

  /** Python's `str(n)` for an integer: a minus sign for negatives. */
  function IntToDecimal(n: int): (s: string)
    ensures |s| > 0
    ensures s[0] == '-' <==> n < 0
    ensures forall i :: (if n < 0 then 1 else 0) <= i < |s| ==> IsDigit(s[i])
  {
    if n < 0 then "-" + NatToDecimal(-n) else NatToDecimal(n)
  }

  /** The value of a string of decimal digits. */
  function DigitsValue(s: string): nat
    requires forall i :: 0 <= i < |s| ==> IsDigit(s[i])
  {
    if |s| == 0 then 0 else DigitsValue(s[..|s| - 1]) * 10 + DigitValue(s[|s| - 1])
  }

  /** Number of leading decimal digits of `s`. */
  function DigitRun(s: string): (n: nat)
    ensures n <= |s|
    ensures forall i :: 0 <= i < n ==> IsDigit(s[i])
  {
    if |s| == 0 || !IsDigit(s[0]) then 0 else 1 + DigitRun(s[1..])
  }

  /** Reads a run of decimal digits from the front of `s`, returning its
      value and its length. */
  function ReadNat(s: string): (r: Option<(nat, nat)>)
    ensures r.Some? ==> 0 < r.value.1 <= |s|
  {
    var n := DigitRun(s);
    if n == 0 then None else Some((DigitsValue(s[..n]), n))
  }

  /** Reads an optionally negative decimal integer from the front of `s`,
      returning its value and the number of characters it occupies. */
  function ReadInt(s: string): (r: Option<(int, nat)>)
    ensures r.Some? ==> 0 < r.value.1 <= |s|
  {
    if |s| > 0 && s[0] == '-' then Negated(ReadNat(s[1..])) else AsInt(ReadNat(s))
  }

  /** A read magnitude preceded by a minus sign. */
  function Negated(r: Option<(nat, nat)>): Option<(int, nat)>
  {
    if r.Some? then Some((-(r.value.0 as int), r.value.1 + 1)) else None
  }

  /** A read magnitude taken as a non-negative integer, its length unchanged. */
  function AsInt(r: Option<(nat, nat)>): Option<(int, nat)>
  {
    if r.Some? then Some((r.value.0 as int, r.value.1)) else None
  }

  /** Reads integers separated by `", "` that make up all of `s`. */
  function ReadIntList(s: string): Option<seq<int>>
    decreases |s|
  {
    match ReadInt(s)
    case None => None
    case Some((v, n)) =>
      if n == |s| then Some([v])
      else if n + 2 <= |s| && s[n..n + 2] == ", " then
        match ReadIntList(s[n + 2..])
        case None => None
        case Some(vs) => Some([v] + vs)
      else None
  }

  /** The decimal renderings of `ids`, in order. */
  function DecimalList(ids: seq<int>): (r: seq<string>)
    ensures |r| == |ids|
  {
    if |ids| == 0 then [] else [IntToDecimal(ids[0])] + DecimalList(ids[1..])
  }

  /** Python's `', '.join([str(id) for id in ids])`. */
  function IdListText(ids: seq<int>): (r: string)
    ensures |r| == 0 <==> |ids| == 0
    ensures |ids| > 0 ==> |IntToDecimal(ids[0])| <= |r| && r[..|IntToDecimal(ids[0])|] == IntToDecimal(ids[0])
  {
    Join(DecimalList(ids), ", ")
  }

  /** Reading back the digits of `n` gives `n`. */
  lemma {:induction false} NatToDecimalValue(n: nat)
    ensures DigitsValue(NatToDecimal(n)) == n
  {
    if n >= 10 {
      var s := NatToDecimal(n);
      assert s[..|s| - 1] == NatToDecimal(n / 10);
      NatToDecimalValue(n / 10);
    }
  }

  /** The digit run of a rendering followed by a non-digit is the rendering. */
  lemma {:induction false} DigitRunStops(d: string, t: string)
    requires forall i :: 0 <= i < |d| ==> IsDigit(d[i])
    requires |t| == 0 || !IsDigit(t[0])
    ensures DigitRun(d + t) == |d|
    decreases |d|
  {
    if |d| == 0 {
      assert d + t == t;
    } else {
      assert (d + t)[1..] == d[1..] + t;
      DigitRunStops(d[1..], t);
    }
  }

  /** Reading an integer back from its rendering, when a non-digit (or
      nothing) follows, gives the integer and the rendering's length. */
  lemma ReadIntOfDecimal(v: int, t: string)
    requires |t| == 0 || !IsDigit(t[0])
    ensures ReadInt(IntToDecimal(v) + t) == Some((v, |IntToDecimal(v)|))
  {
    if v < 0 {
      ReadNegativeDecimal(-v, t);
      assert IntToDecimal(v) == ['-'] + NatToDecimal(-v);
    } else {
      ReadNatDecimal(v, t);
      ReadNonNegative(NatToDecimal(v) + t, v, |NatToDecimal(v)|);
    }
  }

  /** The digits of `m` read back as `m`, when a non-digit (or nothing)
      follows. */
  lemma ReadNatDecimal(m: nat, t: string)
    requires |t| == 0 || !IsDigit(t[0])
    ensures ReadNat(NatToDecimal(m) + t) == Some((m, |NatToDecimal(m)|))
  {
    ReadDigits(NatToDecimal(m), t);
    NatToDecimalValue(m);
  }

  /** A minus sign followed by the digits of `m` reads back as `-m`, one character longer than the digits. */
  lemma ReadNegativeDecimal(m: nat, t: string)
    requires |t| == 0 || !IsDigit(t[0])
    ensures ReadInt(['-'] + NatToDecimal(m) + t) == Some((-(m as int), |NatToDecimal(m)| + 1))
  {
    var d := NatToDecimal(m);
    ReadNatDecimal(m, t);
    ReadNegative(d + t, m, |d|);
    assert ['-'] + d + t == ['-'] + (d + t);
  }

  /** A minus sign in front of a magnitude negates it and takes one more
      character. */
  lemma ReadNegative(rest: string, v: nat, n: nat)
    requires ReadNat(rest) == Some((v, n))
    ensures ReadInt(['-'] + rest) == Some((-(v as int), n + 1))
  {
    ReadIntMinus(rest);
  }

  /** With a leading minus sign, the integer read is the negated magnitude after it. */
  lemma ReadIntMinus(rest: string)
    ensures ReadInt(['-'] + rest) == Negated(ReadNat(rest))
  {
    var s := ['-'] + rest;
    assert s[0] == '-' && s[1..] == rest;
  }

  /** Without a sign, the magnitude is the value. */
  lemma ReadNonNegative(s: string, v: nat, n: nat)
    requires ReadNat(s) == Some((v, n)) && IsDigit(s[0])
    ensures ReadInt(s) == Some((v as int, n))
  {
  }

  /** A non-empty run of digits followed by a non-digit (or nothing) reads as its value and its own length. */
  lemma ReadDigits(d: string, t: string)
    requires |d| > 0 && forall i :: 0 <= i < |d| ==> IsDigit(d[i])
    requires |t| == 0 || !IsDigit(t[0])
    ensures ReadNat(d + t) == Some((DigitsValue(d), |d|))
  {
    DigitRunStops(d, t);
    assert (d + t)[..|d|] == d;
  }

  /** Round trip: the `', '`-joined renderings of a non-empty id list read
      back as exactly that list. */
  lemma {:induction false} ReadIdListText(ids: seq<int>)
    requires |ids| > 0
    ensures ReadIntList(IdListText(ids)) == Some(ids)
    decreases |ids|
  {
    var first := IntToDecimal(ids[0]);
    if |ids| == 1 {
      assert DecimalList(ids) == [first];
      assert IdListText(ids) == first;
      ReadIntOfDecimal(ids[0], "");
      assert first + "" == first;
      assert ReadInt(first) == Some((ids[0], |first|));
      assert ids == [ids[0]];
    } else {
      var rest := IdListText(ids[1..]);
      assert DecimalList(ids)[1..] == DecimalList(ids[1..]);
      assert IdListText(ids) == first + (", " + rest);
      ReadIntOfDecimal(ids[0], ", " + rest);
      var s := first + (", " + rest);
      var n := |first|;
      assert s[n..n + 2] == ", ";
      assert s[n + 2..] == rest;
      ReadIdListText(ids[1..]);
      assert [ids[0]] + ids[1..] == ids;
    }
  }
}
