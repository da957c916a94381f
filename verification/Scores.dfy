/** Scores and their hexadecimal form (internal/blob/score.go). */
module Scores {
  import opened Wrappers

  type Byte = x: int | 0 <= x < 256
  type Bytes = seq<Byte>

  const SCORE_LENGTH := 20

  type Score = s: Bytes | |s| == SCORE_LENGTH witness seq(SCORE_LENGTH, _ => 0)

  function Digit(v: nat): (c: char)
    requires v < 16
    ensures IsHexDigit(c) && DigitValue(c) == v
  {
    if v < 10 then ('0' as int + v) as char else ('a' as int + v - 10) as char
  }

  predicate IsHexDigit(c: char) {
    '0' <= c <= '9' || 'a' <= c <= 'f'
  }

  function DigitValue(c: char): (v: nat)
    requires IsHexDigit(c)
    ensures v < 16
  {
    if c <= '9' then c as int - '0' as int else c as int - 'a' as int + 10
  }

  function HexByte(b: Byte): (s: string)
    ensures |s| == 2
  {
    [Digit(b / 16), Digit(b % 16)]
  }

  function Hex(b: Bytes): (s: string)
    ensures |s| == 2 * |b|
  {
    if b == [] then "" else HexByte(b[0]) + Hex(b[1..])
  }

  function DecodePair(hi: char, lo: char): Option<Byte> {
    if IsHexDigit(hi) && IsHexDigit(lo) then Some(DigitValue(hi) * 16 + DigitValue(lo)) else None
  }

  /** The bytes that a string of pairs of lower-case digits stands for. */
  function Decode(s: string): (r: Option<Bytes>)
    ensures r.Some? ==> |s| == 2 * |r.value|
  {
    if s == "" then Some([])
    else if |s| == 1 || DecodePair(s[0], s[1]).None? || Decode(s[2..]).None? then None
    else Some([DecodePair(s[0], s[1]).value] + Decode(s[2..]).value)
  }

  function ParsedScore(s: string): Option<Score> {
    if Decode(s).Some? && |s| == 2 * SCORE_LENGTH then Some(Decode(s).value) else None
  }

  lemma PairBijection(hi: char, lo: char, b: Byte)
    ensures DecodePair(hi, lo) == Some(b) <==> HexByte(b) == [hi, lo]
  {
    if IsHexDigit(hi) && IsHexDigit(lo) {
      var v, w := DigitValue(hi), DigitValue(lo);
      assert (v * 16 + w) / 16 == v && (v * 16 + w) % 16 == w;
      assert Digit(v) == hi && Digit(w) == lo;
    }
  }

  lemma {:induction false} DecodeHex(b: Bytes)
    ensures Decode(Hex(b)) == Some(b)
  {
    if b != [] {
      var s := Hex(b);
      DecodeHex(b[1..]);
      PairBijection(s[0], s[1], b[0]);
      assert s[2..] == Hex(b[1..]) && [s[0], s[1]] == HexByte(b[0]);
      assert b == [b[0]] + b[1..];
    }
  }

  lemma {:induction false} HexDecode(s: string)
    requires Decode(s).Some?
    ensures Hex(Decode(s).value) == s
  {
    if s != "" {
      var b := Decode(s).value;
      HexDecode(s[2..]);
      PairBijection(s[0], s[1], b[0]);
      assert b[1..] == Decode(s[2..]).value;
      assert s == [s[0], s[1]] + s[2..];
    }
  }

  /** Scores and the strings that parse as scores correspond one to one. */
  lemma HexBijection(score: Score, s: string)
    ensures ParsedScore(s) == Some(score) <==> s == Hex(score)
  {
    DecodeHex(score);
    if ParsedScore(s).Some? {
      HexDecode(s);
    }
  }

  /** What hexScoreRegexp accepts. */
  predicate IsHexScore(s: string) {
    |s| == 2 * SCORE_LENGTH && forall i :: 0 <= i < |s| ==> IsHexDigit(s[i])
  }

  lemma {:induction false} DigitsDecode(s: string)
    requires |s| % 2 == 0
    ensures Decode(s).Some? <==> forall i :: 0 <= i < |s| ==> IsHexDigit(s[i])
  {
    if s != "" {
      DigitsDecode(s[2..]);
      assert forall i :: 2 <= i < |s| ==> s[i] == s[2..][i - 2];
    }
  }

  lemma {:induction false} HexAppend(a: Bytes, b: Byte)
    ensures Hex(a + [b]) == Hex(a) + HexByte(b)
  {
    if a == [] {
      assert Hex([b]) == HexByte(b) + Hex([]);
    } else {
      HexAppend(a[1..], b);
      assert (a + [b])[1..] == a[1..] + [b];
    }
  }

  /** Accepts exactly what the regular expression does, and decodes it. */
  method ParseHexScore(hexScore: string) returns (r: Result<Score, Error>)
    ensures r.Success? <==> IsHexScore(hexScore)
    ensures r.Success? ==> ParsedScore(hexScore) == Some(r.value)
    ensures r.Failure? ==> ParsedScore(hexScore) == None
  {
    if |hexScore| == 2 * SCORE_LENGTH {
      DigitsDecode(hexScore);
    }
    if !IsHexScore(hexScore) {
      return Failure("Not a legal hex score: " + hexScore);
    }
    var decoded: Bytes := [];
    for i := 0 to SCORE_LENGTH
      invariant |decoded| == i && Hex(decoded) == hexScore[..2 * i]
    {
      var b := DecodePair(hexScore[2 * i], hexScore[2 * i + 1]).value;
      PairBijection(hexScore[2 * i], hexScore[2 * i + 1], b);
      HexAppend(decoded, b);
      decoded := decoded + [b];
    }
    HexBijection(decoded, hexScore);
    return Success(decoded);
  }

  /** Digits are those of base sixteen, in lower case, the more significant first. */
  lemma HexLooksLike(v: nat)
    requires v < 16
    ensures Digit(v) == "0123456789abcdef"[v]
    ensures Hex([171, 5]) == "ab05"
  {
    assert Hex([5]) == HexByte(5) + Hex([]);
    assert Hex([171, 5]) == HexByte(171) + Hex([5]);
  }
}
