/** The frame codec of the inference bridge: the Rust encoder, the C++ decoder, and the
    extraction of the encoded frame from its JSON envelope (section 4 of RFC 4648). */
module Base64 {
  import opened Arithmetic
  import opened Common

  const UPPER := "ABCDEFGHIJKLMNOPQRSTUVWXYZ"
  const LOWER := "abcdefghijklmnopqrstuvwxyz"
  const DIGITS := "0123456789"
  const CHARS := UPPER + LOWER + DIGITS + "+/"
  const WORD: nat := 0x1_0000_0000

  /** The character of a six-bit value. */
  function Symbol(v: nat): char
    requires v < 64
  {
    CHARS[v]
  }

  function CharValue(c: char): int {
    if 'A' <= c <= 'Z' then c as int - 'A' as int
    else if 'a' <= c <= 'z' then c as int - 'a' as int + 26
    else if '0' <= c <= '9' then c as int - '0' as int + 52
    else if c == '+' then 62
    else if c == '/' then 63
    else -1
  }

  lemma UpperTable(v: nat)
    requires v < 26
    ensures UPPER[v] as int == 'A' as int + v
  {
  }

  lemma LowerTable(v: nat)
    requires v < 26
    ensures LOWER[v] as int == 'a' as int + v
  {
  }

  lemma DigitTable(v: nat)
    requires v < 10
    ensures DIGITS[v] as int == '0' as int + v
  {
  }

  /** The decoder's case distinction inverts the encoder's table. */
  lemma SymbolHasValue(v: nat)
    requires v < 64
    ensures CharValue(Symbol(v)) == v
  {
    if v < 26 {
      UpperTable(v);
      assert Symbol(v) == UPPER[v];
    } else if v < 52 {
      LowerTable(v - 26);
      assert Symbol(v) == LOWER[v - 26];
    } else if v < 62 {
      DigitTable(v - 52);
      assert Symbol(v) == DIGITS[v - 52];
    } else {
      assert Symbol(v) == "+/"[v - 62];
    }
  }

  // ---- The encoder ----

  /** Three bytes as one 24-bit group. */
  function Triple(b0: Byte, b1: Byte, b2: Byte): nat {
    b0 as nat * 0x1_0000 + b1 as nat * 0x100 + b2 as nat
  }

  /** Bits 18, 12, 6 and 0 upwards of a 24-bit group. */
  function Sextet(triple: nat, i: nat): nat
    requires i < 4
    ensures Sextet(triple, i) < 64
  {
    match i
    case 0 => triple / 0x4_0000 % 64
    case 1 => triple / 0x1000 % 64
    case 2 => triple / 64 % 64
    case 3 => triple % 64
  }

  function Encode(data: seq<Byte>): seq<char> {
    if |data| >= 3 then
      var triple := Triple(data[0], data[1], data[2]);
      [Symbol(Sextet(triple, 0)), Symbol(Sextet(triple, 1)), Symbol(Sextet(triple, 2)), Symbol(Sextet(triple, 3))]
      + Encode(data[3..])
    else if |data| == 2 then
      var triple := Triple(data[0], data[1], 0);
      [Symbol(Sextet(triple, 0)), Symbol(Sextet(triple, 1)), Symbol(Sextet(triple, 2)), '=']
    else if |data| == 1 then
      var triple := Triple(data[0], 0, 0);
      [Symbol(Sextet(triple, 0)), Symbol(Sextet(triple, 1)), '=', '=']
    else []
  }

  lemma EncodeStep(data: seq<Byte>, i: nat)
    requires i + 3 <= |data|
    ensures var triple := Triple(data[i], data[i + 1], data[i + 2]);
            Encode(data[i..]) ==
            [Symbol(Sextet(triple, 0)), Symbol(Sextet(triple, 1)), Symbol(Sextet(triple, 2)), Symbol(Sextet(triple, 3))]
            + Encode(data[i + 3..])
  {
    hide Symbol, Sextet, Triple;
    assert data[i..][3..] == data[i + 3..];
  }

  lemma EncodeTail(rest: seq<Byte>)
    requires |rest| < 3
    ensures rest == [] ==> Encode(rest) == []
    ensures |rest| == 1 ==>
              var triple := Triple(rest[0], 0, 0);
              Encode(rest) == [Symbol(Sextet(triple, 0)), Symbol(Sextet(triple, 1)), '=', '=']
    ensures |rest| == 2 ==>
              var triple := Triple(rest[0], rest[1], 0);
              Encode(rest) == [Symbol(Sextet(triple, 0)), Symbol(Sextet(triple, 1)), Symbol(Sextet(triple, 2)), '=']
  {
  }

  /** Whole chunks of three bytes, then the tail. */
  method EncodeFrame(data: seq<Byte>) returns (out: seq<char>)
    ensures out == Encode(data)
  {
    hide Symbol, Sextet, Triple, Encode;
    out := [];
    var quad := new char[4](_ => 'A');
    var i := 0;
    while i + 3 <= |data|
      invariant i <= |data|
      invariant out + Encode(data[i..]) == Encode(data)
    {
      var triple := Triple(data[i], data[i + 1], data[i + 2]);
      quad[0] := Symbol(Sextet(triple, 0));
      quad[1] := Symbol(Sextet(triple, 1));
      quad[2] := Symbol(Sextet(triple, 2));
      quad[3] := Symbol(Sextet(triple, 3));
      EncodeStep(data, i);
      assert quad[..] == [quad[0], quad[1], quad[2], quad[3]];
      out := out + quad[..];
      i := i + 3;
    }
    var rest := data[i..];
    EncodeTail(rest);
    if |rest| == 1 {
      var triple := Triple(rest[0], 0, 0);
      out := out + [Symbol(Sextet(triple, 0)), Symbol(Sextet(triple, 1)), '=', '='];
    } else if |rest| == 2 {
      var triple := Triple(rest[0], rest[1], 0);
      out := out + [Symbol(Sextet(triple, 0)), Symbol(Sextet(triple, 1)), Symbol(Sextet(triple, 2)), '='];
    }
  }

  // ---- The decoder ----

  predicate Skipped(c: char) {
    c == '=' || c == '\n' || c == '\r' || c == ' ' || CharValue(c) < 0
  }

  /** The accumulator after one more symbol, as a 32-bit word. */
  function Shift(val: nat, d: nat): nat {
    (val * 64 + d) % WORD
  }

  function Power(n: int): nat
    requires 0 <= n <= 4
  {
    match n
    case 0 => 1
    case 1 => 2
    case 2 => 4
    case 3 => 8
    case 4 => 16
  }

  /** The number of bits that wait in the accumulator, less eight. */
  predicate Waiting(valb: int) {
    valb == -8 || valb == -6 || valb == -4 || valb == -2
  }

  function DecodeFrom(val: nat, valb: int, s: seq<char>): seq<Byte>
    requires Waiting(valb)
    decreases |s|
  {
    if s == [] then []
    else if Skipped(s[0]) then DecodeFrom(val, valb, s[1..])
    else
      var val' := Shift(val, CharValue(s[0]));
      if valb + 6 >= 0 then [val' / Power(valb + 6) % 256] + DecodeFrom(val', valb - 2, s[1..])
      else DecodeFrom(val', valb + 6, s[1..])
  }

  function Decode(s: seq<char>): seq<Byte> {
    DecodeFrom(0, -8, s)
  }

  method DecodeFrame(s: seq<char>) returns (out: seq<Byte>)
    ensures out == Decode(s)
  {
    out := [];
    var val: nat, valb := 0, -8;
    for i := 0 to |s|
      invariant Waiting(valb)
      invariant out + DecodeFrom(val, valb, s[i..]) == Decode(s)
    {
      var c := s[i];
      assert s[i..][1..] == s[i + 1..];
      if c == '=' || c == '\n' || c == '\r' || c == ' ' {
        continue;
      }
      var d := CharValue(c);
      if d < 0 {
        continue;
      }
      val := Shift(val, d);
      valb := valb + 6;
      if valb >= 0 {
        out := out + [val / Power(valb) % 256];
        valb := valb - 8;
      }
    }
  }

  /** Of the accumulator only the waiting bits matter, so neither overflow of the word
      nor what went through it earlier has any effect: after each symbol at most its low
      twelve bits are read. */
  lemma {:induction false} OnlyWaitingBitsMatter(val: nat, other: nat, valb: int, s: seq<char>)
    requires Waiting(valb)
    requires valb == -6 ==> val % 4 == other % 4
    requires valb == -4 ==> val % 16 == other % 16
    requires valb == -2 ==> val % 64 == other % 64
    ensures DecodeFrom(val, valb, s) == DecodeFrom(other, valb, s)
    decreases |s|
  {
    if s != [] {
      if Skipped(s[0]) {
        OnlyWaitingBitsMatter(val, other, valb, s[1..]);
      } else {
        var d := CharValue(s[0]);
        LowBits(val, other, valb, d);
        OnlyWaitingBitsMatter(Shift(val, d), Shift(other, d), if valb + 6 >= 0 then valb - 2 else valb + 6, s[1..]);
      }
    }
  }

  /** The word's wrap-around leaves the low bits alone. */
  lemma Wraps(q: nat, x: nat, m: nat) returns (k: nat)
    requires m == 256 || m == 1024 || m == 4096
    requires x < m
    ensures (m * q + x) % WORD == m * k + x
  {
    if m == 256 {
      var (p, l) := (q / 0x100_0000, q % 0x100_0000);
      Quotient(256 * q + x, WORD, p, 256 * l + x);
      k := l;
    } else if m == 1024 {
      var (p, l) := (q / 0x40_0000, q % 0x40_0000);
      Quotient(1024 * q + x, WORD, p, 1024 * l + x);
      k := l;
    } else {
      var (p, l) := (q / 0x10_0000, q % 0x10_0000);
      Quotient(4096 * q + x, WORD, p, 4096 * l + x);
      k := l;
    }
  }

  /** With n bits waiting (m = 2 to the n + 6), the shifted word is the waiting bits and
      the new symbol, under bits that no longer count. */
  lemma ShiftedWord(val: nat, d: nat, n: nat, m: nat) returns (k: nat)
    requires d < 64 && ((n == 4 && m == 256) || (n == 16 && m == 1024) || (n == 64 && m == 4096))
    ensures val % n * 64 + d < m
    ensures Shift(val, d) == m * k + (val % n * 64 + d)
  {
    var q, r := val / n, val % n;
    assert val == n * q + r;
    assert val * 64 + d == m * q + (r * 64 + d);
    k := Wraps(q, r * 64 + d, m);
  }

  lemma OutputByte(k: nat, x: nat, n: nat)
    requires (n == 4 && x < 256) || (n == 16 && x < 1024) || (n == 64 && x < 4096)
    ensures n == 4 ==> (256 * k + x) % 256 == x
    ensures n == 16 ==> (1024 * k + x) / 4 % 256 == x / 4 && (1024 * k + x) % 4 == x % 4
    ensures n == 64 ==> (4096 * k + x) / 16 % 256 == x / 16 && (4096 * k + x) % 16 == x % 16
  {
    if n == 4 {
      Quotient(256 * k + x, 256, k, x);
    } else if n == 16 {
      Quotient(1024 * k + x, 4, 256 * k + x / 4, x % 4);
      Quotient(256 * k + x / 4, 256, k, x / 4);
    } else {
      Quotient(4096 * k + x, 16, 256 * k + x / 16, x % 16);
      Quotient(256 * k + x / 16, 256, k, x / 16);
    }
  }

  lemma LowBits(val: nat, other: nat, valb: int, d: nat)
    requires Waiting(valb) && d < 64
    requires valb == -6 ==> val % 4 == other % 4
    requires valb == -4 ==> val % 16 == other % 16
    requires valb == -2 ==> val % 64 == other % 64
    ensures var (a, b) := (Shift(val, d), Shift(other, d));
            && (valb == -8 ==> a % 64 == b % 64)
            && (valb == -6 ==> a % 256 == b % 256)
            && (valb == -4 ==> a / 4 % 256 == b / 4 % 256 && a % 4 == b % 4)
            && (valb == -2 ==> a / 16 % 256 == b / 16 % 256 && a % 16 == b % 16)
  {
    if valb == -8 {
      FirstSymbol(val, d);
      FirstSymbol(other, d);
    } else {
      var n := if valb == -6 then 4 else if valb == -4 then 16 else 64;
      hide Shift;
      var k := ShiftedWord(val, d, n, n * 64);
      var l := ShiftedWord(other, d, n, n * 64);
      OutputByte(k, val % n * 64 + d, n);
      OutputByte(l, val % n * 64 + d, n);
    }
  }

  lemma FirstSymbol(val: nat, d: nat)
    requires d < 64
    ensures Shift(val, d) % 64 == d
  {
    var k := Wraps(val / 64, val % 64 * 64 + d, 4096);
  }

  /** Characters outside the alphabet, padding and line breaks included, are ignored. */
  function Cleaned(s: seq<char>): seq<char> {
    if s == [] then [] else if Skipped(s[0]) then Cleaned(s[1..]) else [s[0]] + Cleaned(s[1..])
  }

  lemma {:induction false} DecodeIgnoresOthers(val: nat, valb: int, s: seq<char>)
    requires Waiting(valb)
    ensures DecodeFrom(val, valb, s) == DecodeFrom(val, valb, Cleaned(s))
    decreases |s|
  {
    if s != [] {
      if Skipped(s[0]) {
        DecodeIgnoresOthers(val, valb, s[1..]);
      } else {
        var val' := Shift(val, CharValue(s[0]));
        DecodeIgnoresOthers(val', if valb + 6 >= 0 then valb - 2 else valb + 6, s[1..]);
        assert Cleaned(s)[1..] == Cleaned(s[1..]);
      }
    }
  }

  // ---- The round trip ----

  lemma FirstSextet(b0: nat, low: nat)
    requires b0 < 256 && low < 0x1_0000
    ensures (b0 * 0x1_0000 + low) / 0x4_0000 % 64 == b0 / 4
  {
    var (q, e) := (b0 / 4, b0 % 4);
    Quotient(b0 * 0x1_0000 + low, 0x4_0000, q, e * 0x1_0000 + low);
    Quotient(q, 64, 0, q);
  }

  lemma SecondSextet(b0: nat, b1: nat, b2: nat)
    requires b0 < 256 && b1 < 256 && b2 < 256
    ensures (b0 * 0x1_0000 + b1 * 0x100 + b2) / 0x1000 % 64 == b0 % 4 * 16 + b1 / 16
  {
    var (q, e) := (b1 / 16, b1 % 16);
    var (h, l) := (b0 / 4, b0 % 4);
    Quotient(b0 * 0x1_0000 + b1 * 0x100 + b2, 0x1000, b0 * 16 + q, e * 0x100 + b2);
    Quotient(b0 * 16 + q, 64, h, l * 16 + q);
  }

  lemma ThirdSextet(b0: nat, b1: nat, b2: nat)
    requires b0 < 256 && b1 < 256 && b2 < 256
    ensures (b0 * 0x1_0000 + b1 * 0x100 + b2) / 64 % 64 == b1 % 16 * 4 + b2 / 64
  {
    var (q, e) := (b2 / 64, b2 % 64);
    var (h, l) := (b1 / 16, b1 % 16);
    Quotient(b0 * 0x1_0000 + b1 * 0x100 + b2, 64, b0 * 1024 + b1 * 4 + q, e);
    Quotient(b0 * 1024 + b1 * 4 + q, 64, b0 * 16 + h, l * 4 + q);
  }

  lemma FourthSextet(b0: nat, b1: nat, b2: nat)
    requires b0 < 256 && b1 < 256 && b2 < 256
    ensures (b0 * 0x1_0000 + b1 * 0x100 + b2) % 64 == b2 % 64
  {
    var (q, e) := (b2 / 64, b2 % 64);
    Quotient(b0 * 0x1_0000 + b1 * 0x100 + b2, 64, b0 * 1024 + b1 * 4 + q, e);
  }

  /** The six-bit values of a group, byte by byte. */
  lemma Sextets(b0: Byte, b1: Byte, b2: Byte)
    ensures var t := Triple(b0, b1, b2);
            && Sextet(t, 0) == b0 / 4
            && Sextet(t, 1) == b0 % 4 * 16 + b1 / 16
            && Sextet(t, 2) == b1 % 16 * 4 + b2 / 64
            && Sextet(t, 3) == b2 % 64
  {
    FirstSextet(b0, b1 as nat * 0x100 + b2);
    SecondSextet(b0, b1, b2);
    ThirdSextet(b0, b1, b2);
    FourthSextet(b0, b1, b2);
  }

  lemma SymbolsAreNotSkipped(v: nat)
    requires v < 64
    ensures !Skipped(Symbol(v))
    ensures Symbol(v) != '=' && Symbol(v) != '"'
  {
    SymbolHasValue(v);
  }

  /** One symbol of the encoder, read by the decoder. */
  lemma ReadSymbol(val: nat, valb: int, v: nat, rest: seq<char>)
    requires Waiting(valb) && v < 64
    ensures DecodeFrom(val, valb, [Symbol(v)] + rest) ==
            var val' := Shift(val, v);
            if valb + 6 >= 0 then [val' / Power(valb + 6) % 256] + DecodeFrom(val', valb - 2, rest)
            else DecodeFrom(val', valb + 6, rest)
  {
    hide Symbol, Shift;
    SymbolHasValue(v);
    SymbolsAreNotSkipped(v);
    assert ([Symbol(v)] + rest)[1..] == rest;
  }

  /** The first two symbols of a group give its first byte, and so on. */
  lemma ReadTwo(b0: Byte, low: nat, rest: seq<char>)
    requires low < 16
    ensures DecodeFrom(0, -8, [Symbol(b0 / 4)] + ([Symbol(b0 % 4 * 16 + low)] + rest))
         == [b0] + DecodeFrom(b0 / 4 * 64 + (b0 % 4 * 16 + low), -4, rest)
  {
    hide Symbol, DecodeFrom;
    ReadSymbol(0, -8, b0 / 4, [Symbol(b0 % 4 * 16 + low)] + rest);
    ReadSymbol(b0 / 4, -2, b0 % 4 * 16 + low, rest);
  }

  lemma MiddleByte(val: nat, b1: nat, low: nat)
    requires low < 4 && val < 4096 && b1 < 256 && val % 16 == b1 / 16
    ensures Shift(val, b1 % 16 * 4 + low) == val * 64 + (b1 % 16 * 4 + low)
    ensures (val * 64 + (b1 % 16 * 4 + low)) / 4 % 256 == b1
  {
    assert val * 64 + (b1 % 16 * 4 + low) == (val * 16 + b1 % 16) * 4 + low;
    assert val * 16 + b1 % 16 == val / 16 * 256 + (b1 / 16 * 16 + b1 % 16);
  }

  lemma ReadThird(val: nat, b1: Byte, low: nat, rest: seq<char>)
    requires low < 4 && val < 4096 && val % 16 == b1 / 16
    ensures DecodeFrom(val, -4, [Symbol(b1 % 16 * 4 + low)] + rest)
         == [b1] + DecodeFrom(val * 64 + (b1 % 16 * 4 + low), -6, rest)
  {
    hide Symbol, DecodeFrom;
    var s: nat := b1 % 16 * 4 + low;
    ReadSymbol(val, -4, s, rest);
    MiddleByte(val, b1, low);
  }

  lemma LastByte(val: nat, b2: nat)
    requires val < 0x4_0000 && val % 4 == b2 / 64 && b2 < 256
    ensures Shift(val, b2 % 64) % 256 == b2
  {
    var w := val * 64 + b2 % 64;
    Quotient(w, WORD, 0, w);
    Quotient(w, 256, val / 4, val % 4 * 64 + b2 % 64);
  }

  lemma ReadFourth(val: nat, b2: Byte, rest: seq<char>)
    requires val < 0x4_0000 && val % 4 == b2 / 64
    ensures DecodeFrom(val, -6, [Symbol(b2 % 64)] + rest) == [b2] + DecodeFrom(0, -8, rest)
  {
    hide Symbol, DecodeFrom, Shift;
    LastByte(val, b2);
    ReadSymbol(val, -6, b2 % 64, rest);
    OnlyWaitingBitsMatter(Shift(val, b2 % 64), 0, -8, rest);
  }

  lemma PaddingDecodesToNothing(val: nat, valb: int)
    requires Waiting(valb)
    ensures DecodeFrom(val, valb, ['=']) == [] && DecodeFrom(val, valb, ['=', '=']) == []
  {
    assert ['=', '='][1..] == ['='];
  }

  lemma {:induction false} RoundTripGroup(b0: Byte, b1: Byte, b2: Byte, rest: seq<char>)
    ensures DecodeFrom(0, -8, [Symbol(b0 / 4), Symbol(b0 % 4 * 16 + b1 / 16),
                               Symbol(b1 % 16 * 4 + b2 / 64), Symbol(b2 % 64)] + rest)
         == [b0, b1, b2] + DecodeFrom(0, -8, rest)
  {
    hide Symbol, DecodeFrom;
    var (s0, s1, s2, s3) := (b0 / 4, b0 % 4 * 16 + b1 / 16, b1 % 16 * 4 + b2 / 64, b2 % 64);
    var r3 := [Symbol(s3)] + rest;
    var r2 := [Symbol(s2)] + r3;
    assert [Symbol(s0), Symbol(s1), Symbol(s2), Symbol(s3)] + rest == [Symbol(s0)] + ([Symbol(s1)] + r2);
    ReadTwo(b0, b1 / 16, r2);
    ReadThird(s0 * 64 + s1, b1, b2 / 64, r3);
    ReadFourth((s0 * 64 + s1) * 64 + s2, b2, rest);
  }

  /** Decoding what was encoded gives back every byte sequence. */
  lemma {:induction false} RoundTrip(data: seq<Byte>)
    ensures Decode(Encode(data)) == data
    decreases |data|
  {
    hide Symbol, DecodeFrom, Sextet, Triple;
    if |data| >= 3 {
      Sextets(data[0], data[1], data[2]);
      RoundTripGroup(data[0], data[1], data[2], Encode(data[3..]));
      RoundTrip(data[3..]);
      assert data == [data[0], data[1], data[2]] + data[3..];
    } else if |data| == 2 {
      var (b0, b1) := (data[0], data[1]);
      var val: nat := b0 as nat / 4 * 64 + (b0 as nat % 4 * 16 + b1 as nat / 16);
      Sextets(b0, b1, 0);
      var tail := [Symbol(b1 % 16 * 4)] + ['='];
      assert Encode(data) == [Symbol(b0 / 4)] + ([Symbol(b0 % 4 * 16 + b1 / 16)] + tail);
      ReadTwo(b0, b1 / 16, tail);
      ReadThird(val, b1, 0, ['=']);
      PaddingDecodesToNothing(val * 64 + b1 as nat % 16 * 4, -6);
      assert data == [b0] + [b1];
    } else if |data| == 1 {
      var b0 := data[0];
      Sextets(b0, 0, 0);
      assert Encode(data) == [Symbol(b0 / 4)] + ([Symbol(b0 % 4 * 16)] + ['=', '=']);
      ReadTwo(b0, 0, ['=', '=']);
      PaddingDecodesToNothing(b0 as nat / 4 * 64 + b0 as nat % 4 * 16, -4);
      assert data == [b0];
    } else {
      DecodeNothing();
    }
  }

  lemma DecodeNothing()
    ensures Decode([]) == []
  {
  }

  /** The encoded text uses the alphabet only, pads to whole groups of four, and holds no
      quotation mark. */
  lemma {:induction false} EncodeShape(data: seq<Byte>)
    ensures |Encode(data)| == (|data| + 2) / 3 * 4
    ensures forall i | 0 <= i < |Encode(data)| :: Encode(data)[i] != '"'
    decreases |data|
  {
    hide Symbol, Sextet, Triple;
    if |data| >= 3 {
      EncodeShape(data[3..]);
    }
    forall v | 0 <= v < 64 ensures Symbol(v) != '"' {
      SymbolsAreNotSkipped(v);
    }
  }

  // ---- The JSON envelope ----

  const QUOTE := '"'
  const KEY := "\"frame_data_b64\":\""
  const HEAD := "{\"type\":\"infer\",\"frame_seq\":"

  predicate OccursAt(s: seq<char>, pattern: seq<char>, i: nat) {
    i + |pattern| <= |s| && s[i..i + |pattern|] == pattern
  }

  /** The first occurrence of a pattern at or after an index, as std::string::find gives it. */
  function Find(s: seq<char>, pattern: seq<char>, from: nat): (r: Option<nat>)
    ensures r.Some? ==> from <= r.value && OccursAt(s, pattern, r.value)
    ensures r.Some? ==> forall i | from <= i < r.value :: !OccursAt(s, pattern, i)
    ensures r.None? ==> forall i | from <= i :: !OccursAt(s, pattern, i)
    decreases |s| - from
  {
    if from > |s| then None
    else if OccursAt(s, pattern, from) then Some(from)
    else Find(s, pattern, from + 1)
  }

  function Extract(json: seq<char>): seq<char> {
    var key := Find(json, KEY, 0);
    if key.None? then []
    else
      var start := key.value + |KEY|;
      var end := Find(json, [QUOTE], start);
      if end.None? then [] else json[start..end.value]
  }

  /** The message as the client serialises it: the field names in order, the sequence
      number in digits, the frame, then the remaining fields. */
  function Envelope(number: seq<char>, encoded: seq<char>, tail: seq<char>): seq<char> {
    HEAD + number + "," + KEY + encoded + [QUOTE] + tail
  }

  predicate AllDigits(s: seq<char>) {
    forall i | 0 <= i < |s| :: '0' <= s[i] <= '9'
  }

  lemma OccursHere(s: seq<char>, pattern: seq<char>, i: nat, k: nat)
    requires k < |pattern|
    ensures OccursAt(s, pattern, i) ==> i + k < |s| && s[i + k] == pattern[k]
  {
    assert OccursAt(s, pattern, i) ==> s[i..i + |pattern|][k] == s[i + k];
  }

  lemma HeadQuotes(i: nat)
    requires i < |HEAD| && HEAD[i] == '"'
    ensures i + 1 < |HEAD| && (HEAD[i + 1] == 'f' ==> i == 16)
  {
  }

  /** The key's quotation mark and first letter fit the head in one place only, and there
      its seventh letter does not. */
  lemma NoKeyBefore(head: seq<char>, number: seq<char>, key: seq<char>, rest: seq<char>, i: nat)
    requires |key| > 7 && key[0] == '"' && key[1] == 'f' && key[7] == 'd'
    requires |head| > 23 && head[23] != 'd'
    requires forall j: nat | j < |head| && head[j] == '"' :: j + 1 < |head| && (head[j + 1] == 'f' ==> j == 16)
    requires '"' !in number
    requires i < |head + number|
    ensures !OccursAt(head + number + key + rest, key, i)
  {
    hide OccursAt;
    var json := head + number + key + rest;
    OccursHere(json, key, i, 0);
    OccursHere(json, key, i, 1);
    OccursHere(json, key, i, 7);
    assert i >= |head| ==> json[i] == number[i - |head|];
    assert i < |head| ==> json[i] == head[i];
    assert i + 1 < |head| ==> json[i + 1] == head[i + 1];
    assert json[23] == head[23];
  }

  /** In the client's message the key occurs first where the frame is, whatever the number
      and whatever follows. */
  lemma KeyComesFirst(number: seq<char>, rest: seq<char>, i: nat)
    requires AllDigits(number) && i < |HEAD + number + ","|
    ensures !OccursAt(HEAD + number + "," + KEY + rest, KEY, i)
  {
    hide OccursAt;
    forall j: nat | j < |HEAD| && HEAD[j] == '"'
      ensures j + 1 < |HEAD| && (HEAD[j + 1] == 'f' ==> j == 16)
    {
      HeadQuotes(j);
    }
    NoKeyBefore(HEAD, number + ",", KEY, rest, i);
    assert HEAD + (number + ",") + KEY + rest == HEAD + number + "," + KEY + rest;
  }

  lemma NoQuoteBefore(json: seq<char>, start: nat, end: nat)
    requires start <= end < |json| && json[end] == QUOTE
    requires forall i | start <= i < end :: json[i] != QUOTE
    ensures Find(json, [QUOTE], start) == Some(end)
  {
    assert OccursAt(json, [QUOTE], end);
    forall i | start <= i < end ensures !OccursAt(json, [QUOTE], i) {
      OccursHere(json, [QUOTE], i, 0);
    }
  }

  lemma KeyIsFound(number: seq<char>, rest: seq<char>)
    requires AllDigits(number)
    ensures Find(HEAD + number + "," + KEY + rest, KEY, 0) == Some(|HEAD + number + ","|)
  {
    var before := HEAD + number + ",";
    var json := before + KEY + rest;
    forall i: nat | i < |before| ensures !OccursAt(json, KEY, i) {
      hide *;
      KeyComesFirst(number, rest, i);
    }
    assert OccursAt(json, KEY, |before|) by {
      assert json[|before|..|before| + |KEY|] == KEY;
    }
  }

  /** The bridge finds in the client's message the very text that the client encoded. */
  lemma ExtractFindsEncoded(number: seq<char>, data: seq<Byte>, tail: seq<char>)
    requires AllDigits(number)
    ensures Extract(Envelope(number, Encode(data), tail)) == Encode(data)
  {
    hide Encode, Find, OccursAt, AllDigits;
    var encoded := Encode(data);
    var json := Envelope(number, encoded, tail);
    assert json == HEAD + number + "," + KEY + (encoded + [QUOTE] + tail);
    KeyIsFound(number, encoded + [QUOTE] + tail);
    var start := |HEAD + number + "," + KEY|;
    EncodeShape(data);
    forall i | start <= i < start + |encoded| ensures json[i] != QUOTE {
      assert json[i] == encoded[i - start];
    }
    NoQuoteBefore(json, start, start + |encoded|);
    assert json[start..start + |encoded|] == encoded;
  }

  /** The whole way of a frame: encoded, wrapped, extracted and decoded, it is the frame. */
  lemma FrameSurvivesTheBridge(number: seq<char>, data: seq<Byte>, tail: seq<char>)
    requires AllDigits(number)
    ensures Decode(Extract(Envelope(number, Encode(data), tail))) == data
  {
    ExtractFindsEncoded(number, data, tail);
    RoundTrip(data);
  }

  /** The examples of section 10 of RFC 4648. */
  lemma KnownTexts()
    ensures Encode([]) == ""
    ensures Encode([102]) == "Zg=="
    ensures Encode([102, 111]) == "Zm8="
    ensures Encode([102, 111, 111]) == "Zm9v"
  {
    hide Symbol, Triple, Sextet;
    Sextets(102, 0, 0);
    Sextets(102, 111, 0);
    Sextets(102, 111, 111);
    assert [102, 111, 111][3..] == [];
    KnownSymbols();
  }

  lemma KnownSymbols()
    ensures Symbol(25) == 'Z' && Symbol(32) == 'g' && Symbol(38) == 'm' && Symbol(60) == '8'
    ensures Symbol(61) == '9' && Symbol(47) == 'v'
  {
  }
}
