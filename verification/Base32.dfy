/** The base32 codec of one-time-password secrets, unpadded (section 6 of RFC 4648). */
module Base32 {
  type Byte = b: nat | b < 256

  const ALPHABET: string := "ABCDEFGHIJKLMNOPQRSTUVWXYZ234567"

  // ------------------------------------------------------------------- bits

  function Pow2(k: nat): nat {
    if k == 0 then 1 else 2 * Pow2(k - 1)
  }

  /** Binary digits of `v`, most significant first, padded to `width`. */
  function Bits(v: nat, width: nat): (r: seq<bool>)
    ensures |r| == width
  {
    if width == 0 then [] else Bits(v / 2, width - 1) + [v % 2 == 1]
  }

  function Value(bits: seq<bool>): (v: nat)
    ensures v < Pow2(|bits|)
  {
    if |bits| == 0 then 0
    else
      var n := |bits| - 1;
      2 * Value(bits[..n]) + (if bits[n] then 1 else 0)
  }

  lemma {:induction false} ValueOfBits(v: nat, width: nat)
    requires v < Pow2(width)
    ensures Value(Bits(v, width)) == v
  {
    if width > 0 {
      ValueOfBits(v / 2, width - 1);
      assert Bits(v, width)[..width - 1] == Bits(v / 2, width - 1);
    }
  }

  lemma {:induction false} BitsOfValue(bits: seq<bool>)
    ensures Bits(Value(bits), |bits|) == bits
  {
    if |bits| == 0 {
    } else {
      var n := |bits| - 1;
      BitsOfValue(bits[..n]);
      assert bits == bits[..n] + [bits[n]];
    }
  }

  lemma {:induction false} PowersUsed()
    ensures Pow2(5) == 32 && Pow2(8) == 256
  {
    assert Pow2(3) == 8 && Pow2(4) == 16 && Pow2(6) == 64 && Pow2(7) == 128;
  }

  /** Whole groups of `k` bits, as numbers; what does not fill a group is dropped. */
  function Groups(bits: seq<bool>, k: nat): (r: seq<nat>)
    requires k > 0
    ensures forall i :: 0 <= i < |r| ==> r[i] < Pow2(k)
  {
    if |bits| < k then [] else [Value(bits[..k])] + Groups(bits[k..], k)
  }

  // ---------------------------------------------------------------- letters

  /** `ALPHABET.indexOf(c)`. */
  function IndexOf(s: string, c: char): (i: int)
    ensures -1 <= i < |s|
    ensures i >= 0 ==> s[i] == c
    ensures i == -1 <==> c !in s
  {
    if |s| == 0 then -1
    else if s[0] == c then 0
    else
      var i := IndexOf(s[1..], c);
      if i < 0 then -1 else i + 1
  }

  /** Letter number `v`, by character code. */
  function Letter(v: nat): char
    requires v < 32
  {
    if v < 26 then ('A' as int + v) as char else ('2' as int + (v - 26)) as char
  }

  /** The number of a letter, or -1. */
  function Position(c: char): (v: int)
    ensures -1 <= v < 32
    ensures v >= 0 ==> Letter(v) == c
  {
    if 'A' <= c <= 'Z' then c as int - 'A' as int
    else if '2' <= c <= '7' then c as int - '2' as int + 26
    else -1
  }

  lemma {:induction false} AlphabetByCode(v: nat)
    requires v < 32
    ensures ALPHABET[v] == Letter(v)
  {
  }

  /** Looking a character up in the alphabet string finds its number, and finds nothing else. */
  lemma {:induction false} PositionIsIndex(c: char)
    ensures IndexOf(ALPHABET, c) == Position(c)
  {
    var i, p := IndexOf(ALPHABET, c), Position(c);
    if i >= 0 {
      AlphabetByCode(i);
    }
    if p >= 0 {
      AlphabetByCode(p);
      assert ALPHABET[p] in ALPHABET;
    }
  }

  function AlphabetIndex(c: char): (i: int)
    ensures i == Position(c)
  {
    PositionIsIndex(c);
    IndexOf(ALPHABET, c)
  }

  function Letters(values: seq<nat>): (r: string)
    requires forall i :: 0 <= i < |values| ==> values[i] < 32
    ensures |r| == |values|
  {
    seq(|values|, i requires 0 <= i < |values| => Letter(values[i]))
  }

  // ------------------------------------------------------------------ codec

  function ByteBits(bytes: seq<Byte>): (r: seq<bool>)
    ensures |r| == 8 * |bytes|
  {
    if |bytes| == 0 then [] else Bits(bytes[0], 8) + ByteBits(bytes[1..])
  }

  function Encode(bytes: seq<Byte>): string {
    PowersUsed();
    Letters(Groups(ByteBits(bytes), 5))
  }

  /** `/=+$/` removed. */
  function TrimPadding(s: string): string {
    if |s| > 0 && s[|s| - 1] == '=' then TrimPadding(s[..|s| - 1]) else s
  }

  function UpperChar(c: char): char {
    if 'a' <= c <= 'z' then (c as int - 'a' as int + 'A' as int) as char else c
  }

  function Upper(s: string): (r: string)
    ensures |r| == |s| && forall i :: 0 <= i < |s| ==> r[i] == UpperChar(s[i])
  {
    seq(|s|, i requires 0 <= i < |s| => UpperChar(s[i]))
  }

  predicate InAlphabet(c: char) {
    Position(c) >= 0
  }

  function CharBits(c: char): (r: seq<bool>)
    ensures !InAlphabet(c) ==> r == []
  {
    var v := Position(c);
    if v < 0 then [] else Bits(v, 5)
  }

  lemma {:induction false} CharBitsOfLetter(v: nat)
    requires v < 32
    ensures CharBits(Letter(v)) == Bits(v, 5)
  {
    hide Bits;
    assert Position(Letter(v)) == v;
  }

  function LetterBits(s: string): seq<bool> {
    if |s| == 0 then [] else CharBits(s[0]) + LetterBits(s[1..])
  }

  function Decode(secret: string): (r: seq<Byte>) {
    PowersUsed();
    var values := Groups(LetterBits(Upper(TrimPadding(secret))), 8);
    seq(|values|, i requires 0 <= i < |values| => values[i] as Byte)
  }

  // ------------------------------------------------------------- algorithms

  lemma {:induction false} LetterBitsFrom(s: string, k: nat)
    requires k < |s|
    ensures LetterBits(s[k..]) == CharBits(s[k]) + LetterBits(s[k + 1..])
  {
    assert s[k..][1..] == s[k + 1..];
  }

  lemma {:induction false} ByteBitsFrom(bytes: seq<Byte>, k: nat)
    requires k < |bytes|
    ensures ByteBits(bytes[k..]) == Bits(bytes[k], 8) + ByteBits(bytes[k + 1..])
  {
    assert bytes[k..][1..] == bytes[k + 1..];
  }

  lemma {:induction false} NoBytes()
    ensures forall s: seq<Byte> :: |s| == 0 ==> ByteBits(s) == []
  {
  }

  lemma {:induction false} GroupsFrom(bits: seq<bool>, i: nat, k: nat)
    requires k > 0 && i + k <= |bits|
    ensures Groups(bits[i..], k) == [Value(bits[i..i + k])] + Groups(bits[i + k..], k)
  {
    assert bits[i..][..k] == bits[i..i + k] && bits[i..][k..] == bits[i + k..];
  }

  /** `generateTotpSecret`, on the random bytes drawn. */
  method GenerateTotpSecret(buf: seq<Byte>) returns (out: string)
    ensures out == Encode(buf)
  {
    hide Bits, Value, Pow2, ByteBits, Groups, Letter;
    PowersUsed();
    var bits: seq<bool> := [];
    NoBytes();
    for k := 0 to |buf|
      invariant bits + ByteBits(buf[k..]) == ByteBits(buf)
    {
      ByteBitsFrom(buf, k);
      bits := bits + Bits(buf[k], 8);
    }
    assert bits == ByteBits(buf);
    out := "";
    var i := 0;
    while i + 5 <= |bits|
      invariant 0 <= i <= |bits|
      invariant out + Letters(Groups(bits[i..], 5)) == Letters(Groups(bits, 5))
    {
      GroupsFrom(bits, i, 5);
      var value := Value(bits[i..i + 5]);
      assert Letters(Groups(bits[i..], 5)) == [Letter(value)] + Letters(Groups(bits[i + 5..], 5));
      AlphabetByCode(value);
      out := out + [ALPHABET[value]];
      i := i + 5;
    }
    NoGroups(bits[i..], 5);
    assert out == out + Letters(Groups(bits[i..], 5));
  }

  method Base32ToBuffer(secret: string) returns (bytes: seq<Byte>)
    ensures bytes == Decode(secret)
  {
    hide AlphabetIndex, Position, LetterBits, Bits, Value, Pow2, Groups, TrimPadding, UpperChar;
    PowersUsed();
    var cleaned := Upper(TrimPadding(secret));
    var bits: seq<bool> := [];
    NoLetters();
    for k := 0 to |cleaned|
      invariant bits + LetterBits(cleaned[k..]) == LetterBits(cleaned)
    {
      LetterBitsFrom(cleaned, k);
      var val := AlphabetIndex(cleaned[k]);
      if val >= 0 {
        bits := bits + Bits(val, 5);
      }
    }
    assert bits == LetterBits(cleaned);
    bytes := [];
    var i := 0;
    while i + 8 <= |bits|
      invariant 0 <= i <= |bits|
      invariant forall k :: 0 <= k < |bytes| ==> bytes[k] < 256
      invariant bytes + Groups(bits[i..], 8) == Groups(bits, 8)
    {
      GroupsFrom(bits, i, 8);
      bytes := bytes + [Value(bits[i..i + 8])];
      i := i + 8;
    }
    NoGroups(bits[i..], 8);
    assert bytes == Groups(bits, 8);
  }

  lemma {:induction false} NoLetters()
    ensures forall s: string :: |s| == 0 ==> LetterBits(s) == []
  {
  }

  lemma {:induction false} NoGroups(bits: seq<bool>, k: nat)
    requires k > 0 && |bits| < k
    ensures Groups(bits, k) == []
  {
  }

  // ------------------------------------------------------------- round trips

  lemma {:induction false} LettersCons(values: seq<nat>)
    requires |values| > 0 && forall i :: 0 <= i < |values| ==> values[i] < 32
    ensures LetterBits(Letters(values)) == Bits(values[0], 5) + LetterBits(Letters(values[1..]))
  {
    hide Letter, CharBits, Bits;
    assert Letters(values)[1..] == Letters(values[1..]);
    CharBitsOfLetter(values[0]);
  }

  /** Letters give back the bits they were made of, up to the last whole group of five. */
  lemma {:induction false} BitsThroughLetters(bits: seq<bool>)
    ensures Pow2(5) == 32 && LetterBits(Letters(Groups(bits, 5))) == bits[..5 * (|bits| / 5)]
  {
    hide Letter, CharBits, Bits, Value, LetterBits;
    PowersUsed();
    NoLetters();
    if |bits| >= 5 {
      BitsThroughLetters(bits[5..]);
      LettersCons(Groups(bits, 5));
      assert Groups(bits, 5)[1..] == Groups(bits[5..], 5);
      BitsOfValue(bits[..5]);
      assert bits[..5 * (|bits| / 5)] == bits[..5] + bits[5..][..5 * (|bits[5..]| / 5)];
    }
  }

  /** Whole bytes come back from any prefix of their bits. */
  lemma {:induction false} BytesThroughBits(bytes: seq<Byte>, m: nat)
    requires m <= 8 * |bytes|
    ensures Groups(ByteBits(bytes)[..m], 8) == bytes[..m / 8]
  {
    if m >= 8 {
      PowersUsed();
      var bits := ByteBits(bytes);
      ValueOfBits(bytes[0], 8);
      BytesThroughBits(bytes[1..], m - 8);
      assert bits[..m][..8] == Bits(bytes[0], 8);
      assert bits[..m][8..] == ByteBits(bytes[1..])[..m - 8];
      assert bytes[..m / 8] == [bytes[0]] + bytes[1..][..(m - 8) / 8];
    }
  }

  lemma {:induction false} AlphabetIsClean(v: nat)
    requires v < 32
    ensures Letter(v) != '=' && UpperChar(Letter(v)) == Letter(v)
  {
  }

  lemma {:induction false} LettersAreClean(values: seq<nat>)
    requires forall i :: 0 <= i < |values| ==> values[i] < 32
    ensures Upper(TrimPadding(Letters(values))) == Letters(values)
  {
    forall i | 0 <= i < |values| ensures Letter(values[i]) != '=' && UpperChar(Letter(values[i])) == Letter(values[i]) {
      AlphabetIsClean(values[i]);
    }
    assert TrimPadding(Letters(values)) == Letters(values);
  }

  /** Decoding an encoding gives back the bytes whose bits all made it into whole letters. */
  lemma {:induction false} RoundTrip(bytes: seq<Byte>)
    ensures Decode(Encode(bytes)) == bytes[..5 * (8 * |bytes| / 5) / 8]
  {
    hide Letter, CharBits, Bits, Value, LetterBits, Groups, TrimPadding, UpperChar;
    PowersUsed();
    var bits := ByteBits(bytes);
    LettersAreClean(Groups(bits, 5));
    BitsThroughLetters(bits);
    BytesThroughBits(bytes, 5 * (|bits| / 5));
  }

  /** Whole letters hold all of n bytes exactly when five divides n. */
  lemma {:induction false} WholeLetters(n: nat)
    ensures 5 * (8 * n / 5) / 8 == n <==> n % 5 == 0
  {
    var q, r := n / 5, n % 5;
    assert 8 * n / 5 == 8 * q + 8 * r / 5;
    assert 5 * (8 * n / 5) / 8 == 5 * q + 5 * (8 * r / 5) / 8;
  }

  /** Nothing is lost exactly for lengths divisible by five, such as the default of twenty. */
  lemma {:induction false} RoundTripExactly(bytes: seq<Byte>)
    ensures Decode(Encode(bytes)) == bytes <==> |bytes| % 5 == 0
  {
    hide Decode, Encode;
    RoundTrip(bytes);
    WholeLetters(|bytes|);
    var kept := 5 * (8 * |bytes| / 5) / 8;
    assert |bytes[..kept]| == kept;
  }

  /** Letters that make whole bytes come back from the bytes. */
  lemma {:induction false} RoundTripOfLetters(values: seq<nat>)
    requires (forall i :: 0 <= i < |values| ==> values[i] < 32) && |values| % 8 == 0
    ensures Encode(Decode(Letters(values))) == Letters(values)
  {
    hide Decode, Encode, Letters, LetterBits, Groups, ByteBits, Pow2;
    var bits := LetterBits(Letters(values));
    ValuesThroughBits(values);
    BitsThroughBytes(bits);
    DecodedLetters(values);
    EncodedBytes(Decode(Letters(values)));
  }

  lemma {:induction false} DecodedLetters(values: seq<nat>)
    requires forall i :: 0 <= i < |values| ==> values[i] < 32
    ensures Decode(Letters(values)) == Groups(LetterBits(Letters(values)), 8)
  {
    hide Letter, LetterBits, Groups, TrimPadding, UpperChar, Pow2;
    PowersUsed();
    LettersAreClean(values);
  }

  lemma {:induction false} EncodedBytes(bytes: seq<Byte>)
    ensures forall i :: 0 <= i < |Groups(ByteBits(bytes), 5)| ==> Groups(ByteBits(bytes), 5)[i] < 32
    ensures Encode(bytes) == Letters(Groups(ByteBits(bytes), 5))
  {
    PowersUsed();
  }

  lemma {:induction false} ValuesThroughBits(values: seq<nat>)
    requires forall i :: 0 <= i < |values| ==> values[i] < 32
    ensures var bits := LetterBits(Letters(values)); |bits| == 5 * |values| && Groups(bits, 5) == values
  {
    hide Letter, CharBits, Bits, Value, LetterBits;
    PowersUsed();
    NoLetters();
    if |values| == 0 {
    } else {
      ValuesThroughBits(values[1..]);
      LettersCons(values);
      ValueOfBits(values[0], 5);
      var bits := LetterBits(Letters(values));
      assert bits[..5] == Bits(values[0], 5) && bits[5..] == LetterBits(Letters(values[1..]));
    }
  }

  lemma {:induction false} BitsThroughBytes(bits: seq<bool>)
    requires |bits| % 8 == 0
    ensures forall i :: 0 <= i < |Groups(bits, 8)| ==> Groups(bits, 8)[i] < 256
    ensures ByteBits(Groups(bits, 8)) == bits
  {
    PowersUsed();
    if |bits| >= 8 {
      BitsThroughBytes(bits[8..]);
      BitsOfValue(bits[..8]);
      assert Groups(bits, 8)[1..] == Groups(bits[8..], 8);
      assert bits == bits[..8] + bits[8..];
    }
  }

  // ------------------------------------------------- what decoding looks at

  function Kept(c: char): (r: string)
    ensures |r| <= 1
  {
    if InAlphabet(UpperChar(c)) then [UpperChar(c)] else ""
  }

  /** The letters of a secret that count: those of the alphabet, in upper case. */
  function Significant(s: string): string {
    if |s| == 0 then "" else Kept(s[0]) + Significant(s[1..])
  }

  lemma {:induction false} KeptBits(c: char, rest: string)
    ensures LetterBits(Kept(c) + rest) == CharBits(UpperChar(c)) + LetterBits(rest)
  {
    hide UpperChar, InAlphabet, CharBits;
    if InAlphabet(UpperChar(c)) {
      assert (Kept(c) + rest)[1..] == rest;
    } else {
      assert CharBits(UpperChar(c)) == [];
      assert Kept(c) + rest == rest;
    }
  }

  lemma {:induction false} SignificantBits(s: string)
    ensures LetterBits(Upper(s)) == LetterBits(Significant(s))
  {
    hide UpperChar, Kept, CharBits;
    if |s| == 0 {
    } else {
      SignificantBits(s[1..]);
      assert Upper(s)[1..] == Upper(s[1..]);
      KeptBits(s[0], Significant(s[1..]));
    }
  }

  lemma {:induction false} SignificantConcat(s: string, t: string)
    ensures Significant(s + t) == Significant(s) + Significant(t)
  {
    hide Kept;
    if |s| == 0 {
      assert s + t == t;
    } else {
      assert (s + t)[1..] == s[1..] + t;
      SignificantConcat(s[1..], t);
      assert Significant(s + t) == Kept(s[0]) + (Significant(s[1..]) + Significant(t));
    }
  }

  lemma {:induction false} PaddingIsForeign()
    ensures Kept('=') == ""
  {
  }

  lemma {:induction false} PaddingInsignificant(s: string)
    ensures Significant(TrimPadding(s)) == Significant(s)
  {
    hide Kept;
    if |s| > 0 && s[|s| - 1] == '=' {
      var n := |s| - 1;
      PaddingInsignificant(s[..n]);
      SignificantConcat(s[..n], [s[n]]);
      assert s == s[..n] + [s[n]];
      PaddingIsForeign();
      assert Significant([s[n]]) == "";
    }
  }

  /**
   * Padding, letter case, and any character outside the alphabet do not change the decoded bytes:
   * secrets with the same significant letters decode alike.
   */
  lemma {:induction false} OnlyLettersMatter(s: string, t: string)
    requires Significant(s) == Significant(t)
    ensures Decode(s) == Decode(t)
  {
    hide UpperChar, InAlphabet, LetterBits, Groups, Significant, TrimPadding;
    PaddingInsignificant(s);
    PaddingInsignificant(t);
    SignificantBits(TrimPadding(s));
    SignificantBits(TrimPadding(t));
  }

  /** In particular a secret decodes like its padded form and like any form that differs in letter case. */
  lemma {:induction false} PaddedAndLowered(s: string, padding: string, lowered: string)
    requires forall i :: 0 <= i < |padding| ==> padding[i] == '='
    requires |lowered| == |s| && forall i :: 0 <= i < |s| ==> UpperChar(lowered[i]) == UpperChar(s[i])
    ensures Decode(s + padding) == Decode(s) == Decode(lowered)
  {
    hide Decode, Significant;
    SignificantConcat(s, padding);
    PaddingOnly(padding);
    SameUpperSameLetters(s, lowered);
    OnlyLettersMatter(s + padding, s);
    OnlyLettersMatter(s, lowered);
  }

  lemma {:induction false} PaddingOnly(padding: string)
    requires forall i :: 0 <= i < |padding| ==> padding[i] == '='
    ensures Significant(padding) == ""
  {
    hide Kept;
    if |padding| == 0 {
    } else {
      PaddingOnly(padding[1..]);
      PaddingIsForeign();
    }
  }

  lemma {:induction false} SameUpperSameLetters(s: string, t: string)
    requires |t| == |s| && forall i :: 0 <= i < |s| ==> UpperChar(t[i]) == UpperChar(s[i])
    ensures Significant(s) == Significant(t)
  {
    hide UpperChar, InAlphabet;
    if |s| == 0 {
    } else {
      SameUpperSameLetters(s[1..], t[1..]);
    }
  }
}
