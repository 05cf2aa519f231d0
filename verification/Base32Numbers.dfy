/** Base32 as a change of base: an encoding and what it stands for are the same number, in base 32 and in base 256, but
    for the zeros that fill up the last symbol. */
module Base32Numbers {
  import opened Arithmetic
  import opened Words
  import opened Wrappers
  import opened Bits
  import opened Base32
  import opened Base32Theorems

  /** The input as a number, most significant byte first. */
  function BytesValue(src: seq<byte>): nat {
    if src == [] then 0 else 256 * BytesValue(src[..|src| - 1]) + src[|src| - 1]
  }

  /** The place of a symbol in the alphabet of section 6 of RFC 4648. */
  function Place(c: char): nat {
    if 'A' <= c <= 'Z' then c as int - 'A' as int
    else if '2' <= c <= '7' then c as int - '2' as int + 26
    else 0
  }

  /** A string of symbols as a number, most significant symbol first. */
  function SymbolsValue(s: string): nat {
    if s == "" then 0 else 32 * SymbolsValue(s[..|s| - 1]) + Place(s[|s| - 1])
  }

  // --- Bit strings as numbers ------------------------------------------------------------------

  lemma {:induction false} FromBitsAppend(a: Bits, b: Bits)
    ensures FromBits(a + b) == FromBits(a) * Pow2(|b|) + FromBits(b)
    decreases |b|
  {
    if b == [] {
      assert a + b == a;
    } else {
      var n := |b| - 1;
      assert (a + b)[..|a + b| - 1] == a + b[..n];
      FromBitsAppend(a, b[..n]);
      Doubled(FromBits(a), n);
      hide Pow2;
    }
  }

  lemma Doubled(x: nat, n: nat)
    ensures x * Pow2(n + 1) == 2 * (x * Pow2(n))
  {
    assert Pow2(n + 1) == 2 * Pow2(n);
  }

  lemma {:induction false} FromZeros(n: nat)
    ensures FromBits(Zeros(n)) == 0
  {
    if n > 0 {
      assert Zeros(n)[..n - 1] == Zeros(n - 1);
      FromZeros(n - 1);
    }
  }

  lemma LastByte(src: seq<byte>)
    requires src != []
    ensures
      var init, last := src[..|src| - 1], src[|src| - 1];
      BitsOf(src) == BitsOf(init) + ToBits(last, 8) && BytesValue(src) == 256 * BytesValue(init) + last
  {
  }

  lemma ByteValue(x: byte)
    ensures FromBits(ToBits(x, 8)) == x && |ToBits(x, 8)| == 8 && Pow2(8) == 256
  {
    assert Pow2(8) == 256;
    hide FromBits, ToBits, Pow2;
    ToFromBits(x, 8);
  }

  lemma NoBytes()
    ensures FromBits(BitsOf([])) == 0 && BytesValue([]) == 0
  {
  }

  lemma {:induction false} BitsValue(src: seq<byte>)
    ensures FromBits(BitsOf(src)) == BytesValue(src)
  {
    hide *;
    if src == [] {
      NoBytes();
    } else {
      var init, last := src[..|src| - 1], src[|src| - 1];
      LastByte(src);
      BitsValue(init);
      ByteValue(last);
      FromBitsAppend(BitsOf(init), ToBits(last, 8));
      assert FromBits(BitsOf(init)) * 256 == 256 * BytesValue(init);
    }
  }

  lemma FiveValue(c: char)
    requires IsUpperSymbol(c)
    ensures IsSymbol(c) && FromBits(Five(c)) == Place(c) && Place(c) < 32
  {
    assert Pow2(5) == 32;
    ToFromBits(Place(c), 5);
  }

  lemma UpperLast(s: string)
    requires AllUpper(s) && s != ""
    ensures AllSymbols(s) && AllUpper(s[..|s| - 1]) && AllSymbols(s[..|s| - 1]) && IsUpperSymbol(s[|s| - 1])
    ensures Stream(s) == Stream(s[..|s| - 1]) + Five(s[|s| - 1])
  {
    var init, last := s[..|s| - 1], s[|s| - 1];
    assert last in s && !IsLower(last);
    UpperIsSymbols(s);
    UpperIsSymbols(init);
    StreamLast(s);
    SmearOff(Stream(init));
  }

  lemma {:induction false} StreamValue(s: string)
    requires AllUpper(s)
    ensures AllSymbols(s) && FromBits(Stream(s)) == SymbolsValue(s)
  {
    if s != "" {
      var init, last := s[..|s| - 1], s[|s| - 1];
      UpperLast(s);
      hide AllUpper, AllSymbols, Stream, FromBits, Five, Place, Pow2, IsUpperSymbol;
      StreamValue(init);
      FiveValue(last);
      FromBitsAppend(Stream(init), Five(last));
      PowSmall();
    }
  }

  /** What each symbol more than the whole bytes contribute shifts by. */
  lemma PowSmall()
    ensures Pow2(0) == 1 && Pow2(1) == 2 && Pow2(2) == 4 && Pow2(3) == 8 && Pow2(4) == 16
    ensures Pow2(5) == 32 && Pow2(6) == 64 && Pow2(7) == 128
  {
  }

  lemma PowIs(k: nat)
    requires k < 8
    ensures Pow2(k) == [1, 2, 4, 8, 16, 32, 64, 128][k]
  {
    PowSmall();
    hide Pow2;
  }

  // --- Encoding --------------------------------------------------------------------------------

  /** The encoding is made of symbols of the alphabet, as few as hold all the bits, and is the number that the input is,
      shifted left by the bits the last symbol has to spare. */
  lemma EncodingIsTheNumber(src: seq<byte>)
    ensures
      var e := Chars(BitsOf(src));
      && (forall c <- e :: 'A' <= c <= 'Z' || '2' <= c <= '7')
      && 0 <= 5 * |e| - 8 * |src| < 5
      && SymbolsValue(e) == BytesValue(src) * [1, 2, 4, 8, 16][5 * |e| - 8 * |src|]
  {
    var b := BitsOf(src);
    var e := Chars(b);
    CharsStream(b);
    BytesOfBits(src);
    assert |Stream(e)| == 5 * |e| && |Stream(e)| == |b| + Pad(|b|);
    assert Pad(|b|) < 5;
    hide *;
    StreamValue(e);
    BitsValue(src);
    FromBitsAppend(b, Zeros(Pad(|b|)));
    FromZeros(Pad(|b|));
    PowIs(Pad(|b|));
    ZerosLength(Pad(|b|));
  }

  lemma ZerosLength(n: nat)
    ensures |Zeros(n)| == n
  {
  }

  // --- Decoding --------------------------------------------------------------------------------

  lemma ValueOfTake(b: Bits, k: nat)
    requires k <= |b|
    ensures FromBits(b[..|b| - k]) == FromBits(b) / Pow2(k)
  {
    var head, tail := b[..|b| - k], b[|b| - k..];
    assert b == head + tail;
    FromBitsAppend(head, tail);
    FromBitsBound(tail);
    DivModUnique(FromBits(b), Pow2(k), FromBits(head), FromBits(tail));
  }

  /** A string of upper-case symbols decodes to as many whole bytes as it holds, and they are the number that the string
      is, shifted right by the bits left over. */
  lemma DecodingIsTheNumber(s: string, d: seq<byte>)
    requires forall c <- s :: 'A' <= c <= 'Z' || '2' <= c <= '7'
    requires Decoded(s) == Some(d)
    ensures |d| == 5 * |s| / 8
    ensures BytesValue(d) == SymbolsValue(s) / [1, 2, 4, 8, 16, 32, 64, 128][5 * |s| % 8]
  {
    assert AllUpper(s);
    UpperNotTrimmed(s);
    StreamValue(s);
    var b := Stream(s);
    assert |b| == 5 * |s| && d == Bytes(b);
    WholeBytesValue(b, d, 5 * |s| % 8);
  }

  lemma WholeBytesValue(b: Bits, d: seq<byte>, k: nat)
    requires d == Bytes(b) && k == |b| % 8
    ensures |d| == |b| / 8
    ensures BytesValue(d) == FromBits(b) / [1, 2, 4, 8, 16, 32, 64, 128][k]
  {
    assert |b| - k == 8 * (|b| / 8);
    hide *;
    BitsOfBytes(b);
    BytesOfBits(d);
    BitsValue(d);
    ValueOfTake(b, k);
    PowIs(k);
  }

  /** Letters of either case and digits from 2 to 7 up to `n`, and equals signs from there on. */
  ghost predicate IsPaddedFrom(s: string, n: nat)
    requires n <= |s|
  {
    && (forall i :: 0 <= i < n ==> 'A' <= s[i] <= 'Z' || 'a' <= s[i] <= 'z' || '2' <= s[i] <= '7')
    && (forall i :: n <= i < |s| ==> s[i] == '=')
  }

  /** Decoding ignores any number of equals signs at the end, and fails exactly if some other character is neither a
      letter of either case nor a digit from 2 to 7. */
  lemma DecodesIff(s: string)
    ensures Decoded(s).Some? <==> exists n: nat :: n <= |s| && IsPaddedFrom(s, n)
  {
    if Decoded(s).Some? {
      DecodedIsPadded(s);
    }
    if n: nat :| n <= |s| && IsPaddedFrom(s, n) {
      PaddedDecodes(s, n);
    }
  }

  lemma DecodedIsPadded(s: string)
    requires Decoded(s).Some?
    ensures |TrimEnd(s)| <= |s| && IsPaddedFrom(s, |TrimEnd(s)|)
  {
    var t := TrimEnd(s);
    TrimmedRest(s);
    forall i | 0 <= i < |t| ensures IsSymbol(s[i]) { assert t[i] in t; }
  }

  lemma PaddedDecodes(s: string, n: nat)
    requires n <= |s| && IsPaddedFrom(s, n)
    ensures Decoded(s).Some?
  {
    TrimsTo(s, n);
    forall c | c in s[..n] ensures IsSymbol(c) {}
  }

  lemma {:induction false} TrimmedRest(s: string)
    ensures forall i :: |TrimEnd(s)| <= i < |s| ==> s[i] == '='
    ensures TrimEnd(s) != "" ==> TrimEnd(s)[|TrimEnd(s)| - 1] != '='
  {
    if s != "" && s[|s| - 1] == '=' {
      var init := s[..|s| - 1];
      TrimmedRest(init);
      forall i | |TrimEnd(s)| <= i < |s| ensures s[i] == '=' {
        if i < |init| { assert init[i] == s[i]; }
      }
    }
  }

  lemma {:induction false} TrimsTo(s: string, n: nat)
    requires n <= |s|
    requires forall i :: n <= i < |s| ==> s[i] == '='
    requires forall i :: 0 <= i < n ==> s[i] != '='
    ensures TrimEnd(s) == s[..n]
  {
    if n < |s| {
      var init := s[..|s| - 1];
      assert init[..n] == s[..n];
      TrimsTo(init, n);
    } else {
      assert s[..n] == s;
    }
  }

  /** What follows the symbols does not matter if it is equals signs. */
  lemma PaddingIsIgnored(s: string, padded: string)
    requires s <= padded && forall i :: 0 <= i < |padded| ==> (padded[i] == '=' <==> |s| <= i)
    ensures Decoded(padded) == Decoded(s)
  {
    TrimsTo(padded, |s|);
    assert s[..|s|] == s && padded[..|s|] == s;
    TrimsTo(s, |s|);
  }
}
