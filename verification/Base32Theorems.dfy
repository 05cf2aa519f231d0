/** What the Base32 functions are for: decoding inverts encoding, encoding inverts decoding exactly on
    canonical strings, and letter case matters exactly where a letter's high bit spills. */
module Base32Theorems {
  import opened Arithmetic
  import opened Words
  import opened Wrappers
  import opened Bits
  import opened Base32

  ghost predicate AllUpper(s: string) {
    forall c <- s :: IsUpperSymbol(c)
  }

  // --- Bits and their regroupings ----------------------------------------------------------------

  /** How many zeros fill up the last group of five. */
  function Pad(n: nat): nat {
    if n % 5 == 0 then 0 else 5 - n % 5
  }

  lemma SymbolRoundTrip(idx: nat)
    requires idx < 32
    ensures IsUpperSymbol(Symbol(idx)) && Val(Symbol(idx)) == idx && UpperChar(Symbol(idx)) == Symbol(idx)
  {
  }

  lemma GroupRoundTrip(g: Bits)
    requires |g| == 5
    ensures IsUpperSymbol(CharOf(g)) && Five(CharOf(g)) == g
  {
    FromBitsBound(g);
    assert Pow2(5) == 32;
    SymbolRoundTrip(FromBits(g));
    FromToBits(g);
  }

  lemma SymbolFromFive(c: char)
    requires IsUpperSymbol(c)
    ensures CharOf(Five(c)) == c
  {
    assert Pow2(5) == 32;
    ToFromBits(Val(c), 5);
  }

  lemma UpperIsSymbols(s: string)
    requires AllUpper(s)
    ensures AllSymbols(s)
  {
  }

  /** Upper-case symbols simply append their bits. */
  lemma {:induction false} StreamAppend(a: string, b: string)
    requires AllSymbols(a) && AllUpper(b)
    ensures AllSymbols(a + b) && AllSymbols(b) && Stream(a + b) == Stream(a) + Stream(b)
  {
    if b == [] {
      assert a + b == a;
    } else {
      var n := |b| - 1;
      var c := b[n];
      assert AllUpper(b[..n]) && c in b;
      StreamAppend(a, b[..n]);
      assert (a + b)[..|a + b| - 1] == a + b[..n];
      forall x | x in a + b ensures IsSymbol(x) { assert x in a || x in b; }
      SmearOff(Stream(a + b[..n]));
      SmearOff(Stream(b[..n]));
      AppendAssoc(Stream(a), Stream(b[..n]), Five(c));
    }
  }

  lemma OneChar(c: char)
    requires IsUpperSymbol(c)
    ensures AllUpper([c]) && AllSymbols([c]) && Stream([c]) == Five(c)
  {
    assert [c][..0] == [];
    assert Stream([]) == [];
    assert Smear([], false) + Five(c) == Five(c);
  }

  lemma CharsSplit(b: Bits)
    requires |b| >= 5
    ensures Chars(b) == [CharOf(b[..5])] + Chars(b[5..])
  {
  }

  lemma ConsUpper(c: char, s: string)
    requires IsUpperSymbol(c) && AllUpper(s)
    ensures AllUpper([c] + s)
  {
  }

  /** The characters of a bit string stand for it, filled up with zeros. */
  lemma {:induction false} CharsStream(b: Bits)
    ensures AllUpper(Chars(b)) && AllSymbols(Chars(b))
    ensures Stream(Chars(b)) == b + Zeros(Pad(|b|))
    decreases |b|
  {
    if |b| < 5 {
      ShortCharsStream(b);
    } else {
      var c, rest, pad := CharOf(b[..5]), Chars(b[5..]), Zeros(Pad(|b|));
      hide *;
      PadAgain(|b|);
      CharsSplit(b);
      CharsStream(b[5..]);
      GroupRoundTrip(b[..5]);
      OneChar(c);
      StreamAppend([c], rest);
      ConsUpper(c, rest);
      AppendAssoc(b[..5], b[5..], pad);
      SplitAt(b, 5);
    }
  }

  lemma PadAgain(n: nat)
    requires n >= 5
    ensures Pad(n - 5) == Pad(n)
  {
    DivModUnique(n, 5, (n - 5) / 5 + 1, (n - 5) % 5);
  }

  lemma PadShort(n: nat)
    requires n < 5
    ensures Pad(n) == (if n == 0 then 0 else 5 - n)
  {
  }

  lemma NoChars()
    ensures AllUpper(Chars([])) && AllSymbols(Chars([])) && Stream(Chars([])) == [] + Zeros(0)
  {
  }

  lemma ShortCharsStream(b: Bits)
    requires |b| < 5
    ensures AllUpper(Chars(b)) && AllSymbols(Chars(b))
    ensures Stream(Chars(b)) == b + Zeros(Pad(|b|))
  {
    hide *;
    PadShort(|b|);
    if b == [] {
      NoChars();
    } else {
      var g := b + Zeros(5 - |b|);
      CharsGroup(b);
      GroupRoundTrip(g);
      OneChar(CharOf(g));
    }
  }

  lemma {:induction false} CharsLength(b: Bits)
    ensures |Chars(b)| == (|b| + 4) / 5
  {
    if |b| >= 5 { CharsLength(b[5..]); }
  }

  lemma {:induction false} BytesOfBits(src: seq<byte>)
    ensures |BitsOf(src)| == 8 * |src|
    ensures Bytes(BitsOf(src)) == src
  {
    if src != [] {
      var n := |src| - 1;
      BytesOfBits(src[..n]);
      OneByte(src[n], ToBits(src[n], 8));
      BytesAppend(BitsOf(src[..n]), ToBits(src[n], 8), n);
    }
  }

  lemma {:induction false} BitsAppend(a: seq<byte>, b: seq<byte>)
    ensures BitsOf(a + b) == BitsOf(a) + BitsOf(b)
  {
    if b == [] {
      assert a + b == a;
    } else {
      var n := |b| - 1;
      assert (a + b)[..|a + b| - 1] == a + b[..n];
      BitsAppend(a, b[..n]);
      AppendAssoc(BitsOf(a), BitsOf(b[..n]), ToBits(b[n], 8));
    }
  }

  lemma BytesSplit(b: Bits) returns (x: byte)
    requires |b| >= 8
    ensures Bytes(b) == [x] + Bytes(b[8..]) && BitsOf([x]) == b[..8]
  {
    FromBitsBound(b[..8]);
    assert Pow2(8) == 256;
    x := FromBits(b[..8]);
    FromToBits(b[..8]);
    assert [x][..0] == [];
  }

  /** Whole bytes keep all their bits. */
  lemma {:induction false} BitsOfBytes(b: Bits)
    ensures BitsOf(Bytes(b)) == b[..|b| - |b| % 8]
    decreases |b|
  {
    if |b| >= 8 {
      hide *;
      var k := |b| - |b| % 8;
      var x := BytesSplit(b);
      BitsOfBytes(b[8..]);
      BitsAppend([x], Bytes(b[8..]));
      assert b[..8] + b[8..][..k - 8] == b[..k];
    }
  }

  // --- Round trips ---------------------------------------------------------------------------

  lemma UpperNotTrimmed(s: string)
    requires AllUpper(s)
    ensures TrimEnd(s) == s
  {
    assert s != [] ==> s[|s| - 1] in s;
  }

  /** Decoding gives back whatever was encoded. */
  lemma DecodeEncode(src: seq<byte>)
    ensures Decoded(Chars(BitsOf(src))) == Some(src)
  {
    var b := BitsOf(src);
    hide Chars, BitsOf, Bytes, Stream, TrimEnd, AllUpper, AllSymbols;
    CharsStream(b);
    UpperNotTrimmed(Chars(b));
    BytesOfBits(src);
    LeftoverDropped(b, |src|, Zeros(Pad(|b|)));
  }

  /** The encoding has as many characters as there are started groups of five bits. */
  lemma EncodedLength(src: seq<byte>)
    ensures |Chars(BitsOf(src))| == (8 * |src| + 4) / 5
  {
    BytesOfBits(src);
    CharsLength(BitsOf(src));
  }

  /** What an encoder can produce: upper-case symbols, fewer than five bits left over, and those zero. */
  ghost predicate Canonical(s: string) {
    && AllUpper(s)
    && var left := 5 * |s| % 8;
    && left < 5
    && (UpperIsSymbols(s); Stream(s)[5 * |s| - left..] == Zeros(left))
  }

  lemma PadCompletes(n: nat, left: nat)
    requires left < 5 && (n + left) % 5 == 0
    ensures Pad(n) == left
  {
  }

  /** A string that decodes is its own re-encoding exactly when it is canonical. */
  lemma EncodeDecodeIff(s: string, d: seq<byte>)
    requires Decoded(s) == Some(d)
    ensures Chars(BitsOf(d)) == s <==> Canonical(s)
  {
    if Chars(BitsOf(d)) == s {
      EncodedIsCanonical(d);
    }
    if Canonical(s) {
      UpperNotTrimmed(s);
      UpperIsSymbols(s);
      CanonicalReencodes(s);
    }
  }

  lemma EncodedIsCanonical(d: seq<byte>)
    ensures Canonical(Chars(BitsOf(d)))
  {
    var b := BitsOf(d);
    var s := Chars(b);
    CharsStream(b);
    BytesOfBits(d);
    LeftIsPad(|d|, |s|, Pad(|b|));
    assert |Stream(s)| == 5 * |s|;
    hide Chars, BitsOf, Bytes, Stream;
    assert (b + Zeros(Pad(|b|)))[|b|..] == Zeros(Pad(|b|));
  }

  lemma LeftIsPad(bytes: nat, chars: nat, pad: nat)
    requires 5 * chars == 8 * bytes + pad && pad < 5
    ensures 5 * chars % 8 == pad
  {
  }

  lemma CanonicalReencodes(s: string)
    requires Canonical(s) && AllSymbols(s)
    ensures Chars(BitsOf(Bytes(Stream(s)))) == s
  {
    var left := 5 * |s| % 8;
    assert left < 5 && Stream(s)[5 * |s| - left..] == Zeros(left) && AllUpper(s);
    hide *;
    var b := Stream(s);
    var kept := b[..|b| - left];
    BitsOfBytes(b);
    SplitAt(b, |b| - left);
    PadCompletes(|kept|, left);
    CharsStream(kept);
    StreamInjective(Chars(kept), s);
  }

  lemma SplitAt(b: Bits, k: nat)
    requires k <= |b|
    ensures b[..k] + b[k..] == b
  {
  }

  /** Upper-case strings are told apart by their bits. */
  lemma {:induction false} StreamInjective(s: string, t: string)
    requires AllUpper(s) && AllUpper(t) && AllSymbols(s) && AllSymbols(t) && Stream(s) == Stream(t)
    ensures s == t
  {
    hide *;
    assert 5 * |s| == |Stream(s)| && 5 * |t| == |Stream(t)|;
    if s != [] {
      var n := |s| - 1;
      LastChar(s);
      LastChar(t);
      StreamInjective(s[..n], t[..n]);
      LastAgain(s);
      LastAgain(t);
    }
  }

  lemma StreamLast(s: string)
    requires s != [] && AllSymbols(s)
    ensures
      var n := |s| - 1;
      && AllSymbols(s[..n]) && IsSymbol(s[n])
      && Stream(s) == Smear(Stream(s[..n]), IsLower(s[n]) && 5 * n % 8 != 0) + Five(s[n])
  {
    assert s[|s| - 1] in s;
  }

  lemma LastChar(s: string)
    requires s != [] && AllUpper(s) && AllSymbols(s)
    ensures
      var n := |s| - 1;
      AllUpper(s[..n]) && AllSymbols(s[..n])
      && Stream(s)[..5 * n] == Stream(s[..n]) && CharOf(Stream(s)[5 * n..]) == s[n]
  {
    var n := |s| - 1;
    assert s[n] in s;
    assert AllUpper(s[..n]) && IsUpperSymbol(s[n]) && !IsLower(s[n]);
    hide *;
    StreamLast(s);
    SmearOff(Stream(s[..n]));
    SymbolFromFive(s[n]);
    TakeDrop(Stream(s[..n]), Five(s[n]));
  }

  lemma LastAgain(s: string)
    requires s != []
    ensures s == s[..|s| - 1] + [s[|s| - 1]]
  {
  }

  lemma TakeDrop(a: Bits, b: Bits)
    ensures (a + b)[..|a|] == a && (a + b)[|a|..] == b
  {
  }

  // --- Letter case ---------------------------------------------------------------------------

  /** How many of the bits of `n` characters end up in bytes. */
  function Kept(n: nat): nat {
    5 * n - 5 * n % 8
  }

  /** The letter at `i + 1` spills into the last bit of the one at `i`, that bit ends up in a byte, and it was
      not set already. */
  ghost predicate Spoils(s: string, i: nat)
    requires AllSymbols(s) && i + 1 < |s|
  {
    && IsLower(s[i + 1]) && (i + 1) % 8 != 0
    && 5 * i + 4 < Kept(|s|)
    && Val(UpperChar(s[i])) % 2 == 0
  }

  lemma UpperAllUpper(s: string)
    requires AllSymbols(s)
    ensures AllUpper(Upper(s)) && AllSymbols(Upper(s))
  {
    forall c | c in Upper(s) ensures IsUpperSymbol(c) {
      var i :| 0 <= i < |s| && c == UpperChar(s[i]);
      assert s[i] in s;
    }
  }

  /** The letter after `i` spills into the last bit of `i`. */
  ghost predicate Spills(s: string, i: nat) {
    i + 1 < |s| && IsLower(s[i + 1]) && (i + 1) % 8 != 0
  }

  lemma FiveTimes(i: nat)
    ensures 5 * i % 8 == 0 <==> i % 8 == 0
  {
    var q, r := i / 8, i % 8;
    var k := if r < 2 then 0 else if r < 4 then 1 else if r < 5 then 2 else if r < 7 then 3 else 4;
    DivModUnique(5 * i, 8, 5 * q + k, 5 * r - 8 * k);
  }

  /** Bit `k` of the character at `i`, as the decoder sees it. */
  lemma {:induction false} StreamBit(s: string, i: nat, k: nat)
    requires AllSymbols(s) && i < |s| && k < 5
    ensures IsSymbol(s[i])
    ensures Stream(s)[5 * i + k]
         == (Five(s[i])[k] || (k == 4 && i + 1 < |s| && 'a' <= s[i + 1] <= 'z' && (i + 1) % 8 != 0))
  {
    var n := |s| - 1;
    StreamLast(s);
    var on := IsLower(s[n]) && 5 * n % 8 != 0;
    assert i == n ==> !Spills(s, i);
    assert i < n ==> s[..n][i] == s[i] && (Spills(s[..n], i) <==> Spills(s, i) && i + 1 < n);
    assert i + 1 == n ==> (Spills(s, i) <==> IsLower(s[n]) && n % 8 != 0);
    hide *;
    if i < n {
      StreamBit(s[..n], i, k);
      SmearBit(Stream(s[..n]), on, 5 * i + k);
      FiveTimes(n);
    }
  }

  lemma SmearBit(b: Bits, on: bool, p: nat)
    requires p < |b|
    ensures Smear(b, on)[p] == (b[p] || (on && p == |b| - 1))
  {
  }

  lemma UpperBit(s: string, i: nat, k: nat)
    requires AllSymbols(s) && i < |s| && k < 5 && AllSymbols(Upper(s))
    ensures IsSymbol(s[i]) && Stream(Upper(s))[5 * i + k] == Five(s[i])[k]
  {
    assert s[i] in s;
    assert Upper(s)[i] == UpperChar(s[i]) && UpperChar(UpperChar(s[i])) == UpperChar(s[i]);
    assert i + 1 < |s| ==> !IsLower(Upper(s)[i + 1]);
    assert !Spills(Upper(s), i);
    StreamBit(Upper(s), i, k);
  }

  /** The bits that make it into bytes agree whatever the case of the letters. */
  ghost predicate Unspoilt(s: string)
    requires AllSymbols(s)
  {
    forall i {:trigger Spoils(s, i)} :: 0 <= i < |s| - 1 ==> !Spoils(s, i)
  }

  lemma LastBitOfFive(c: char)
    requires IsSymbol(c)
    ensures Five(c)[4] == (Val(UpperChar(c)) % 2 == 1)
  {
  }

  lemma SpoiltBit(s: string, i: nat)
    requires AllSymbols(s) && i + 1 < |s| && AllSymbols(Upper(s))
    ensures 5 * i + 4 < 5 * |s|
    ensures Spoils(s, i) ==> Stream(s)[5 * i + 4] != Stream(Upper(s))[5 * i + 4]
  {
    hide Stream, Five, Upper, AllSymbols, IsSymbol, Val;
    StreamBit(s, i, 4);
    UpperBit(s, i, 4);
    LastBitOfFive(s[i]);
  }

  lemma UnspoiltBit(s: string, i: nat, k: nat)
    requires AllSymbols(s) && AllSymbols(Upper(s)) && Unspoilt(s) && i < |s| && k < 5 && 5 * i + k < Kept(|s|)
    ensures Stream(s)[5 * i + k] == Stream(Upper(s))[5 * i + k]
  {
    assert i + 1 < |s| ==> !Spoils(s, i);
    hide Stream, Five, Upper, Unspoilt, AllSymbols, IsSymbol, Kept;
    StreamBit(s, i, k);
    UpperBit(s, i, k);
    LastBitOfFive(s[i]);
  }

  lemma SameBytes(a: Bits, b: Bits)
    requires |a| == |b|
    ensures Bytes(a) == Bytes(b) <==> a[..|a| - |a| % 8] == b[..|a| - |a| % 8]
  {
    BitsOfBytes(a);
    BitsOfBytes(b);
    BytesOfWhole(a);
    BytesOfWhole(b);
  }

  lemma BytesOfWhole(a: Bits)
    ensures Bytes(a) == Bytes(a[..|a| - |a| % 8])
  {
    var k := |a| - |a| % 8;
    assert a[..k] + a[k..] == a;
    LeftoverDropped(a[..k], |a| / 8, a[k..]);
  }

  lemma SameBits(s: string, p: nat)
    requires AllSymbols(s) && AllSymbols(Upper(s)) && Unspoilt(s) && p < Kept(|s|)
    ensures p < 5 * |s| && Stream(s)[p] == Stream(Upper(s))[p]
  {
    assert Kept(|s|) <= 5 * |s|;
    hide *;
    var i, k := SplitFive(p);
    UnspoiltBit(s, i, k);
  }

  lemma SplitFive(p: nat) returns (i: nat, k: nat)
    ensures p == 5 * i + k && k < 5
  {
    i, k := p / 5, p % 5;
  }

  lemma CaseMattersIff(s: string)
    requires AllSymbols(s) && AllSymbols(Upper(s))
    ensures Bytes(Stream(s)) == Bytes(Stream(Upper(s))) <==> Unspoilt(s)
  {
    var a, b := Stream(s), Stream(Upper(s));
    SameBytes(a, b);
    assert Kept(|s|) == |a| - |a| % 8;
    hide *;
    if Unspoilt(s) { UnspoiltAgree(s); } else { SpoiltDiffer(s); }
  }

  lemma UnspoiltAgree(s: string)
    requires AllSymbols(s) && AllSymbols(Upper(s)) && Unspoilt(s)
    ensures Kept(|s|) <= |Stream(s)| == |Stream(Upper(s))|
    ensures Stream(s)[..Kept(|s|)] == Stream(Upper(s))[..Kept(|s|)]
  {
    var k := Kept(|s|);
    assert k <= |Stream(s)|;
    hide *;
    forall p | 0 <= p < k ensures Stream(s)[p] == Stream(Upper(s))[p] { SameBits(s, p); }
    TakeEqual(Stream(s), Stream(Upper(s)), k);
  }

  lemma TakeEqual(a: Bits, b: Bits, k: nat)
    requires k <= |a| && k <= |b| && forall p :: 0 <= p < k ==> a[p] == b[p]
    ensures a[..k] == b[..k]
  {
  }

  lemma SpoiltDiffer(s: string)
    requires AllSymbols(s) && AllSymbols(Upper(s)) && !Unspoilt(s)
    ensures Kept(|s|) <= |Stream(s)| == |Stream(Upper(s))|
    ensures Stream(s)[..Kept(|s|)] != Stream(Upper(s))[..Kept(|s|)]
  {
    var i :| 0 <= i < |s| - 1 && Spoils(s, i);
    var k := Kept(|s|);
    assert 5 * i + 4 < k <= |Stream(s)|;
    hide Stream, AllSymbols, Upper, Five, Kept;
    SpoiltBit(s, i);
    assert Stream(s)[..k][5 * i + 4] != Stream(Upper(s))[..k][5 * i + 4];
  }

  lemma {:induction false} TrimUpper(s: string)
    ensures TrimEnd(Upper(s)) == Upper(TrimEnd(s))
  {
    if s != [] && s[|s| - 1] == '=' {
      TrimUpper(s[..|s| - 1]);
      assert Upper(s)[..|s| - 1] == Upper(s[..|s| - 1]);
    }
  }

  lemma UpperSymbols(s: string)
    ensures AllSymbols(Upper(s)) <==> AllSymbols(s)
  {
    if AllSymbols(s) { UpperAllUpper(s); }
    if AllSymbols(Upper(s)) {
      forall c | c in s ensures IsSymbol(c) {
        var i :| 0 <= i < |s| && c == s[i];
        assert Upper(s)[i] in Upper(s);
      }
    }
  }

  /** Decoding does not depend on the case of the letters exactly when no letter's case spills into a bit that
      counts and was not set. The decoder tests the upper-case form but computes with the letter as given. */
  lemma CaseInsensitiveIff(src: string)
    ensures Decoded(src) == Decoded(Upper(src)) <==> (AllSymbols(TrimEnd(src)) ==> Unspoilt(TrimEnd(src)))
  {
    var s := TrimEnd(src);
    TrimUpper(src);
    UpperSymbols(s);
    if AllSymbols(s) { CaseMattersIff(s); }
  }

  /** "mz" and "MZ" decode differently. */
  lemma CaseMatters()
    ensures Decoded("mz") != Decoded("MZ")
  {
    assert Upper("mz") == "MZ" && TrimEnd("mz") == "mz";
    assert Spoils("mz", 0);
    CaseInsensitiveIff("mz");
  }
}
