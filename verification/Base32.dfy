/** `base32_encode` and `base32_decode`, which move bits through a `u32` that is never masked, against the
    regrouping of bits that section 6 of RFC 4648 describes. */
module Base32 {
  import opened Words
  import opened Wrappers
  import opened Bits

  /** The alphabet of section 6 of RFC 4648. */
  function Symbol(idx: nat): char
    requires idx < 32
  {
    if idx < 26 then 'A' + idx as char else '2' + (idx - 26) as char
  }

  lemma AlphabetOrder()
    ensures seq(32, i requires 0 <= i < 32 => Symbol(i)) == "ABCDEFGHIJKLMNOPQRSTUVWXYZ234567"
  {
  }

  // --- The regrouping ------------------------------------------------------------------------

  /** The input as one string of bits. */
  function BitsOf(src: seq<byte>): Bits {
    if src == [] then [] else BitsOf(src[..|src| - 1]) + ToBits(src[|src| - 1], 8)
  }

  function CharOf(b: Bits): char
    requires |b| == 5
  {
    FromBitsBound(b);
    assert Pow2(5) == 32;
    Symbol(FromBits(b))
  }

  /** Groups of five bits as characters, the last one filled up with zeros. */
  function Chars(b: Bits): string {
    if b == [] then []
    else if |b| < 5 then [CharOf(b + Zeros(5 - |b|))]
    else [CharOf(b[..5])] + Chars(b[5..])
  }

  /** Whole bytes; bits left over are dropped. */
  function Bytes(b: Bits): seq<byte> {
    if |b| < 8 then []
    else
      FromBitsBound(b[..8]);
      assert Pow2(8) == 256;
      [FromBits(b[..8])] + Bytes(b[8..])
  }

  predicate IsUpperSymbol(c: char) {
    'A' <= c <= 'Z' || '2' <= c <= '7'
  }

  predicate IsLower(c: char) {
    'a' <= c <= 'z'
  }

  /** Characters the decoder accepts: the test is made on the upper-case form. */
  predicate IsSymbol(c: char) {
    IsUpperSymbol(c) || IsLower(c)
  }

  function UpperChar(c: char): char {
    if IsLower(c) then (c as int - 32) as char else c
  }

  function Upper(s: string): string {
    seq(|s|, i requires 0 <= i < |s| => UpperChar(s[i]))
  }

  /** The value the decoder computes, from the character as given. */
  function Val(c: char): nat
    requires IsSymbol(c)
  {
    if '2' <= c <= '7' then c as int - '2' as int + 26 else c as int - 'A' as int
  }

  /** The five bits a character stands for. */
  function Five(c: char): Bits
    requires IsSymbol(c)
  {
    ToBits(Val(UpperChar(c)), 5)
  }

  ghost predicate AllSymbols(s: string) {
    forall c <- s :: IsSymbol(c)
  }

  function TrimEnd(s: string): (r: string)
    ensures r <= s
  {
    if s != [] && s[|s| - 1] == '=' then TrimEnd(s[..|s| - 1]) else s
  }

  // --- What decoding does to bits ----------------------------------------------------------------

  /** The last bit, if any, turned on when `on`. */
  function Smear(b: Bits, on: bool): (r: Bits)
    ensures |r| == |b|
  {
    if b == [] then [] else b[..|b| - 1] + [b[|b| - 1] || on]
  }

  /** The bits the decoder has seen after `s`. A lower-case letter's value has its 32-bit set, which spills into
      the bit before, unless that bit has already left as part of a byte. */
  ghost function Stream(s: string): (b: Bits)
    requires AllSymbols(s)
    ensures |b| == 5 * |s|
  {
    if s == [] then []
    else
      var n := |s| - 1;
      Smear(Stream(s[..n]), IsLower(s[n]) && 5 * n % 8 != 0) + Five(s[n])
  }

  // --- The methods -----------------------------------------------------------------------------

  lemma OrFitsWord(x: u32, y: nat)
    requires y < 0x1_0000_0000
    ensures Or(x, y) < 0x1_0000_0000
  {
    Pow2Of31();
    assert Pow2(32) == 2 * TOP_BIT;
    hide Pow2, Or;
    OrFits(x, y, 32);
  }

  lemma ByteIn(buffer: u32, n: nat, b: byte)
    requires n + 8 <= 32
    ensures Or(Shl(buffer, 8), b) < 0x1_0000_0000
    ensures ToBits(Or(Shl(buffer, 8), b), n + 8) == ToBits(buffer, n) + ToBits(b, 8)
  {
    Pow2Of31();
    assert Pow2(32) == 2 * TOP_BIT && Pow2(8) == 256;
    OrFits(Shl(buffer, 8), b, 32);
    ShlBits(buffer, 8, n);
    SmallBits(b, n, 8);
    OrBits(Shl(buffer, 8), b, n + 8);
    hide *;
    OrAppends(ToBits(buffer, n), ToBits(b, 8), ToBits(Or(Shl(buffer, 8), b), n + 8));
  }

  lemma OrAppends(old_: Bits, new_: Bits, merged: Bits)
    requires |merged| == |old_| + |new_|
    requires forall i :: 0 <= i < |merged| ==> merged[i] == ((old_ + Zeros(|new_|))[i] || (Zeros(|old_|) + new_)[i])
    ensures merged == old_ + new_
  {
    forall i | 0 <= i < |merged| ensures merged[i] == (old_ + new_)[i] {
    }
  }

  lemma GroupOut(buffer: u32, n: nat, k: nat)
    requires k <= n
    ensures ToBits(buffer, n) == ToBits(Shr(buffer, n - k), k) + ToBits(buffer, n - k)
  {
    SplitBits(buffer, k, n - k);
  }

  /** Characters of whole groups come first, whatever follows. */
  lemma {:induction false} CharsAppend(a: Bits, b: Bits, k: nat)
    requires |a| == 5 * k
    ensures Chars(a + b) == Chars(a) + Chars(b)
  {
    if a == [] {
      assert a + b == b;
    } else {
      assert (a + b)[..5] == a[..5] && (a + b)[5..] == a[5..] + b;
      CharsAppend(a[5..], b, k - 1);
    }
  }

  lemma CharsGroup(g: Bits)
    requires 1 <= |g| <= 5
    ensures Chars(g) == [CharOf(g + Zeros(5 - |g|))]
  {
    if |g| == 5 {
      assert g[..5] == g && g[5..] == [] && g + Zeros(0) == g;
    }
  }

  lemma SymbolOut(idx: nat, done: Bits, k: nat, g: Bits)
    requires idx < 32 && |done| == 5 * k && 1 <= |g| <= 5 && ToBits(idx, 5) == g + Zeros(5 - |g|)
    ensures Chars(done + g) == Chars(done) + [Symbol(idx)]
  {
    assert Pow2(5) == 32;
    ToFromBits(idx, 5);
    CharsAppend(done, g, k);
    CharsGroup(g);
  }

  lemma BitsNext(src: seq<byte>, i: nat)
    requires i < |src|
    ensures BitsOf(src[..i + 1]) == BitsOf(src[..i]) + ToBits(src[i], 8)
  {
    assert src[..i + 1][..i] == src[..i];
  }

  lemma AppendAssoc(a: Bits, b: Bits, c: Bits)
    ensures a + (b + c) == (a + b) + c
  {
  }

  lemma TakeByte(done: Bits, buffer: u32, bits: nat, src: seq<byte>, i: nat)
    requires i < |src| && bits < 5 && done + ToBits(buffer, bits) == BitsOf(src[..i])
    ensures Or(Shl(buffer, 8), src[i]) < 0x1_0000_0000
    ensures done + ToBits(Or(Shl(buffer, 8), src[i]), bits + 8) == BitsOf(src[..i + 1])
  {
    hide *;
    ByteIn(buffer, bits, src[i]);
    BitsNext(src, i);
    AppendAssoc(done, ToBits(buffer, bits), ToBits(src[i], 8));
  }

  lemma WholeSymbol(x: nat, done: Bits, k: nat)
    requires |done| == 5 * k
    ensures Chars(done + ToBits(x, 5)) == Chars(done) + [Symbol(x % 32)]
  {
    assert ToBits(x, 5) + Zeros(0) == ToBits(x, 5);
    hide *;
    LowBits(x);
    SymbolOut(x % 32, done, k, ToBits(x, 5));
  }

  lemma TakeGroup(done: Bits, k: nat, buffer: u32, bits: nat, all: Bits) returns (g: Bits)
    requires bits >= 5 && |done| == 5 * k && done + ToBits(buffer, bits) == all
    ensures |g| == 5 && (done + g) + ToBits(buffer, bits - 5) == all
    ensures Chars(done + g) == Chars(done) + [Symbol(Shr(buffer, bits - 5) % 32)]
  {
    hide *;
    g := ToBits(Shr(buffer, bits - 5), 5);
    GroupOut(buffer, bits, 5);
    AppendAssoc(done, g, ToBits(buffer, bits - 5));
    WholeSymbol(Shr(buffer, bits - 5), done, k);
  }

  lemma LastGroup(done: Bits, k: nat, buffer: u32, bits: nat, all: Bits)
    requires 0 < bits < 5 && |done| == 5 * k && done + ToBits(buffer, bits) == all
    ensures Chars(all) == Chars(done) + [Symbol(Shl(buffer, 5 - bits) % 32)]
  {
    ShlBits(buffer, 5 - bits, bits);
    LowBits(Shl(buffer, 5 - bits));
    SymbolOut(Shl(buffer, 5 - bits) % 32, done, k, ToBits(buffer, bits));
  }

  /** The inner loop: as many symbols as there are whole groups among the low `n` bits of the buffer. */
  method PushSymbols(dst: string, buffer: u32, n: nat, ghost done: Bits, ghost all: Bits)
    returns (dst': string, bits: nat, ghost done': Bits)
    requires n <= 12 && |done| == 5 * |dst| && done + ToBits(buffer, n) == all && dst == Chars(done)
    ensures bits < 5 && |done'| == 5 * |dst'| && done' + ToBits(buffer, bits) == all && dst' == Chars(done')
  {
    hide *;
    dst', bits, done' := dst, n, done;
    while bits >= 5
      invariant bits <= 12 && |done'| == 5 * |dst'|
      invariant done' + ToBits(buffer, bits) == all
      invariant dst' == Chars(done')
    {
      ghost var g := TakeGroup(done', |dst'|, buffer, bits, all);
      bits := bits - 5;
      var idx := Shr(buffer, bits) % 32;
      dst' := dst' + [Symbol(idx)];
      done' := done' + g;
    }
  }

  lemma EncodeStart(src: seq<byte>)
    ensures Chars([]) == "" && [] + ToBits(0, 0) == BitsOf(src[..0])
  {
  }

  /** The encoding is the unpadded regrouping, although old bits are only ever shifted off the buffer. */
  method Encode(src: seq<byte>) returns (dst: string)
    ensures dst == Chars(BitsOf(src))
  {
    hide *;
    EncodeStart(src);
    dst := "";
    var buffer: u32 := 0;
    var bits: nat := 0;
    ghost var done: Bits := [];
    for i := 0 to |src|
      invariant bits < 5 && |done| == 5 * |dst|
      invariant done + ToBits(buffer, bits) == BitsOf(src[..i])
      invariant dst == Chars(done)
    {
      TakeByte(done, buffer, bits, src, i);
      buffer := Or(Shl(buffer, 8), src[i]);
      dst, bits, done := PushSymbols(dst, buffer, bits + 8, done, BitsOf(src[..i + 1]));
    }
    assert src[..|src|] == src;
    if bits > 0 {
      LastGroup(done, |dst|, buffer, bits, BitsOf(src));
      var idx := Shl(buffer, 5 - bits) % 32;
      dst := dst + [Symbol(idx)];
    } else {
      assert done + ToBits(buffer, 0) == done;
    }
  }

  // --- Decoding --------------------------------------------------------------------------------

  lemma SymbolVal(c: char)
    requires IsSymbol(c)
    ensures Val(c) < 64 && Val(UpperChar(c)) < 32
    ensures Val(c) == Val(UpperChar(c)) + (if IsLower(c) then 32 else 0)
    ensures ToBits(Val(c), 6) == [IsLower(c)] + Five(c) && ToBits(Val(c), 5) == Five(c)
  {
    SixBits(Val(UpperChar(c)), IsLower(c));
  }

  lemma ShrFive(x: u32)
    ensures Shr(x, 5) == x / 32
  {
    assert Shr(x, 5) == Shr(x / 2, 4) == Shr(x / 4, 3) == Shr(x / 8, 2) == Shr(x / 16, 1) == Shr(x / 32, 0);
  }

  lemma OneBit(x: nat)
    requires x < 2
    ensures ToBits(x, 1) == [x == 1]
  {
    assert ToBits(x / 2, 0) == [];
  }

  lemma SixBits(v: nat, high: bool)
    requires v < 32
    ensures
      var w := v + (if high then 32 else 0);
      ToBits(w, 6) == [high] + ToBits(v, 5) && ToBits(w, 5) == ToBits(v, 5)
  {
    var w := v + (if high then 32 else 0);
    assert w % 32 == v && w / 32 == (if high then 1 else 0);
    hide ToBits, Shr;
    LowBits(w);
    SplitBits(w, 1, 5);
    ShrFive(w);
    OneBit(w / 32);
  }

  lemma SixBitsOnly(x: nat, m: nat)
    requires x < 64
    ensures ToBits(x, m + 6) == Zeros(m) + ToBits(x, 6)
  {
    assert Pow2(6) == 64;
    SmallBits(x, m, 6);
  }

  /** One more character comes in: five new bits, the letter case spilling into the bit before. */
  lemma CharIn(buffer: u32, n: nat, c: char)
    requires n + 5 <= 32 && IsSymbol(c)
    ensures Or(Shl(buffer, 5), Val(c)) < 0x1_0000_0000
    ensures ToBits(Or(Shl(buffer, 5), Val(c)), n + 5) == Smear(ToBits(buffer, n), IsLower(c)) + Five(c)
  {
    hide *;
    SymbolVal(c);
    OrFitsWord(Shl(buffer, 5), Val(c));
    ShlBits(buffer, 5, n);
    OrBits(Shl(buffer, 5), Val(c), n + 5);
    if n >= 1 { SixBitsOnly(Val(c), n - 1); }
    OrSmears(ToBits(buffer, n), IsLower(c), Five(c), ToBits(Val(c), n + 5), ToBits(Or(Shl(buffer, 5), Val(c)), n + 5));
  }

  lemma OrSmears(old_: Bits, high: bool, five: Bits, incoming: Bits, merged: Bits)
    requires |five| == 5 && |incoming| == |merged| == |old_| + 5
    requires incoming == if old_ == [] then five else Zeros(|old_| - 1) + ([high] + five)
    requires forall i :: 0 <= i < |merged| ==> merged[i] == ((old_ + Zeros(5))[i] || incoming[i])
    ensures merged == Smear(old_, high) + five
  {
    forall i | 0 <= i < |merged| ensures merged[i] == (Smear(old_, high) + five)[i] {
    }
  }

  lemma SmearTail(a: Bits, b: Bits, on: bool)
    requires b != []
    ensures Smear(a + b, on) == a + Smear(b, on)
  {
    assert (a + b)[..|a + b| - 1] == a + b[..|b| - 1];
  }

  lemma SmearOff(b: Bits)
    ensures Smear(b, false) == b
  {
    if b != [] { assert b == b[..|b| - 1] + [b[|b| - 1]]; }
  }

  /** Only a bit that is still in the buffer can be spilt into. */
  lemma SmearPending(done: Bits, k: nat, pending: Bits, on: bool, i: nat)
    requires |done| == 8 * k && |pending| < 8 && |done| + |pending| == 5 * i
    ensures done + Smear(pending, on) == Smear(done + pending, on && 5 * i % 8 != 0)
  {
    assert 5 * i % 8 == |pending|;
    if pending == [] {
      assert done + pending == done;
      SmearOff(done);
    } else {
      SmearTail(done, pending, on);
    }
  }

  lemma StreamNext(s: string, i: nat)
    requires i < |s| && AllSymbols(s[..i]) && AllSymbols(s[..i + 1])
    ensures IsSymbol(s[i])
    ensures Stream(s[..i + 1]) == Smear(Stream(s[..i]), IsLower(s[i]) && 5 * i % 8 != 0) + Five(s[i])
  {
    assert s[..i + 1][..i] == s[..i] && s[..i + 1][i] in s[..i + 1];
  }

  lemma {:induction false} BytesAppend(a: Bits, b: Bits, k: nat)
    requires |a| == 8 * k
    ensures Bytes(a + b) == Bytes(a) + Bytes(b)
  {
    if a == [] {
      assert a + b == b;
    } else {
      assert (a + b)[..8] == a[..8] && (a + b)[8..] == a[8..] + b;
      BytesAppend(a[8..], b, k - 1);
    }
  }

  lemma OneByte(x: nat, g: Bits)
    requires x < 256 && g == ToBits(x, 8)
    ensures Bytes(g) == [x]
  {
    assert Pow2(8) == 256 && g[..8] == g && g[8..] == [];
    ToFromBits(x, 8);
  }

  lemma WholeByte(x: nat, done: Bits, k: nat)
    requires |done| == 8 * k
    ensures Bytes(done + ToBits(x, 8)) == Bytes(done) + [x % 256]
  {
    hide *;
    LowBits(x);
    OneByte(x % 256, ToBits(x, 8));
    BytesAppend(done, ToBits(x, 8), k);
  }

  lemma TakeOctet(done: Bits, k: nat, buffer: u32, bits: nat, all: Bits) returns (g: Bits)
    requires bits >= 8 && |done| == 8 * k && done + ToBits(buffer, bits) == all
    ensures |g| == 8 && (done + g) + ToBits(buffer, bits - 8) == all
    ensures Bytes(done + g) == Bytes(done) + [Shr(buffer, bits - 8) % 256]
  {
    hide *;
    g := ToBits(Shr(buffer, bits - 8), 8);
    GroupOut(buffer, bits, 8);
    AppendAssoc(done, g, ToBits(buffer, bits - 8));
    WholeByte(Shr(buffer, bits - 8), done, k);
  }

  lemma LeftoverDropped(done: Bits, k: nat, rest: Bits)
    requires |done| == 8 * k && |rest| < 8
    ensures Bytes(done + rest) == Bytes(done)
  {
    BytesAppend(done, rest, k);
  }

  /** What decoding yields, in bits. */
  ghost function Decoded(src: string): Option<seq<byte>> {
    if AllSymbols(TrimEnd(src)) then Some(Bytes(Stream(TrimEnd(src)))) else None
  }

  lemma SymbolsSoFar(s: string, i: nat)
    requires i < |s| && AllSymbols(s[..i])
    ensures IsSymbol(s[i]) ==> AllSymbols(s[..i + 1])
    ensures !IsSymbol(s[i]) ==> !AllSymbols(s)
  {
    if IsSymbol(s[i]) {
      forall c | c in s[..i + 1] ensures IsSymbol(c) {
        assert c in s[..i] || c == s[i];
      }
    } else {
      assert s[i] in s;
    }
  }

  lemma TakeChar(done: Bits, k: nat, buffer: u32, bits: nat, s: string, i: nat)
    requires i < |s| && IsSymbol(s[i]) && bits < 8 && |done| == 8 * k
    requires AllSymbols(s[..i]) && done + ToBits(buffer, bits) == Stream(s[..i])
    ensures Or(Shl(buffer, 5), Val(s[i])) < 0x1_0000_0000 && AllSymbols(s[..i + 1])
    ensures done + ToBits(Or(Shl(buffer, 5), Val(s[i])), bits + 5) == Stream(s[..i + 1])
  {
    hide *;
    var pending, c := ToBits(buffer, bits), s[i];
    SymbolsSoFar(s, i);
    CharIn(buffer, bits, c);
    StreamNext(s, i);
    assert |done + pending| == 5 * i;
    SmearPending(done, k, pending, IsLower(c), i);
    AppendAssoc(done, Smear(pending, IsLower(c)), Five(c));
  }

  /** The byte that leaves the buffer once it holds eight bits. */
  method PushOctet(dst: seq<byte>, buffer: u32, n: nat, ghost done: Bits, ghost all: Bits)
    returns (dst': seq<byte>, bits: nat, ghost done': Bits)
    requires n <= 12 && |done| == 8 * |dst| && done + ToBits(buffer, n) == all && dst == Bytes(done)
    ensures bits < 8 && |done'| == 8 * |dst'| && done' + ToBits(buffer, bits) == all && dst' == Bytes(done')
  {
    hide *;
    dst', bits, done' := dst, n, done;
    if bits >= 8 {
      ghost var g := TakeOctet(done, |dst|, buffer, bits, all);
      bits := bits - 8;
      dst' := dst' + [Shr(buffer, bits) % 256];
      done' := done' + g;
    }
  }

  lemma DecodeStart(src: string)
    ensures
      var s := TrimEnd(src);
      && AllSymbols(s[..0]) && Stream(s[..0]) == [] + ToBits(0, 0) && Bytes([]) == []
      && Decoded(src) == if AllSymbols(s) then Some(Bytes(Stream(s))) else None
  {
    assert TrimEnd(src)[..0] == [];
  }

  method Decode(src: string) returns (r: Option<seq<byte>>)
    ensures r == Decoded(src)
  {
    hide *;
    var s := TrimEnd(src);
    DecodeStart(src);
    var dst: seq<byte> := [];
    var buffer: u32 := 0;
    var bits: nat := 0;
    ghost var done: Bits := [];
    for i := 0 to |s|
      invariant bits < 8 && |done| == 8 * |dst| && AllSymbols(s[..i])
      invariant done + ToBits(buffer, bits) == Stream(s[..i])
      invariant dst == Bytes(done)
    {
      SymbolsSoFar(s, i);
      if !IsSymbol(s[i]) {
        return None;
      }
      TakeChar(done, |dst|, buffer, bits, s, i);
      buffer := Or(Shl(buffer, 5), Val(s[i]));
      dst, bits, done := PushOctet(dst, buffer, bits + 5, done, Stream(s[..i + 1]));
    }
    assert s[..|s|] == s;
    LeftoverDropped(done, |dst|, ToBits(buffer, bits));
    return Some(dst);
  }
}
