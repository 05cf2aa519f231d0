/** `encrypt_data` and `decrypt_data`: the associated data that ties a ciphertext to a tenant and a field,
    and the framing of version, nonce and ciphertext, over an ideal AEAD that opens exactly what it sealed. */
module Encryption {
  import opened Words
  import opened Wrappers

  type bytes = seq<byte>

  datatype Result<T> = Ok(value: T) | Err(error: CryptoError)
  datatype CryptoError = Generic | DecryptionFailed

  // --- Associated data -------------------------------------------------------------------------

  function Digit(n: nat): char
    requires n < 10
  {
    '0' + n as char
  }

  predicate IsDigit(c: char) {
    '0' <= c <= '9'
  }

  function Decimal(n: nat): string {
    if n < 10 then [Digit(n)] else Decimal(n / 10) + [Digit(n % 10)]
  }

  /** `len:tenant:field`, with the tenant's length in characters. */
  function Aad(tenant: string, field: string): string {
    Decimal(|tenant|) + ":" + tenant + ":" + field
  }

  ghost predicate AllDigits(s: string) {
    forall c <- s :: IsDigit(c)
  }

  lemma {:induction false} DecimalDigits(n: nat)
    ensures AllDigits(Decimal(n)) && Decimal(n) != ""
  {
    if n >= 10 { DecimalDigits(n / 10); }
  }

  lemma {:induction false} DecimalInjective(m: nat, n: nat)
    requires Decimal(m) == Decimal(n)
    ensures m == n
  {
    var d, e := Decimal(m), Decimal(n);
    assert d[|d| - 1] == Digit(m % 10) && e[|e| - 1] == Digit(n % 10);
    if m >= 10 || n >= 10 {
      DecimalDigits(m / 10);
      DecimalDigits(n / 10);
      assert m >= 10 ==> d[..|d| - 1] == Decimal(m / 10);
      assert n >= 10 ==> e[..|e| - 1] == Decimal(n / 10);
      DecimalInjective(m / 10, n / 10);
    }
  }

  /** The number that a string of digits denotes. */
  function Denotes(s: string): nat {
    if s == "" then 0 else 10 * Denotes(s[..|s| - 1]) + (if IsDigit(s[|s| - 1]) then s[|s| - 1] as int - '0' as int else 0)
  }

  /** It is the decimal numeral of the number, without leading zeros. */
  lemma {:induction false} DecimalDenotes(n: nat)
    ensures Denotes(Decimal(n)) == n && Decimal(n) != ""
    ensures (forall i :: 0 <= i < |Decimal(n)| ==> '0' <= Decimal(n)[i] <= '9')
    ensures n > 0 ==> Decimal(n)[0] != '0'
  {
    DecimalDigits(n);
    if n >= 10 { DecimalDenotes(n / 10); }
  }

  /** Where the first colon is. */
  function ColonAt(s: string): nat {
    if s == "" || s[0] == ':' then 0 else 1 + ColonAt(s[1..])
  }

  lemma {:induction false} ColonAfterDigits(d: string, x: string)
    requires AllDigits(d)
    ensures ColonAt(d + ":" + x) == |d|
  {
    if d != "" {
      assert d[0] in d && AllDigits(d[1..]);
      ColonAfterDigits(d[1..], x);
      assert (d + ":" + x)[1..] == d[1..] + ":" + x;
    }
  }

  /** A number ends at the first colon. */
  lemma ColonEnds(d: string, x: string, e: string, y: string)
    requires AllDigits(d) && AllDigits(e) && d + ":" + x == e + ":" + y
    ensures d == e && x == y
  {
    var s, t := d + ":" + x, e + ":" + y;
    ColonAfterDigits(d, x);
    ColonAfterDigits(e, y);
    assert s[..|d|] == d && t[..|e|] == e;
    assert s[|d| + 1..] == x && t[|e| + 1..] == y;
  }

  /** Different tenants or fields have different associated data, whatever colons and digits they contain. */
  lemma AadInjective(tenant1: string, field1: string, tenant2: string, field2: string)
    requires Aad(tenant1, field1) == Aad(tenant2, field2)
    ensures tenant1 == tenant2 && field1 == field2
  {
    DecimalDigits(|tenant1|);
    DecimalDigits(|tenant2|);
    var x, y := tenant1 + ":" + field1, tenant2 + ":" + field2;
    assert Aad(tenant1, field1) == Decimal(|tenant1|) + ":" + x;
    assert Aad(tenant2, field2) == Decimal(|tenant2|) + ":" + y;
    ColonEnds(Decimal(|tenant1|), x, Decimal(|tenant2|), y);
    DecimalInjective(|tenant1|, |tenant2|);
    assert x[..|tenant1|] == tenant1 && y[..|tenant2|] == tenant2;
    assert x[|tenant1| + 1..] == field1 && y[|tenant2| + 1..] == field2;
  }

  // --- The ideal AEAD --------------------------------------------------------------------------

  datatype Sealing = Sealing(key: bytes, nonce: bytes, aad: string, msg: bytes)

  /** Everything sealed so far, by ciphertext. */
  type Log = map<bytes, Sealing>

  function Open(log: Log, key: bytes, nonce: bytes, aad: string, ciphertext: bytes): Option<bytes> {
    if ciphertext in log && log[ciphertext] == Sealing(key, nonce, aad, log[ciphertext].msg)
    then Some(log[ciphertext].msg) else None
  }

  // --- Framing -------------------------------------------------------------------------------

  function ToBigEndian(v: u32): (b: bytes)
    ensures |b| == 4
  {
    [v / 256 / 256 / 256, v / 256 / 256 % 256, v / 256 % 256, v % 256]
  }

  function FromBigEndian(b: bytes): u32
    requires |b| == 4
  {
    ((b[0] as int * 256 + b[1] as int) * 256 + b[2] as int) * 256 + b[3] as int
  }

  /** The four bytes of a version, most significant first. */
  lemma BigEndianValue(v: u32)
    ensures var b := ToBigEndian(v);
      v == b[0] as int * 0x100_0000 + b[1] as int * 0x1_0000 + b[2] as int * 0x100 + b[3] as int
  {
  }

  lemma BigEndianRoundTrip(v: u32)
    ensures FromBigEndian(ToBigEndian(v)) == v
  {
  }

  /** `encrypt_data`. The nonce and the ciphertext are the AEAD's choice; the ciphertext is new. */
  method EncryptData(log: Log, dek: bytes, plaintext: bytes, tenant: string, field: string, version: u32,
                     nonce: bytes, ciphertext: bytes) returns (r: Result<bytes>, log': Log)
    requires |nonce| == 12 && ciphertext !in log
    ensures r.Ok? <==> |dek| == 32
    ensures r.Err? ==> r.error == Generic && log' == log
    ensures r.Ok? ==> log' == log[ciphertext := Sealing(dek, nonce, Decimal(|tenant|) + ":" + tenant + ":" + field, plaintext)]
    ensures r.Ok? ==> r.value == ToBigEndian(version) + nonce + ciphertext
  {
    if |dek| != 32 {
      return Err(Generic), log;
    }
    var aad := Aad(tenant, field);
    log' := log[ciphertext := Sealing(dek, nonce, aad, plaintext)];
    var result: bytes := [];
    result := result + ToBigEndian(version);
    result := result + nonce;
    result := result + ciphertext;
    r := Ok(result);
  }

  /** `decrypt_data` */
  function DecryptData(log: Log, dekResolver: u32 -> Result<bytes>, payload: bytes, tenant: string, field: string,
                       expectedVersion: Option<u32>): Result<bytes> {
    if |payload| < 16 then Err(Generic)
    else
      var version := FromBigEndian(payload[0..4]);
      if expectedVersion.Some? && version != expectedVersion.value then Err(DecryptionFailed)
      else
        var dek := dekResolver(version);
        if dek.Err? then dek
        else if |dek.value| != 32 then Err(Generic)
        else
          var plaintext := Open(log, dek.value, payload[4..16], Aad(tenant, field), payload[16..]);
          if plaintext.Some? then Ok(plaintext.value) else Err(DecryptionFailed)
  }

  lemma Unframe(version: u32, nonce: bytes, ciphertext: bytes)
    requires |nonce| == 12
    ensures
      var payload := ToBigEndian(version) + nonce + ciphertext;
      && |payload| >= 16 && FromBigEndian(payload[0..4]) == version
      && payload[4..16] == nonce && payload[16..] == ciphertext
  {
    var payload := ToBigEndian(version) + nonce + ciphertext;
    assert payload[0..4] == ToBigEndian(version);
    BigEndianRoundTrip(version);
  }

  /** However much has been sealed since, an encrypted payload decrypts, to what was encrypted, exactly for the
      same tenant and field, an expected version that is absent or the same, and a resolver that yields the key
      it was encrypted with. */
  lemma DecryptsIff(log: Log, dek: bytes, plaintext: bytes, tenant: string, field: string, version: u32,
                    nonce: bytes, ciphertext: bytes, payload: bytes,
                    dekResolver: u32 -> Result<bytes>, tenant': string, field': string, expected: Option<u32>)
    requires |nonce| == 12 && |dek| == 32
    requires ciphertext in log && log[ciphertext] == Sealing(dek, nonce, Aad(tenant, field), plaintext)
    requires payload == ToBigEndian(version) + nonce + ciphertext
    ensures DecryptData(log, dekResolver, payload, tenant', field', expected).Ok?
       <==> tenant' == tenant && field' == field && (expected == None || expected == Some(version))
            && dekResolver(version) == Ok(dek)
    ensures DecryptData(log, dekResolver, payload, tenant', field', expected).Ok?
        ==> DecryptData(log, dekResolver, payload, tenant', field', expected) == Ok(plaintext)
  {
    Unframe(version, nonce, ciphertext);
    if Aad(tenant', field') == Aad(tenant, field) { AadInjective(tenant', field', tenant, field); }
  }

  lemma BigEndianInverse(b: bytes)
    requires |b| == 4
    ensures ToBigEndian(FromBigEndian(b)) == b
  {
    var high := (b[0] as int * 256 + b[1] as int) * 256 + b[2] as int;
    assert FromBigEndian(b) / 256 == high && FromBigEndian(b) % 256 == b[3];
    assert high / 256 == b[0] as int * 256 + b[1] as int && high % 256 == b[2];
  }

  lemma Reframe(payload: bytes)
    requires |payload| >= 16
    ensures payload == ToBigEndian(FromBigEndian(payload[0..4])) + payload[4..16] + payload[16..]
  {
    BigEndianInverse(payload[0..4]);
    assert payload == payload[0..4] + payload[4..16] + payload[16..];
  }

  /** Nothing else decrypts: a payload that does is the frame of something that was sealed for this very tenant and
      field, under the key the resolver yields for the version in front, and decrypts to what was sealed. */
  lemma DecryptedWasSealed(log: Log, dekResolver: u32 -> Result<bytes>, payload: bytes, tenant: string, field: string,
                           expected: Option<u32>)
    returns (version: u32, nonce: bytes, ciphertext: bytes, dek: bytes, plaintext: bytes)
    requires DecryptData(log, dekResolver, payload, tenant, field, expected).Ok?
    ensures payload == ToBigEndian(version) + nonce + ciphertext && |nonce| == 12
    ensures ciphertext in log && log[ciphertext] == Sealing(dek, nonce, Aad(tenant, field), plaintext)
    ensures DecryptData(log, dekResolver, payload, tenant, field, expected) == Ok(plaintext)
    ensures dekResolver(version) == Ok(dek) && |dek| == 32 && (expected == None || expected == Some(version))
  {
    Reframe(payload);
    version, nonce, ciphertext := FromBigEndian(payload[0..4]), payload[4..16], payload[16..];
    dek, plaintext := dekResolver(version).value, log[ciphertext].msg;
    hide FromBigEndian, ToBigEndian, Aad;
  }

  /** How decryption fails: on a payload too short for its frame, another version than the one expected, a key that the
      resolver refuses or that is not 32 bytes long, in this order, and otherwise only because nothing was sealed so. */
  lemma DecryptionErrors(log: Log, dekResolver: u32 -> Result<bytes>, payload: bytes, tenant: string, field: string,
                         expected: Option<u32>)
    ensures
      var r := DecryptData(log, dekResolver, payload, tenant, field, expected);
      if |payload| < 16 then r == Err(Generic)
      else
        var version: u32 := payload[0] as int * 0x100_0000 + payload[1] as int * 0x1_0000 + payload[2] as int * 0x100 + payload[3] as int;
        if expected.Some? && expected.value != version then r == Err(DecryptionFailed)
        else if dekResolver(version).Err? then r == dekResolver(version)
        else if |dekResolver(version).value| != 32 then r == Err(Generic)
        else r.Ok? || r == Err(DecryptionFailed)
  {
  }
}
