/** Time-based one-time passwords (internal/lang/totp.go): RFC 6238 over the HOTP value of RFC 4226.
    HMAC-SHA1 is an arbitrary function to 20 bytes, the base32 decoder an arbitrary partial function. */
module Totp {
  import opened Wrappers
  import opened Decimal

  type Byte = b: int | 0 <= b < 256

  const MAX_DIGITS := 10

  datatype Options = Options(period: int, digits: int, algorithm: string, timestamp: Option<int>)

  datatype TotpError = BadPeriod | BadDigits | TooManyDigits | UnsupportedAlgorithm | NegativeTimestamp | InvalidSecret

  /** The two library functions and the wall clock the generator depends on. */
  datatype Env = Env(hmacSha1: (seq<Byte>, seq<Byte>) -> seq<Byte>, decodeSecret: string -> Option<seq<Byte>>, now: int)

  ghost predicate Valid(env: Env) {
    forall key, message :: |env.hmacSha1(key, message)| == 20
  }

  /** StToNum of section 5.3 of RFC 4226: a byte string read as a big-endian number. */
  function BigEndianValue(bytes: seq<Byte>): nat {
    if bytes == [] then 0 else BigEndianValue(bytes[..|bytes| - 1]) * 256 + bytes[|bytes| - 1]
  }

  /** The low `width` bytes of n, most significant first. */
  function BigEndian(n: nat, width: nat): seq<Byte> {
    if width == 0 then [] else BigEndian(n / 256, width - 1) + [n % 256]
  }

  function Pow256(k: nat): nat { if k == 0 then 1 else 256 * Pow256(k - 1) }

  lemma {:induction false} BigEndianRoundTrip(n: nat, width: nat)
    requires n < Pow256(width)
    ensures |BigEndian(n, width)| == width && BigEndianValue(BigEndian(n, width)) == n
  {
    if width > 0 {
      BigEndianRoundTrip(n / 256, width - 1);
      assert BigEndian(n, width)[..width - 1] == BigEndian(n / 256, width - 1);
    }
  }

  /** Dynamic truncation as the code assembles it: four shifted bytes, the top bit masked off.
      The shifted fields do not overlap, so joining them with | is adding them. */
  function Truncate(sum: seq<Byte>): nat
    requires |sum| == 20
  {
    var offset := sum[|sum| - 1] % 0x10;
    var b0: int, b1: int, b2: int, b3: int := sum[offset], sum[offset + 1], sum[offset + 2], sum[offset + 3];
    (b0 % 0x80) * 0x100_0000 + b1 * 0x1_0000 + b2 * 0x100 + b3
  }

  /** RFC 4226 section 5.3: the last 31 bits of the four bytes at the offset the last nibble names. */
  lemma TruncateIsLast31Bits(sum: seq<Byte>)
    requires |sum| == 20
    ensures var offset := sum[19] % 0x10;
            Truncate(sum) == BigEndianValue(sum[offset..offset + 4]) % 0x8000_0000
  {
    var offset := sum[19] % 0x10;
    var four := sum[offset..offset + 4];
    assert four[..3][..2][..1][..0] == [];
    assert four[..3][..2] == four[..2] && four[..2][..1] == four[..1];
    var b0: int, b1: int, b2: int, b3: int := four[0], four[1], four[2], four[3];
    assert BigEndianValue(four[..1]) == b0;
    assert BigEndianValue(four[..2]) == b0 * 256 + b1;
    assert BigEndianValue(four[..3]) == (b0 * 256 + b1) * 256 + b2;
    assert BigEndianValue(four) == ((b0 * 256 + b1) * 256 + b2) * 256 + b3;
    var high := b0 / 0x80;
    assert b0 == high * 0x80 + b0 % 0x80;
    assert BigEndianValue(four) == high * 0x8000_0000 + Truncate(sum);
  }

  /** strings.EqualFold against "SHA1": 'S' also folds with the long s, U+017F. */
  predicate NamesSha1(algorithm: string) {
    && |algorithm| == 4
    && algorithm[0] in ['S', 's', '\U{017F}']
    && algorithm[1] in ['H', 'h']
    && algorithm[2] in ['A', 'a']
    && algorithm[3] == '1'
  }

  /** The first check of GenerateTOTP that fails, in source order. */
  function Rejection(env: Env, secret: string, opts: Options): Option<TotpError> {
    var timestamp := if opts.timestamp.None? then env.now else opts.timestamp.value;
    if opts.period < 0 then Some(BadPeriod)
    else if opts.digits < 0 then Some(BadDigits)
    else if opts.digits > MAX_DIGITS then Some(TooManyDigits)
    else if opts.algorithm != "" && !NamesSha1(opts.algorithm) then Some(UnsupportedAlgorithm)
    else if timestamp < 0 then Some(NegativeTimestamp)
    else if env.decodeSecret(secret).None? then Some(InvalidSecret)
    else None
  }

  /** Nothing else is rejected than a negative period, a number of digits outside 0 to 10, an algorithm
      other than SHA-1, a time before the epoch and a secret that does not decode. */
  lemma AcceptedExactly(env: Env, secret: string, opts: Options)
    ensures Rejection(env, secret, opts).None? <==>
              && 0 <= opts.period && 0 <= opts.digits <= 10
              && (opts.algorithm == "" || NamesSha1(opts.algorithm))
              && (match opts.timestamp case Some(t) => t >= 0 case None => env.now >= 0)
              && env.decodeSecret(secret).Some?
  {
  }

  /** An accepted request yields exactly the requested number of decimal digits (6 by default), and
      they spell the truncated HMAC of the 8-byte time-step counter modulo 10^digits
      (section 5.3 of RFC 4226, section 4.2 of RFC 6238). */
  method GenerateTotp(env: Env, secret: string, opts: Options) returns (r: Result<string, TotpError>)
    requires Valid(env)
    ensures r.Err? <==> Rejection(env, secret, opts).Some?
    ensures r.Err? ==> r.error == Rejection(env, secret, opts).value
    ensures r.Ok? ==>
              var digits := if opts.digits == 0 then 6 else opts.digits;
              var period := if opts.period == 0 then 30 else opts.period;
              var timestamp := if opts.timestamp.None? then env.now else opts.timestamp.value;
              var sum := env.hmacSha1(env.decodeSecret(secret).value, BigEndian(timestamp / period, 8));
              var offset := sum[19] % 16;
              && |r.value| == digits && AllDigits(r.value)
              && Value(r.value) == BigEndianValue(sum[offset..offset + 4]) % 0x8000_0000 % Pow10(digits)
  {
    var period := opts.period;
    if period == 0 {
      period := 30;
    }
    if period <= 0 {
      return Err(BadPeriod);
    }
    var digits := opts.digits;
    if digits == 0 {
      digits := 6;
    }
    if digits <= 0 {
      return Err(BadDigits);
    }
    if digits > MAX_DIGITS {
      return Err(TooManyDigits);
    }
    var algorithm := opts.algorithm;
    if algorithm == "" {
      algorithm := "SHA1";
    }
    if !NamesSha1(algorithm) {
      return Err(UnsupportedAlgorithm);
    }
    var timestamp := env.now;
    if opts.timestamp.Some? {
      timestamp := opts.timestamp.value;
    }
    if timestamp < 0 {
      return Err(NegativeTimestamp);
    }
    var key := env.decodeSecret(secret);
    if key.None? {
      return Err(InvalidSecret);
    }
    var sum := env.hmacSha1(key.value, BigEndian(timestamp / period, 8));
    var code := Truncate(sum);
    TruncateIsLast31Bits(sum);
    hide Truncate;
    hide BigEndian;
    hide BigEndianValue;
    hide Padded;
    hide NamesSha1;
    hide Value;
    var modulus := 1;
    var i := 0;
    while i < digits
      invariant 0 <= i <= digits
      invariant modulus == Pow10(i) && modulus > 0
    {
      modulus := modulus * 10;
      i := i + 1;
    }
    var otp := code % modulus;
    PaddedRoundTrip(otp, digits);
    r := Ok(Padded(otp, digits));
  }
}
