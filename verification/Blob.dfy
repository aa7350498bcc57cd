/** The encrypted keystore file: magic, header length as a little-endian 32-bit
    number, header JSON, ciphertext. */
module Blob {
  import opened Prelude
  import opened Crypto
  import opened JsonNumber
  import opened Json
  import opened JsonAccess
  import opened JsonBytes
  import JsonString
  import Hex
  import Utf8

  const MAGIC: Bytes := [0x53, 0x43, 0x4B, 0x31]
  const TWO_32: nat := 0x1_0000_0000
  const SCRYPT_LOG_N := 15
  const SCRYPT_R := 8
  const SCRYPT_P := 1
  const SALT_LEN: nat := 16
  const NONCE_LEN: nat := 24

  // ---------- Framing ----------

  /** The low 32 bits of `n`, least significant byte first. */
  function Le32(n: nat): (bs: Bytes)
    ensures |bs| == 4
  {
    [n % 256, n / 256 % 256, n / 0x1_0000 % 256, n / 0x100_0000 % 256]
  }

  function FromLe32(bs: Bytes): (n: nat)
    requires |bs| == 4
    ensures n < TWO_32
  {
    bs[0] as int + 256 * bs[1] as int + 0x1_0000 * bs[2] as int + 0x100_0000 * bs[3] as int
  }

  lemma FromLe32OfLe32(n: nat)
    ensures FromLe32(Le32(n)) == n % TWO_32
  {
    var q1, q2, q3 := n / 256, n / 0x1_0000, n / 0x100_0000;
    assert q2 == q1 / 256 && q3 == q2 / 256;
    assert n == 256 * q1 + n % 256 && q1 == 256 * q2 + q1 % 256 && q2 == 256 * q3 + q2 % 256;
    assert q3 == 256 * (q3 / 256) + q3 % 256;
  }

  lemma Le32OfFromLe32(bs: Bytes)
    requires |bs| == 4
    ensures Le32(FromLe32(bs)) == bs
  {
    var b0: int, b1: int, b2: int, b3: int := bs[0], bs[1], bs[2], bs[3];
    var n := FromLe32(bs);
    assert n / 256 == b1 + 256 * b2 + 0x1_0000 * b3;
    assert n / 0x1_0000 == b2 + 256 * b3;
    assert n / 0x100_0000 == b3;
  }

  function Frame(header: Bytes, ciphertext: Bytes): Bytes {
    MAGIC + Le32(|header|) + header + ciphertext
  }

  function Unframe(blob: Bytes): Option<(Bytes, Bytes)> {
    if |blob| < 8 || blob[..4] != MAGIC then
      None
    else
      var end := 8 + FromLe32(blob[4..8]);
      if end <= |blob| then Some((blob[8..end], blob[end..])) else None
  }

  /** Unframing gives back header and ciphertext exactly when the header's
      length fits the 32-bit field. */
  lemma UnframeOfFrame(header: Bytes, ciphertext: Bytes)
    ensures Unframe(Frame(header, ciphertext)) == Some((header, ciphertext)) <==> |header| < TWO_32
  {
    hide Le32, FromLe32;
    var blob := Frame(header, ciphertext);
    FromLe32OfLe32(|header|);
    Parts(MAGIC, Le32(|header|), header, ciphertext);
  }

  lemma Parts(a: Bytes, b: Bytes, c: Bytes, d: Bytes)
    requires |a| == |b| == 4
    ensures
      var blob := a + b + c + d;
      blob[..4] == a && blob[4..8] == b && blob[8..8 + |c|] == c && blob[8 + |c|..] == d
  {
  }

  /** Every accepted blob is the frame of its parts. */
  lemma FrameOfUnframe(blob: Bytes)
    requires Unframe(blob).Some?
    ensures Frame(Unframe(blob).value.0, Unframe(blob).value.1) == blob
    ensures |Unframe(blob).value.0| < TWO_32
  {
    var (header, ciphertext) := Unframe(blob).value;
    Le32OfFromLe32(blob[4..8]);
    var end := 8 + |header|;
    assert blob == blob[..4] + blob[4..8] + blob[8..end] + blob[end..];
  }

  // ---------- Header and secret ----------

  datatype Header = Header(kdf: string, logN: int, r: int, p: int, salt: string, nonce: string)

  datatype Secret = Secret(pem: string, hmacHex: string)

  function HeaderJson(h: Header): Json {
    Obj([
      Member("kdf", Str(h.kdf)), Member("log_n", Num(Safe(h.logN))), Member("r", Num(Safe(h.r))),
      Member("p", Num(Safe(h.p))), Member("salt", Str(h.salt)), Member("nonce", Str(h.nonce))
    ])
  }

  function HeaderFromJson(v: Json): Option<Header> {
    HeaderFromFields(Field(v, "kdf"), Field(v, "log_n"), Field(v, "r"), Field(v, "p"), Field(v, "salt"), Field(v, "nonce"))
  }

  function HeaderFromFields(kdf: Option<Json>, logN: Option<Json>, r: Option<Json>, p: Option<Json>,
                            salt: Option<Json>, nonce: Option<Json>): Option<Header>
  {
    match (AsString(kdf), AsInt(logN), AsInt(r), AsInt(p), AsString(salt), AsString(nonce))
    case (Some(k), Some(n), Some(x), Some(y), Some(s), Some(t)) =>
      if 0 <= n < 256 && 0 <= x < TWO_32 && 0 <= y < TWO_32 then Some(Header(k, n, x, y, s, t)) else None
    case _ => None
  }

  function SecretJson(s: Secret): Json {
    Obj([Member("ed25519_pkcs8_pem", Str(s.pem)), Member("hmac_hex", Str(s.hmacHex))])
  }

  function SecretFromJson(v: Json): Option<Secret> {
    match (AsString(Field(v, "ed25519_pkcs8_pem")), AsString(Field(v, "hmac_hex")))
    case (Some(pem), Some(hmacHex)) => Some(Secret(pem, hmacHex))
    case _ => None
  }

  // ---------- Encryption and decryption ----------

  function BlobHeader(salt: Bytes, nonce: Bytes): Header {
    Header("scrypt", SCRYPT_LOG_N, SCRYPT_R, SCRYPT_P, Hex.Encode(salt), Hex.Encode(nonce))
  }

  /** The blob that holds `s` under `pass`, for the drawn salt and nonce. */
  function EncryptSecret(c: Crypto, s: Secret, pass: string, salt: Bytes, nonce: Bytes): Bytes {
    var key := c.kdf(pass, salt, SCRYPT_LOG_N, SCRYPT_R, SCRYPT_P);
    Frame(ToBytes(HeaderJson(BlobHeader(salt, nonce))), c.encrypt(key, nonce, ToBytes(SecretJson(s))))
  }

  /** Write the blob piece by piece. */
  method WriteBlob(c: Crypto, s: Secret, pass: string, salt: Bytes, nonce: Bytes) returns (out: Bytes)
    ensures out == EncryptSecret(c, s, pass, salt, nonce)
  {
    var key := c.kdf(pass, salt, SCRYPT_LOG_N, SCRYPT_R, SCRYPT_P);
    var ciphertext := c.encrypt(key, nonce, ToBytes(SecretJson(s)));
    var header := ToBytes(HeaderJson(BlobHeader(salt, nonce)));
    out := WriteFrame(header, ciphertext);
  }

  method WriteFrame(header: Bytes, ciphertext: Bytes) returns (out: Bytes)
    ensures out == Frame(header, ciphertext)
  {
    out := MAGIC;
    out := out + Le32(|header|);
    out := out + header;
    out := out + ciphertext;
  }

  /** The secret in a blob; anything that is not a blob under `pass` is a decryption error. */
  function DecryptSecret(c: Crypto, blob: Bytes, pass: string): (r: Result<Secret, SealError>)
    ensures r.Err? ==> r.error == Decrypt
  {
    match Unframe(blob)
    case None => Err(Decrypt)
    case Some((headerBytes, ciphertext)) =>
      match FromBytes(headerBytes)
      case None => Err(Decrypt)
      case Some(v) =>
        match HeaderFromJson(v)
        case None => Err(Decrypt)
        case Some(h) => Open(c, h, ciphertext, pass)
  }

  function Open(c: Crypto, h: Header, ciphertext: Bytes, pass: string): (r: Result<Secret, SealError>)
    ensures r.Err? ==> r.error == Decrypt
  {
    if h.kdf != "scrypt" || !c.kdfAccepts(h.logN, h.r, h.p) then
      Err(Decrypt)
    else
      match (Hex.Decode(h.salt), Hex.Decode(h.nonce))
      case (Some(salt), Some(nonce)) =>
        if |nonce| != NONCE_LEN then
          Err(Decrypt)
        else
          (match c.decrypt(c.kdf(pass, salt, h.logN, h.r, h.p), nonce, ciphertext)
           case None => Err(Decrypt)
           case Some(plain) =>
             match FromBytes(plain)
             case None => Err(Decrypt)
             case Some(v) =>
               match SecretFromJson(v)
               case None => Err(Decrypt)
               case Some(s) => Ok(s))
      case _ => Err(Decrypt)
  }

  // ---------- Round trip ----------

  lemma SecretRoundTrip(s: Secret)
    ensures WF(SecretJson(s)) && SecretFromJson(SecretJson(s)) == Some(s)
  {
    var ms := SecretJson(s).members;
    assert ms[1..][0] == ms[1];
    assert "ed25519_pkcs8_pem"[0] != "hmac_hex"[0];
  }

  lemma HeaderFromMembers(ms: seq<Member>, h: Header, k: seq<string>)
    requires UniqueKeys(ms) && |k| == |ms| == 6
    requires ms[0] == Member(k[0], Str(h.kdf)) && ms[1] == Member(k[1], Num(Safe(h.logN)))
    requires ms[2] == Member(k[2], Num(Safe(h.r))) && ms[3] == Member(k[3], Num(Safe(h.p)))
    requires ms[4] == Member(k[4], Str(h.salt)) && ms[5] == Member(k[5], Str(h.nonce))
    requires 0 <= h.logN < 256 && 0 <= h.r < TWO_32 && 0 <= h.p < TWO_32
    ensures HeaderFromFields(Field(Obj(ms), k[0]), Field(Obj(ms), k[1]), Field(Obj(ms), k[2]), Field(Obj(ms), k[3]),
                             Field(Obj(ms), k[4]), Field(Obj(ms), k[5])) == Some(h)
  {
    FieldAt(ms, 0, k[0]);
    FieldAt(ms, 1, k[1]);
    FieldAt(ms, 2, k[2]);
    FieldAt(ms, 3, k[3]);
    FieldAt(ms, 4, k[4]);
    FieldAt(ms, 5, k[5]);
  }

  lemma HeaderIsWF(h: Header)
    requires 0 <= h.logN < 256 && 0 <= h.r < TWO_32 && 0 <= h.p < TWO_32
    ensures WF(HeaderJson(h))
  {
    HeaderKeysDiffer(h);
  }

  lemma HeaderRoundTrip(h: Header)
    requires 0 <= h.logN < 256 && 0 <= h.r < TWO_32 && 0 <= h.p < TWO_32
    ensures HeaderFromJson(HeaderJson(h)) == Some(h)
  {
    HeaderKeysDiffer(h);
    HeaderFromMembers(HeaderJson(h).members, h, ["kdf", "log_n", "r", "p", "salt", "nonce"]);
  }

  lemma HeaderKeysDiffer(h: Header)
    ensures UniqueKeys(HeaderJson(h).members)
  {
    var ms := HeaderJson(h).members;
    assert |ms[0].key| == 3 && |ms[1].key| == 5 && |ms[2].key| == 1 && |ms[3].key| == 1;
    assert |ms[4].key| == 4 && |ms[5].key| == 5;
    assert ms[2].key[0] != ms[3].key[0] && ms[1].key[0] != ms[5].key[0];
  }

  lemma {:induction false} EscapeIsShort(s: string)
    ensures |JsonString.EscapeAll(s)| <= 6 * |s|
  {
    if s != "" {
      EscapeIsShort(s[1..]);
    }
  }

  lemma {:induction false} Utf8IsShort(s: string)
    ensures |Utf8.Encode(s)| <= 4 * |s|
  {
    if s != "" {
      Utf8IsShort(s[1..]);
    }
  }

  lemma ParametersAreShort()
    ensures |Text(Safe(SCRYPT_LOG_N))| == 2 && |Text(Safe(SCRYPT_R))| == 1 && |Text(Safe(SCRYPT_P))| == 1
  {
    assert Decimal(15) == Decimal(1) + "5";
  }

  lemma QuoteIsShort(s: string)
    ensures |JsonString.Quote(s)| <= 6 * |s| + 2
  {
    EscapeIsShort(s);
  }

  /** The printed header is far below the limit of the length field. */
  lemma HeaderIsShort(salt: Bytes, nonce: Bytes)
    requires |salt| == SALT_LEN && |nonce| == NONCE_LEN
    ensures |ToBytes(HeaderJson(BlobHeader(salt, nonce)))| < TWO_32
  {
    hide Text, JsonString.Quote, PrintMembers, Utf8.Encode, Hex.Encode;
    var h := BlobHeader(salt, nonce);
    var ms := HeaderJson(h).members;
    ParametersAreShort();
    QuoteIsShort(h.kdf);
    QuoteIsShort(h.salt);
    QuoteIsShort(h.nonce);
    forall i | 0 <= i < |ms| ensures |JsonString.Quote(ms[i].key)| <= 300 {
      QuoteIsShort(ms[i].key);
    }
    ShortHeader(ms);
    Utf8IsShort(Print(Obj(ms)));
  }

  lemma ShortHeader(ms: seq<Member>)
    requires |ms| == 6
    requires forall i | 0 <= i < |ms| :: |JsonString.Quote(ms[i].key)| <= 300 && |Print(ms[i].value)| <= 300
    ensures |Print(Obj(ms))| <= 3613
  {
    MembersAreShort(ms);
  }

  lemma {:induction false} MembersAreShort(ms: seq<Member>)
    requires ms != []
    requires forall i | 0 <= i < |ms| :: |JsonString.Quote(ms[i].key)| <= 300 && |Print(ms[i].value)| <= 300
    ensures |PrintMembers(ms)| <= 602 * |ms|
  {
    if |ms| > 1 {
      MembersAreShort(ms[1..]);
      assert |PrintMembers(ms)| == |JsonString.Quote(ms[0].key)| + 1 + |Print(ms[0].value)| + 1 + |PrintMembers(ms[1..])|;
    }
  }

  lemma DecryptOfFrame(c: Crypto, h: Header, ciphertext: Bytes, pass: string)
    requires WF(HeaderJson(h)) && HeaderFromJson(HeaderJson(h)) == Some(h)
    requires |ToBytes(HeaderJson(h))| < TWO_32
    ensures DecryptSecret(c, Frame(ToBytes(HeaderJson(h)), ciphertext), pass) == Open(c, h, ciphertext, pass)
  {
    UnframeOfFrame(ToBytes(HeaderJson(h)), ciphertext);
    FromBytesOfToBytes(HeaderJson(h));
  }

  lemma OpenOfEncrypt(c: Crypto, s: Secret, pass: string, salt: Bytes, nonce: Bytes, other: string)
    requires IdealCipher(c) && c.kdfAccepts(SCRYPT_LOG_N, SCRYPT_R, SCRYPT_P)
    requires |nonce| == NONCE_LEN
    ensures Open(c, BlobHeader(salt, nonce),
                 c.encrypt(c.kdf(pass, salt, SCRYPT_LOG_N, SCRYPT_R, SCRYPT_P), nonce, ToBytes(SecretJson(s))), other) ==
            if other == pass then Ok(s) else Err(Decrypt)
  {
    Hex.DecodeOfEncode(salt);
    Hex.DecodeOfEncode(nonce);
    SecretRoundTrip(s);
    FromBytesOfToBytes(SecretJson(s));
  }

  /** Decrypting an encrypted secret gives it back under its own passphrase and
      a decryption error under every other. */
  lemma DecryptOfEncrypt(c: Crypto, s: Secret, pass: string, salt: Bytes, nonce: Bytes, other: string)
    requires IdealCipher(c) && c.kdfAccepts(SCRYPT_LOG_N, SCRYPT_R, SCRYPT_P)
    requires |salt| == SALT_LEN && |nonce| == NONCE_LEN
    ensures DecryptSecret(c, EncryptSecret(c, s, pass, salt, nonce), other) ==
            if other == pass then Ok(s) else Err(Decrypt)
  {
    var h := BlobHeader(salt, nonce);
    var ciphertext := c.encrypt(c.kdf(pass, salt, SCRYPT_LOG_N, SCRYPT_R, SCRYPT_P), nonce, ToBytes(SecretJson(s)));
    HeaderIsShort(salt, nonce);
    HeaderIsWF(h);
    HeaderRoundTrip(h);
    DecryptOfFrame(c, h, ciphertext, other);
    OpenOfEncrypt(c, s, pass, salt, nonce, other);
  }

  /** No blob opens under two passphrases. */
  lemma OnePassphrase(c: Crypto, blob: Bytes, pass: string, other: string)
    requires IdealCipher(c)
    requires DecryptSecret(c, blob, pass).Ok? && DecryptSecret(c, blob, other).Ok?
    ensures pass == other
  {
    var (headerBytes, ciphertext) := Unframe(blob).value;
    var h := HeaderFromJson(FromBytes(headerBytes).value).value;
    assert Open(c, h, ciphertext, pass).Ok? && Open(c, h, ciphertext, other).Ok?;
    OneOpening(c, h, ciphertext, pass, other);
  }

  lemma OneOpening(c: Crypto, h: Header, ciphertext: Bytes, pass: string, other: string)
    requires IdealCipher(c)
    requires Open(c, h, ciphertext, pass).Ok? && Open(c, h, ciphertext, other).Ok?
    ensures pass == other
  {
  }

  // ---------- Which blobs open ----------

  /** Header and ciphertext give the secret under the passphrase: the header names
      scrypt with parameters it accepts, a salt and a nonce of the right length,
      and what decrypts under the derived key is a secret. */
  predicate OpensTo(c: Crypto, header: Bytes, ciphertext: Bytes, pass: string, s: Secret) {
    && FromBytes(header).Some? && HeaderFromJson(FromBytes(header).value).Some?
    && var h := HeaderFromJson(FromBytes(header).value).value;
    && h.kdf == "scrypt" && 0 <= h.logN < 256 && 0 <= h.r < TWO_32 && 0 <= h.p < TWO_32 && c.kdfAccepts(h.logN, h.r, h.p)
    && Hex.Decode(h.salt).Some? && Hex.Decode(h.nonce).Some? && |Hex.Decode(h.nonce).value| == 24
    && var plain := c.decrypt(c.kdf(pass, Hex.Decode(h.salt).value, h.logN, h.r, h.p), Hex.Decode(h.nonce).value, ciphertext);
    && plain.Some? && FromBytes(plain.value).Some? && SecretFromJson(FromBytes(plain.value).value) == Some(s)
  }

  lemma OpenIs(c: Crypto, header: Bytes, ciphertext: Bytes, pass: string, s: Secret)
    ensures OpensTo(c, header, ciphertext, pass, s) <==>
      FromBytes(header).Some? && HeaderFromJson(FromBytes(header).value).Some? &&
      Open(c, HeaderFromJson(FromBytes(header).value).value, ciphertext, pass) == Ok(s)
  {
    hide FromBytes, Hex.Decode, SecretFromJson, HeaderFromJson;
    if FromBytes(header).Some? {
      HeaderIsInRange(FromBytes(header).value);
    }
  }

  lemma HeaderIsInRange(v: Json)
    ensures
      var h := HeaderFromJson(v);
      h.Some? ==> 0 <= h.value.logN < 256 && 0 <= h.value.r < TWO_32 && 0 <= h.value.p < TWO_32
  {
    hide Field;
  }

  /** What an encrypted blob says of itself: scrypt with these costs, and the salt
      and the nonce that were drawn. */
  lemma BlobSays(c: Crypto, s: Secret, pass: string, salt: Bytes, nonce: Bytes)
    requires |salt| == SALT_LEN && |nonce| == NONCE_LEN
    ensures
      var parts := Unframe(EncryptSecret(c, s, pass, salt, nonce));
      && parts.Some? && FromBytes(parts.value.0).Some?
      && HeaderFromJson(FromBytes(parts.value.0).value) == Some(Header("scrypt", 15, 8, 1, Hex.Encode(salt), Hex.Encode(nonce)))
      && parts.value.1 == c.encrypt(c.kdf(pass, salt, 15, 8, 1), nonce, ToBytes(SecretJson(s)))
  {
    hide Frame, Unframe, ToBytes, FromBytes, HeaderJson, HeaderFromJson, Hex.Encode;
    var h := BlobHeader(salt, nonce);
    HeaderIsShort(salt, nonce);
    HeaderIsWF(h);
    HeaderRoundTrip(h);
    FromBytesOfToBytes(HeaderJson(h));
    UnframeOfFrame(ToBytes(HeaderJson(h)), c.encrypt(c.kdf(pass, salt, SCRYPT_LOG_N, SCRYPT_R, SCRYPT_P), nonce, ToBytes(SecretJson(s))));
  }

  /** The blob is the frame of the parts, and they open to the secret. */
  predicate IsBlobOf(c: Crypto, blob: Bytes, header: Bytes, ciphertext: Bytes, pass: string, s: Secret) {
    && blob == [0x53, 0x43, 0x4B, 0x31] + Le32(|header|) + header + ciphertext && |header| < TWO_32
    && OpensTo(c, header, ciphertext, pass, s)
  }

  /** Decryption succeeds exactly on the frames whose parts open. */
  lemma DecryptsExactly(c: Crypto, blob: Bytes, pass: string, s: Secret)
    ensures DecryptSecret(c, blob, pass) == Ok(s) <==>
      exists header, ciphertext :: IsBlobOf(c, blob, header, ciphertext, pass, s)
  {
    hide OpensTo, FromBytes, HeaderFromJson, Open, Unframe, Le32;
    if DecryptSecret(c, blob, pass) == Ok(s) {
      var (header, ciphertext) := Unframe(blob).value;
      FrameOfUnframe(blob);
      OpenIs(c, header, ciphertext, pass, s);
      assert IsBlobOf(c, blob, header, ciphertext, pass, s);
    }
    if exists header, ciphertext :: IsBlobOf(c, blob, header, ciphertext, pass, s) {
      var header, ciphertext :| IsBlobOf(c, blob, header, ciphertext, pass, s);
      UnframeOfFrame(header, ciphertext);
      OpenIs(c, header, ciphertext, pass, s);
    }
  }
}
