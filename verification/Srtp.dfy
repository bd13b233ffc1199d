/** SRTP protection (src/srtp/context.rs).
  *
  * AES in counter mode is an unknown keystream combined by exclusive or, and the truncated
  * HMAC is an unknown function to ten bytes. Nothing is claimed about their strength.
  */
module Srtp {
  import opened Common
  import opened Bytes
  import Rtp

  type Tag = t: seq<u8> | |t| == 10 witness [0, 0, 0, 0, 0, 0, 0, 0, 0, 0]

  datatype Crypto = Crypto(keystream: (seq<u8>, seq<u8>, nat) -> u8, hmac: (seq<u8>, seq<u8>) -> Tag)

  datatype SrtpError = KeyDerivationFailed | PacketTooShort | AuthenticationFailed

  datatype Context = Context(
    clientWriteKey: seq<u8>, serverWriteKey: seq<u8>, clientWriteSalt: seq<u8>, serverWriteSalt: seq<u8>)

  function NewContext(material: seq<u8>): Result<Context, SrtpError> {
    if |material| < 60 then Err(KeyDerivationFailed)
    else Ok(Context(material[0..16], material[16..32], material[32..46], material[46..60]))
  }

  function WriteKeys(ctx: Context, isClient: bool): (seq<u8>, seq<u8>) {
    if isClient then (ctx.clientWriteKey, ctx.clientWriteSalt) else (ctx.serverWriteKey, ctx.serverWriteSalt)
  }

  function ReadKeys(ctx: Context, isClient: bool): (seq<u8>, seq<u8>) {
    if isClient then (ctx.serverWriteKey, ctx.serverWriteSalt) else (ctx.clientWriteKey, ctx.clientWriteSalt)
  }

  /** The salt, zero-padded, combined with the SSRC at byte 4 and the sequence number at byte 8. */
  function Iv(salt: seq<u8>, ssrc: u32, sequenceNumber: u64): (iv: seq<u8>)
    ensures |iv| == 16
  {
    var block := [0, 0, 0, 0] + BeBytes(ssrc, 4) + BeBytes(sequenceNumber, 8);
    seq(16, i requires 0 <= i < 16 => Xor(if i < 14 && i < |salt| then salt[i] else 0, block[i]))
  }

  method GetIv(salt: seq<u8>, ssrc: u32, sequenceNumber: u64) returns (iv: seq<u8>)
    ensures iv == Iv(salt, ssrc, sequenceNumber)
  {
    hide Xor;
    var padded := new u8[16](i => 0);
    var saltLen := Min(|salt|, 14);
    for i := 0 to saltLen
      invariant forall j :: 0 <= j < 16 ==> padded[j] == if j < i then salt[j] else 0
    {
      padded[i] := salt[i];
    }
    var block := [0, 0, 0, 0] + BeBytes(ssrc, 4) + BeBytes(sequenceNumber, 8);
    for i := 0 to 16
      invariant forall j :: 0 <= j < 16 ==>
        padded[j] == var s := if j < saltLen then salt[j] else 0; if j < i then Xor(s, block[j]) else s
    {
      padded[i] := Xor(padded[i], block[i]);
    }
    iv := padded[..];
  }

  /** Under one salt, two packets have the same vector exactly when source and sequence number are the same. */
  lemma IvExact(salt: seq<u8>, ssrc1: u32, number1: u64, ssrc2: u32, number2: u64)
    ensures Iv(salt, ssrc1, number1) == Iv(salt, ssrc2, number2) <==> ssrc1 == ssrc2 && number1 == number2
  {
    hide Xor;
    var (iv1, iv2) := (Iv(salt, ssrc1, number1), Iv(salt, ssrc2, number2));
    if iv1 == iv2 {
      var block1 := [0, 0, 0, 0] + BeBytes(ssrc1, 4) + BeBytes(number1, 8);
      var block2 := [0, 0, 0, 0] + BeBytes(ssrc2, 4) + BeBytes(number2, 8);
      forall i | 0 <= i < 16
        ensures block1[i] == block2[i]
      {
        assert iv1[i] == iv2[i];
        XorCancels(if i < 14 && i < |salt| then salt[i] else 0, block1[i], block2[i]);
      }
      assert block1 == block2;
      assert block1[4..8] == BeBytes(ssrc1, 4) && block2[4..8] == BeBytes(ssrc2, 4);
      assert block1[8..] == BeBytes(number1, 8) && block2[8..] == BeBytes(number2, 8);
      U32RoundTrip(ssrc1);
      U32RoundTrip(ssrc2);
      U64RoundTrip(number1);
      U64RoundTrip(number2);
    }
  }

  /** What enters where: the salt in the first 14 bytes, the source at byte 4, the sequence number at byte 8. */
  lemma IvPlaces(salt: seq<u8>, ssrc: u32, number: u64)
    ensures |salt| == 14 ==> Iv(salt, 0, 0) == salt + [0, 0]
    ensures Iv([], ssrc, number) == [0, 0, 0, 0] + BeBytes(ssrc, 4) + BeBytes(number, 8)
  {
    hide Xor;
    var block := [0, 0, 0, 0] + BeBytes(ssrc, 4) + BeBytes(number, 8);
    forall i | 0 <= i < 16
      ensures Iv([], ssrc, number)[i] == block[i]
    {
      XorZero(block[i]);
    }
    if |salt| == 14 {
      ZeroBytes(4);
      ZeroBytes(8);
      forall i | 0 <= i < 16
        ensures Iv(salt, 0, 0)[i] == (salt + [0, 0])[i]
      {
        XorZero((salt + [0, 0])[i]);
      }
    }
  }

  lemma {:induction false} ZeroBytes(n: nat)
    ensures forall i :: 0 <= i < n ==> BeBytes(0, n)[i] == 0
  {
    if n > 0 {
      ZeroBytes(n - 1);
    }
  }

  /** Counter mode: the same operation encrypts and decrypts. */
  function ApplyKeystream(crypto: Crypto, key: seq<u8>, iv: seq<u8>, data: seq<u8>): seq<u8> {
    seq<u8>(|data|, i requires 0 <= i < |data| => Xor(data[i], crypto.keystream(key, iv, i)))
  }

  function Protect(crypto: Crypto, ctx: Context, p: Rtp.RtpPacket, isClient: bool): Result<seq<u8>, SrtpError> {
    var (key, salt) := WriteKeys(ctx, isClient);
    var bytes := Rtp.ToBytes(p);
    if |bytes| < 33 then Err(PacketTooShort)
    else
      var content := bytes[..33] + ApplyKeystream(crypto, key, Iv(salt, p.ssrc, p.sequenceNumber), bytes[33..]);
      Ok(content + crypto.hmac(key, content))
  }

  /** The bytes that reach the header parser once the tag is right. */
  function Decrypted(crypto: Crypto, ctx: Context, bytes: seq<u8>, isClient: bool): seq<u8>
    requires |bytes| >= 43
  {
    var (key, salt) := ReadKeys(ctx, isClient);
    var content := bytes[..|bytes| - 10];
    content[..33] + ApplyKeystream(crypto, key, Iv(salt, U32(bytes[29..33]), U64(bytes[5..13])), content[33..])
  }

  function Unprotect(crypto: Crypto, ctx: Context, bytes: seq<u8>, isClient: bool): Result<Rtp.RtpPacket, SrtpError> {
    if |bytes| < 33 + 10 then Err(PacketTooShort)
    else
      var key := ReadKeys(ctx, isClient).0;
      var content, tag := bytes[..|bytes| - 10], bytes[|bytes| - 10..];
      if crypto.hmac(key, content) != tag then Err(AuthenticationFailed)
      else
        match Rtp.FromBytes(Decrypted(crypto, ctx, bytes, isClient))
        case Some(p) => Ok(p)
        case None => Err(PacketTooShort)
  }

  lemma KeystreamInvolution(crypto: Crypto, key: seq<u8>, iv: seq<u8>, data: seq<u8>)
    ensures ApplyKeystream(crypto, key, iv, ApplyKeystream(crypto, key, iv, data)) == data
  {
    hide Xor;
    var once := ApplyKeystream(crypto, key, iv, data);
    var twice := ApplyKeystream(crypto, key, iv, once);
    forall i | 0 <= i < |data|
      ensures twice[i] == data[i]
    {
      XorInvolution(data[i], crypto.keystream(key, iv, i));
    }
  }

  /** What one end protects, the other end of the same keying material reads back, version reduced to two bits. */
  lemma UnprotectReadsBack(crypto: Crypto, ctx: Context, p: Rtp.RtpPacket, isClient: bool)
    ensures var sent := Protect(crypto, ctx, p, isClient);
      sent.Ok? && Unprotect(crypto, ctx, sent.value, !isClient) == Ok(p.(version := p.version % 4))
  {
    hide Iv, Rtp.FromBytes, Xor;
    var (key, salt) := WriteKeys(ctx, isClient);
    var iv := Iv(salt, p.ssrc, p.sequenceNumber);
    var cipher := ApplyKeystream(crypto, key, iv, p.payload);
    var header := Rtp.Header(p);
    var content := header + cipher;
    var bytes := content + crypto.hmac(key, content);
    assert Rtp.ToBytes(p)[..33] == header && Rtp.ToBytes(p)[33..] == p.payload;
    assert bytes[..|bytes| - 10] == content && bytes[|bytes| - 10..] == crypto.hmac(key, content);
    assert content[..33] == header && content[33..] == cipher;
    Rtp.HeaderFields(p);
    assert bytes[29..33] == header[29..33] && bytes[5..13] == header[5..13];
    U32RoundTrip(p.ssrc);
    U64RoundTrip(p.sequenceNumber);
    KeystreamInvolution(crypto, key, iv, p.payload);
    Rtp.ReadBack(p);
  }

  /** Protection round-trips exactly the packets whose version fits two bits. */
  lemma ProtectionExact(crypto: Crypto, ctx: Context, p: Rtp.RtpPacket, isClient: bool)
    ensures var sent := Protect(crypto, ctx, p, isClient);
      sent.Ok? && (Unprotect(crypto, ctx, sent.value, !isClient) == Ok(p) <==> p.version < 4)
  {
    hide Protect, Unprotect;
    UnprotectReadsBack(crypto, ctx, p, isClient);
  }

  /** The keying material in order, too short below 60 bytes; the client writes with the first key and salt. */
  lemma ContextExact(material: seq<u8>)
    ensures NewContext(material).Ok? <==> |material| >= 60
    ensures NewContext(material).Ok? ==>
              var ctx := NewContext(material).value;
              var ((key1, salt1), (key2, salt2)) := (WriteKeys(ctx, true), WriteKeys(ctx, false));
              && key1 + key2 + salt1 + salt2 == material[..60]
              && |key1| == |key2| == 16 && |salt1| == |salt2| == 14
  {
  }

  /** What is sent: the header in clear, each payload byte masked by the keystream, and the tag of all that. */
  lemma WireFormat(crypto: Crypto, ctx: Context, p: Rtp.RtpPacket, isClient: bool)
    ensures var (sent, (key, salt), n) := (Protect(crypto, ctx, p, isClient), WriteKeys(ctx, isClient), |p.payload|);
      && sent.Ok? && |sent.value| == 33 + n + 10 && sent.value[..33] == Rtp.Header(p)
      && (forall i :: 0 <= i < n ==>
            sent.value[33 + i] == Xor(p.payload[i], crypto.keystream(key, Iv(salt, p.ssrc, p.sequenceNumber), i)))
      && sent.value[33 + n..] == crypto.hmac(key, sent.value[..33 + n])
  {
    hide Iv, Xor;
    assert Rtp.ToBytes(p)[..33] == Rtp.Header(p) && Rtp.ToBytes(p)[33..] == p.payload;
  }

  lemma DecryptedParts(crypto: Crypto, ctx: Context, bytes: seq<u8>, isClient: bool)
    requires |bytes| >= 43
    ensures var (raw, (key, salt)) := (Decrypted(crypto, ctx, bytes, isClient), ReadKeys(ctx, isClient));
      && |raw| == |bytes| - 10 && raw[..33] == bytes[..33]
      && raw[29..33] == bytes[29..33] && raw[5..13] == bytes[5..13]
      && ApplyKeystream(crypto, key, Iv(salt, U32(bytes[29..33]), U64(bytes[5..13])), raw[33..])
         == bytes[33..|bytes| - 10]
  {
    hide Iv, U32, U64;
    var (key, salt) := ReadKeys(ctx, isClient);
    var raw := Decrypted(crypto, ctx, bytes, isClient);
    var content := bytes[..|bytes| - 10];
    var iv := Iv(salt, U32(bytes[29..33]), U64(bytes[5..13]));
    assert content[33..] == bytes[33..|bytes| - 10] && content[..33] == bytes[..33];
    assert raw[33..] == ApplyKeystream(crypto, key, iv, content[33..]);
    KeystreamInvolution(crypto, key, iv, content[33..]);
  }

  lemma ProtectedAgain(crypto: Crypto, ctx: Context, p: Rtp.RtpPacket, isClient: bool, cipher: seq<u8>)
    requires var (key, salt) := WriteKeys(ctx, isClient);
      ApplyKeystream(crypto, key, Iv(salt, p.ssrc, p.sequenceNumber), p.payload) == cipher
    ensures var content := Rtp.Header(p) + cipher;
      Protect(crypto, ctx, p, isClient) == Ok(content + crypto.hmac(WriteKeys(ctx, isClient).0, content))
  {
    hide Iv, ApplyKeystream;
    assert Rtp.ToBytes(p)[..33] == Rtp.Header(p) && Rtp.ToBytes(p)[33..] == p.payload;
  }

  /** Two framings are the same bytes exactly when their headers are the same. */
  lemma SameBytes(bytes: seq<u8>, header: seq<u8>, tag: Tag)
    requires |bytes| >= 43 && |header| == 33
    requires header == bytes[..33] ==> tag == bytes[|bytes| - 10..]
    ensures header + bytes[33..|bytes| - 10] + tag == bytes <==> header == bytes[..33]
  {
    var again := header + bytes[33..|bytes| - 10] + tag;
    assert again[..33] == header;
    assert bytes == bytes[..33] + bytes[33..|bytes| - 10] + bytes[|bytes| - 10..];
  }

  /** Whatever the bytes: too short, a wrong tag, or read; and what is read is what the other end sends for it,
    * exactly when the six spare bits are clear and the I-frame flag is 0 or 1. */
  lemma UnprotectExact(crypto: Crypto, ctx: Context, bytes: seq<u8>, isClient: bool)
    ensures var (r, (key, _)) := (Unprotect(crypto, ctx, bytes, isClient), WriteKeys(ctx, !isClient));
      if |bytes| < 43 then r == Err(PacketTooShort)
      else if crypto.hmac(key, bytes[..|bytes| - 10]) != bytes[|bytes| - 10..] then r == Err(AuthenticationFailed)
      else r.Ok? && (Protect(crypto, ctx, r.value, !isClient) == Ok(bytes) <==> bytes[0] % 64 == 0 && bytes[3] <= 1)
  {
    hide Iv, ApplyKeystream, Protect, Rtp.Header, U32, U64, U128;
    var key := WriteKeys(ctx, !isClient).0;
    if |bytes| >= 43 && crypto.hmac(key, bytes[..|bytes| - 10]) == bytes[|bytes| - 10..] {
      var raw := Decrypted(crypto, ctx, bytes, isClient);
      DecryptedParts(crypto, ctx, bytes, isClient);
      Rtp.HeaderReadBack(raw);
      var p := Rtp.FromBytes(raw).value;
      assert Unprotect(crypto, ctx, bytes, isClient) == Ok(p);
      var (header, cipher) := (Rtp.Header(p), bytes[33..|bytes| - 10]);
      ProtectedAgain(crypto, ctx, p, !isClient, cipher);
      assert bytes[..33] + cipher == bytes[..|bytes| - 10];
      SameBytes(bytes, header, crypto.hmac(key, header + cipher));
    }
  }
}
