/**
 * Encrypted ids of app/components/crypto: PKCS#7 padding (section 6.3 of RFC 5652), a block
 * cipher in ECB mode (section 6.1 of NIST SP 800-38A) and a text codec. The cipher, the key
 * derivation and the codec are parameters.
 */
module IdCipher {
  import opened Wrappers
  import opened Int64

  type Byte = x: int | 0 <= x < 256

  const BLOCK_SIZE: nat := 16
  datatype BlockCipher = BlockCipher(enc: seq<Byte> -> seq<Byte>, dec: seq<Byte> -> seq<Byte>) {
    ghost predicate Invertible() {
      forall b :: |b| == BLOCK_SIZE ==>
        |enc(b)| == BLOCK_SIZE && |dec(b)| == BLOCK_SIZE && dec(enc(b)) == b && enc(dec(b)) == b
    }
  }

  datatype Codec = Codec(encode: seq<Byte> -> string, decode: string -> Option<seq<Byte>>) {
    ghost predicate Lossless() {
      forall b :: decode(encode(b)) == Some(b) && (b != [] ==> encode(b) != "")
    }
  }

  /** Key derivation, the cipher of a key, and the text codec. */
  datatype Primitives = Primitives(derive: string -> seq<Byte>, cipher: seq<Byte> -> BlockCipher, codec: Codec) {
    ghost predicate Sound() {
      codec.Lossless() && forall key :: cipher(key).Invertible()
    }
  }

  datatype CryptoError = EmptyData | EmptyEncrypted | BadEncoding | BadLength | NoData | BadPadding | BadIdLength

  // ─── Padding and blocks ─────────────────────────────────────────────────────

  function PadLength(n: nat): (k: Byte)
    ensures 1 <= k <= BLOCK_SIZE && (n + k) % BLOCK_SIZE == 0
  {
    BLOCK_SIZE - n % BLOCK_SIZE
  }

  function Repeat(b: Byte, n: nat): (s: seq<Byte>)
    ensures |s| == n && forall i :: 0 <= i < n ==> s[i] == b
  {
    seq(n, _ => b)
  }

  function Pad(data: seq<Byte>): seq<Byte> {
    data + Repeat(PadLength(|data|), PadLength(|data|))
  }

  predicate PaddingOk(p: seq<Byte>) {
    && p != []
    && var n := p[|p| - 1];
    && 1 <= n <= BLOCK_SIZE && n <= |p|
    && forall i :: |p| - n <= i < |p| ==> p[i] == n
  }

  function Unpad(p: seq<Byte>): Option<seq<Byte>> {
    if PaddingOk(p) then Some(p[..|p| - p[|p| - 1]]) else None
  }

  /** Each whole block of `s` through `f`. */
  function Ecb(f: seq<Byte> -> seq<Byte>, s: seq<Byte>): seq<Byte> {
    if |s| < BLOCK_SIZE then []
    else Ecb(f, s[..|s| - BLOCK_SIZE]) + f(s[|s| - BLOCK_SIZE..])
  }

  lemma UnpadPad(data: seq<Byte>)
    ensures Unpad(Pad(data)) == Some(data)
  {
    var p := Pad(data);
    assert p[|p| - 1] == PadLength(|data|);
    assert p[..|data|] == data;
  }

  /** Padding is canonical: whole blocks that unpad to `data` are its padding. */
  lemma PadUnpad(p: seq<Byte>, data: seq<Byte>)
    requires |p| % BLOCK_SIZE == 0 && Unpad(p) == Some(data)
    ensures p == Pad(data)
  {
    var n := p[|p| - 1];
    assert |data| == |p| - n;
    assert PadLength(|data|) == n;
    assert p == data + p[|data|..];
    assert p[|data|..] == Repeat(n, n);
  }

  lemma EcbSnoc(f: seq<Byte> -> seq<Byte>, s: seq<Byte>, block: seq<Byte>)
    requires |block| == BLOCK_SIZE
    ensures Ecb(f, s + block) == Ecb(f, s) + f(block)
  {
    var t := s + block;
    assert t[..|t| - BLOCK_SIZE] == s && t[|t| - BLOCK_SIZE..] == block;
  }

  lemma {:induction false} EcbLength(f: seq<Byte> -> seq<Byte>, s: seq<Byte>)
    requires |s| % BLOCK_SIZE == 0 && forall b :: |b| == BLOCK_SIZE ==> |f(b)| == BLOCK_SIZE
    ensures |Ecb(f, s)| == |s|
    decreases |s|
  {
    if |s| >= BLOCK_SIZE {
      EcbLength(f, s[..|s| - BLOCK_SIZE]);
    }
  }

  /** Block `k` of the result is block `k` of the text through `f`. */
  lemma {:induction false} EcbAt(f: seq<Byte> -> seq<Byte>, s: seq<Byte>, k: nat)
    requires |s| % BLOCK_SIZE == 0 && forall b :: |b| == BLOCK_SIZE ==> |f(b)| == BLOCK_SIZE
    requires 16 * k + 16 <= |s|
    ensures |Ecb(f, s)| == |s| && Ecb(f, s)[16 * k..16 * k + 16] == f(s[16 * k..16 * k + 16])
    decreases |s|
  {
    var head, last := s[..|s| - 16], s[|s| - 16..];
    assert Ecb(f, s) == Ecb(f, head) + f(last);
    hide Ecb;
    OneBlockLess(|s|);
    EcbLength(f, s);
    EcbLength(f, head);
    if 16 * k + 16 < |s| {
      WholeBlocks(k + 1);
      BlockFits(|s|, 16 * k + 16);
      EcbAt(f, head, k);
      SliceOfHead(head, last, 16 * k);
      SliceOfHead(Ecb(f, head), f(last), 16 * k);
      assert s == head + last;
    } else {
      assert 16 * k == |head| && s[16 * k..16 * k + 16] == last;
      assert (Ecb(f, head) + f(last))[|head|..|head| + 16] == f(last);
    }
  }

  lemma WholeBlocks(k: nat)
    ensures (16 * k) % 16 == 0
  {
  }

  lemma OneBlockLess(n: nat)
    requires n >= 16 && n % 16 == 0
    ensures (n - 16) % 16 == 0
  {
  }

  lemma SliceOfHead(head: seq<Byte>, last: seq<Byte>, i: nat)
    requires i + 16 <= |head|
    ensures (head + last)[i..i + 16] == head[i..i + 16]
  {
  }

  lemma {:induction false} EcbInverse(f: seq<Byte> -> seq<Byte>, g: seq<Byte> -> seq<Byte>, s: seq<Byte>)
    requires |s| % BLOCK_SIZE == 0
    requires forall b :: |b| == BLOCK_SIZE ==> |f(b)| == BLOCK_SIZE && g(f(b)) == b
    ensures Ecb(g, Ecb(f, s)) == s
    decreases |s|
  {
    if |s| >= BLOCK_SIZE {
      var head, last := s[..|s| - BLOCK_SIZE], s[|s| - BLOCK_SIZE..];
      assert s == head + last;
      EcbInverse(f, g, head);
      EcbSnoc(f, head, last);
      EcbSnoc(g, Ecb(f, head), f(last));
    }
  }

  // ─── Encryption as functions ────────────────────────────────────────────────

  function EncryptBytes(c: BlockCipher, data: seq<Byte>): seq<Byte> {
    Ecb(c.enc, Pad(data))
  }

  function DecryptBytes(c: BlockCipher, bytes: seq<Byte>): Result<seq<Byte>, CryptoError> {
    if |bytes| % BLOCK_SIZE != 0 then Err(BadLength)
    else
      var p := Ecb(c.dec, bytes);
      if p == [] then Err(NoData)
      else if Unpad(p).None? then Err(BadPadding)
      else Ok(Unpad(p).value)
  }

  function DecryptText(c: BlockCipher, codec: Codec, text: string): Result<seq<Byte>, CryptoError> {
    if text == "" then Err(EmptyEncrypted)
    else if codec.decode(text).None? then Err(BadEncoding)
    else DecryptBytes(c, codec.decode(text).value)
  }

  /** Decryption accepts exactly the images of encryption, and inverts it. */
  lemma DecryptIffEncrypted(c: BlockCipher, bytes: seq<Byte>, data: seq<Byte>)
    requires c.Invertible()
    ensures DecryptBytes(c, bytes) == Ok(data) <==> bytes == EncryptBytes(c, data)
  {
    assert |Pad(data)| % BLOCK_SIZE == 0 && Pad(data) != [];
    hide Pad, Unpad, Ecb;
    EcbLength(c.enc, Pad(data));
    EcbInverse(c.enc, c.dec, Pad(data));
    UnpadPad(data);
    if DecryptBytes(c, bytes) == Ok(data) {
      EcbLength(c.dec, bytes);
      PadUnpad(Ecb(c.dec, bytes), data);
      EcbInverse(c.dec, c.enc, bytes);
    }
  }

  /** Which error decryption reports, in terms of the text alone. */
  lemma DecryptErrors(c: BlockCipher, codec: Codec, text: string)
    requires c.Invertible()
    ensures
      var r := DecryptText(c, codec, text);
      if text == "" then r == Err(EmptyEncrypted)
      else if codec.decode(text) == None then r == Err(BadEncoding)
      else
        var bytes := codec.decode(text).value;
        if |bytes| % 16 != 0 then r == Err(BadLength)
        else if bytes == [] then r == Err(NoData)
        else (forall data :: bytes != EncryptBytes(c, data)) <==> r == Err(BadPadding)
  {
    if codec.decode(text).Some? {
      var bytes := codec.decode(text).value;
      forall data
        ensures DecryptBytes(c, bytes) == Ok(data) <==> bytes == EncryptBytes(c, data)
      {
        DecryptIffEncrypted(c, bytes, data);
      }
      if |bytes| % 16 == 0 { EcbLength(c.dec, bytes); }
      hide EncryptBytes, Ecb, Unpad;
    }
  }

  // ─── Keys ───────────────────────────────────────────────────────────────────

  const DEFAULT_VERSION := "1.0"

  function KeyName(prefix: string, version: string, keyType: string): string {
    prefix + "_" + (if version == "" then DEFAULT_VERSION else version) + ":" + keyType
  }

  /** The name a key is derived from: no version means the default one. */
  lemma KeyNameOf(prefix: string, version: string, keyType: string)
    ensures KeyName(prefix, "", keyType) == KeyName(prefix, "1.0", keyType) == prefix + "_1.0:" + keyType
    ensures version != "" ==> KeyName(prefix, version, keyType) == prefix + "_" + version + ":" + keyType
  {
    assert KeyName(prefix, "", keyType) == prefix + ("_" + "1.0" + ":") + keyType;
  }

  /** Keys of different types are derived from different names. */
  lemma KeyTypesApart(prefix: string, version: string, s: string, t: string)
    requires KeyName(prefix, version, s) == KeyName(prefix, version, t)
    ensures s == t
  {
    var head := prefix + "_" + (if version == "" then DEFAULT_VERSION else version) + ":";
    assert (head + s)[|head|..] == s && (head + t)[|head|..] == t;
  }

  function CipherOf(env: Primitives, prefix: string, version: string, keyType: string): BlockCipher {
    env.cipher(env.derive(KeyName(prefix, version, keyType)))
  }

  /** The process-wide key cache: it only ever remembers what derivation gives. */
  class KeyCache {
    const env: Primitives
    const prefix: string
    var keys: map<string, seq<Byte>>

    ghost predicate Valid()
      reads this
    {
      forall name :: name in keys ==> keys[name] == env.derive(name)
    }

    constructor (env: Primitives, prefix: string)
      ensures Valid() && this.env == env && this.prefix == prefix
    {
      this.env := env;
      this.prefix := prefix;
      keys := map[];
    }

    method GetKey(version: string, keyType: string) returns (key: seq<Byte>)
      requires Valid()
      modifies this
      ensures Valid() && key == env.derive(KeyName(prefix, version, keyType))
      ensures keys == old(keys)[KeyName(prefix, version, keyType) := key]
    {
      var name := KeyName(prefix, version, keyType);
      if name in keys {
        return keys[name];
      }
      key := env.derive(name);
      keys := keys[name := key];
    }

    method Encrypt(data: seq<Byte>, keyType: string, version: string) returns (r: Result<string, CryptoError>)
      requires Valid() && env.Sound()
      modifies this
      ensures Valid()
      ensures r == if data == [] then Err(EmptyData)
                   else Ok(env.codec.encode(EncryptBytes(CipherOf(env, prefix, version, keyType), data)))
    {
      if |data| == 0 {
        return Err(EmptyData);
      }
      var padding := PadLength(|data|);
      var padtext := new Byte[padding];
      for i := 0 to padding
        invariant Valid()
        invariant forall j :: 0 <= j < i ==> padtext[j] == padding
      {
        padtext[i] := padding;
      }
      var padded := data + padtext[..];
      assert padded == Pad(data);
      var key := GetKey(version, keyType);
      var ciphertext := ThroughBlocks(env.cipher(key).enc, padded);
      return Ok(env.codec.encode(ciphertext));
    }

    method Decrypt(text: string, keyType: string, version: string) returns (r: Result<seq<Byte>, CryptoError>)
      requires Valid() && env.Sound()
      modifies this
      ensures Valid()
      ensures r == DecryptText(CipherOf(env, prefix, version, keyType), env.codec, text)
    {
      hide Ecb, Unpad;
      if text == "" {
        return Err(EmptyEncrypted);
      }
      var decoded := env.codec.decode(text);
      if decoded.None? {
        return Err(BadEncoding);
      }
      if |decoded.value| % BLOCK_SIZE != 0 {
        return Err(BadLength);
      }
      var key := GetKey(version, keyType);
      var p := ThroughBlocks(env.cipher(key).dec, decoded.value);
      if |p| == 0 {
        return Err(NoData);
      }
      var data := RemovePadding(p);
      if data.None? {
        return Err(BadPadding);
      }
      return Ok(data.value);
    }

    method EncryptId(id: int, keyType: string) returns (r: Result<string, CryptoError>)
      requires Valid() && env.Sound() && IsInt64(id)
      modifies this
      ensures Valid()
      ensures r == Ok(env.codec.encode(EncryptBytes(CipherOf(env, prefix, "", keyType), BigEndian(ToUint64(id), 8))))
    {
      r := Encrypt(BigEndian(ToUint64(id), 8), keyType, "");
    }

    method DecryptId(text: string, keyType: string) returns (r: Result<int, CryptoError>)
      requires Valid() && env.Sound()
      modifies this
      ensures Valid()
      ensures r == DecryptIdText(CipherOf(env, prefix, "", keyType), env.codec, text)
    {
      var data := Decrypt(text, keyType, "");
      if data.Err? {
        return Err(data.error);
      }
      if |data.value| != 8 {
        return Err(BadIdLength);
      }
      BigEndianBound(data.value);
      return Ok(ToInt64(FromBigEndian(data.value)));
    }
  }

  /** Checks every padding byte before cutting the padding off. */
  method RemovePadding(p: seq<Byte>) returns (data: Option<seq<Byte>>)
    requires |p| > 0
    ensures data == Unpad(p)
  {
    var padding := p[|p| - 1];
    if padding > BLOCK_SIZE || padding == 0 || padding > |p| {
      return None;
    }
    for i := |p| - padding to |p|
      invariant forall j :: |p| - padding <= j < i ==> p[j] == padding
    {
      if p[i] != padding {
        return None;
      }
    }
    return Some(p[..|p| - padding]);
  }

  lemma BlockFits(n: nat, i: nat)
    requires n % BLOCK_SIZE == 0 && i % BLOCK_SIZE == 0 && i < n
    ensures i + BLOCK_SIZE <= n && (i + BLOCK_SIZE) % BLOCK_SIZE == 0
  {
    var q, r := n / BLOCK_SIZE, i / BLOCK_SIZE;
    assert n == 16 * q && i == 16 * r && r + 1 <= q;
  }

  lemma BlockStep(f: seq<Byte> -> seq<Byte>, input: seq<Byte>, i: nat)
    requires i + BLOCK_SIZE <= |input|
    ensures Ecb(f, input[..i + BLOCK_SIZE]) == Ecb(f, input[..i]) + f(input[i..i + BLOCK_SIZE])
  {
    hide Ecb;
    EcbSnoc(f, input[..i], input[i..i + BLOCK_SIZE]);
    assert input[..i + BLOCK_SIZE] == input[..i] + input[i..i + BLOCK_SIZE];
  }

  method WriteBlock(buffer: array<Byte>, i: nat, block: seq<Byte>)
    requires i + |block| <= buffer.Length
    modifies buffer
    ensures buffer[..i + |block|] == old(buffer[..i]) + block
  {
    forall k | 0 <= k < |block| {
      buffer[i + k] := block[k];
    }
    assert buffer[..i] == old(buffer[..i]) && buffer[i..i + |block|] == block;
    assert buffer[..i + |block|] == buffer[..i] + buffer[i..i + |block|];
  }

  /** The block loop of both directions, filling a buffer of the input's length. */
  method ThroughBlocks(f: seq<Byte> -> seq<Byte>, input: seq<Byte>) returns (output: seq<Byte>)
    requires |input| % BLOCK_SIZE == 0
    requires forall b :: |b| == BLOCK_SIZE ==> |f(b)| == BLOCK_SIZE
    ensures output == Ecb(f, input) && |output| == |input|
  {
    var buffer := new Byte[|input|];
    var i := 0;
    while i < |input|
      invariant 0 <= i <= |input| && i % BLOCK_SIZE == 0
      invariant buffer[..i] == Ecb(f, input[..i])
    {
      BlockFits(|input|, i);
      BlockStep(f, input, i);
      hide Ecb;
      var block := f(input[i..i + BLOCK_SIZE]);
      WriteBlock(buffer, i, block);
      i := i + BLOCK_SIZE;
    }
    assert input[..|input|] == input && buffer[..|input|] == buffer[..];
    output := buffer[..];
  }

  // ─── Ids ────────────────────────────────────────────────────────────────────

  function BigEndian(v: nat, n: nat): (s: seq<Byte>)
    ensures |s| == n
  {
    if n == 0 then [] else BigEndian(v / 256, n - 1) + [v % 256]
  }

  function FromBigEndian(s: seq<Byte>): nat {
    if s == [] then 0 else FromBigEndian(s[..|s| - 1]) * 256 + s[|s| - 1]
  }

  function Pow256(n: nat): nat {
    if n == 0 then 1 else 256 * Pow256(n - 1)
  }

  lemma {:induction false} BigEndianBelow(s: seq<Byte>)
    ensures FromBigEndian(s) < Pow256(|s|)
  {
    if s != [] {
      BigEndianBelow(s[..|s| - 1]);
    }
  }

  lemma BigEndianBound(s: seq<Byte>)
    requires |s| == 8
    ensures FromBigEndian(s) < TWO_TO_THE_64
  {
    BigEndianBelow(s);
    Pow256At8();
  }

  lemma Pow256At8()
    ensures Pow256(8) == TWO_TO_THE_64
  {
    assert Pow256(2) == 0x1_0000;
    assert Pow256(4) == 0x1_0000_0000;
    assert Pow256(6) == 0x1_0000_0000_0000;
  }

  lemma {:induction false} BigEndianInverse(v: nat, n: nat)
    requires v < Pow256(n)
    ensures FromBigEndian(BigEndian(v, n)) == v
  {
    if n > 0 {
      BigEndianInverse(v / 256, n - 1);
      var s := BigEndian(v, n);
      assert s[..|s| - 1] == BigEndian(v / 256, n - 1);
    }
  }

  /** The first byte is the most significant. */
  lemma {:induction false} FirstByteWeighsMost(first: Byte, rest: seq<Byte>)
    ensures FromBigEndian([first] + rest) == first * Pow256(|rest|) + FromBigEndian(rest)
  {
    var s := [first] + rest;
    if rest == [] {
      assert s[..|s| - 1] == [];
    } else {
      var shorter := rest[..|rest| - 1];
      assert s[..|s| - 1] == [first] + shorter;
      FirstByteWeighsMost(first, shorter);
      assert first * (256 * Pow256(|shorter|)) == 256 * (first * Pow256(|shorter|));
    }
  }

  lemma LastByte(x: nat, last: Byte)
    ensures (x * 256 + last) / 256 == x && (x * 256 + last) % 256 == last
  {
  }

  lemma {:induction false} BigEndianUnique(s: seq<Byte>)
    ensures BigEndian(FromBigEndian(s), |s|) == s
  {
    if s != [] {
      var shorter, last := s[..|s| - 1], s[|s| - 1];
      BigEndianUnique(shorter);
      LastByte(FromBigEndian(shorter), last);
      assert FromBigEndian(s) == FromBigEndian(shorter) * 256 + last;
      assert BigEndian(FromBigEndian(s), |s|) == BigEndian(FromBigEndian(s) / 256, |s| - 1) + [FromBigEndian(s) % 256];
      assert s == shorter + [last];
    }
  }

  function DecryptIdText(c: BlockCipher, codec: Codec, text: string): Result<int, CryptoError> {
    var data := DecryptText(c, codec, text);
    if data.Err? then Err(data.error)
    else if |data.value| != 8 then Err(BadIdLength)
    else
      BigEndianBound(data.value);
      Ok(ToInt64(FromBigEndian(data.value)))
  }

  /** An id is refused with the error of its text, or because it is not eight bytes. */
  lemma DecryptIdErrors(c: BlockCipher, codec: Codec, text: string)
    ensures var data, id := DecryptText(c, codec, text), DecryptIdText(c, codec, text);
      && (data.Err? ==> id == Err(data.error))
      && (data.Ok? && |data.value| != 8 ==> id == Err(BadIdLength))
      && (data.Ok? && |data.value| == 8 ==> id.Ok?)
  {
    hide DecryptText;
  }

  // ─── Main results ───────────────────────────────────────────────────────────

  /**
   * A text decrypts to non-empty data iff it decodes to the bytes encryption produces for
   * that data; in particular decrypting what was encrypted gives it back.
   */
  lemma EncryptDecrypt(c: BlockCipher, codec: Codec, text: string, data: seq<Byte>)
    requires c.Invertible() && codec.Lossless() && data != []
    ensures DecryptText(c, codec, text) == Ok(data) <==> text != "" && codec.decode(text) == Some(EncryptBytes(c, data))
    ensures DecryptText(c, codec, codec.encode(EncryptBytes(c, data))) == Ok(data)
  {
    assert EncryptBytes(c, data) != [] by { EcbLength(c.enc, Pad(data)); }
    hide EncryptBytes, DecryptBytes;
    DecryptIffEncrypted(c, EncryptBytes(c, data), data);
    if text != "" && codec.decode(text).Some? {
      DecryptIffEncrypted(c, codec.decode(text).value, data);
    }
  }

  /** Every int64 id, negative ones included, round-trips. */
  lemma IdRoundTrip(c: BlockCipher, codec: Codec, id: int)
    requires c.Invertible() && codec.Lossless() && IsInt64(id)
    ensures DecryptIdText(c, codec, codec.encode(EncryptBytes(c, BigEndian(ToUint64(id), 8)))) == Ok(id)
  {
    hide EncryptBytes, DecryptText, BigEndian, FromBigEndian;
    var data := BigEndian(ToUint64(id), 8);
    EncryptDecrypt(c, codec, codec.encode(EncryptBytes(c, data)), data);
    Pow256At8();
    BigEndianInverse(ToUint64(id), 8);
  }

  lemma IdTextsDistinct(c: BlockCipher, codec: Codec, id: int, other: int)
    requires c.Invertible() && codec.Lossless() && IsInt64(id) && IsInt64(other) && id != other
    ensures codec.encode(EncryptBytes(c, BigEndian(ToUint64(id), 8)))
         != codec.encode(EncryptBytes(c, BigEndian(ToUint64(other), 8)))
  {
    hide EncryptBytes, BigEndian;
    IdRoundTrip(c, codec, id);
    IdRoundTrip(c, codec, other);
  }

  /** An accepted id text decodes to the bytes its id encrypts to. */
  lemma AcceptedIdIsCanonical(c: BlockCipher, codec: Codec, text: string, id: int)
    requires c.Invertible() && codec.Lossless() && IsInt64(id)
    requires DecryptIdText(c, codec, text) == Ok(id)
    ensures codec.decode(text) == Some(EncryptBytes(c, BigEndian(ToUint64(id), 8)))
  {
    hide EncryptBytes, DecryptText, BigEndian, FromBigEndian;
    var data := DecryptText(c, codec, text).value;
    BigEndianBound(data);
    assert ToUint64(id) == FromBigEndian(data);
    BigEndianUnique(data);
    EncryptDecrypt(c, codec, text, data);
  }
}
