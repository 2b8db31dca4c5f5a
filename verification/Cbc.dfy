/** Padding, cipher block chaining over any block permutation, and the AES wrappers around them. */
module Cbc {
  import opened Std

  type Bytes = seq<byte>

  // ---------------------------------------------------------------- whole blocks

  /** n is a number of whole blocks of m bytes. */
  predicate Whole(n: int, m: nat)
    requires m >= 1
    decreases n
  {
    n == 0 || (n >= m && Whole(n - m, m))
  }

  lemma {:induction false} WholeIsMultiple(n: nat, m: nat)
    requires m >= 1
    ensures Whole(n, m) <==> n % m == 0
  {
    if n >= m {
      WholeIsMultiple(n - m, m);
      ModMinus(n, m);
    }
  }

  lemma ModMinus(n: nat, m: nat)
    requires 1 <= m <= n
    ensures (n - m) % m == n % m
  {
    var q, r := n / m, n % m;
    SubBlock(q, m, r);
    Remainder(q - 1, m, r);
  }

  lemma SubBlock(q: int, m: nat, r: int)
    ensures q * m + r - m == (q - 1) * m + r
  {
  }

  lemma Remainder(q: int, m: nat, r: nat)
    requires r < m && q * m + r >= 0
    ensures (q * m + r) % m == r
  {
    var x := q * m + r;
    SameDivision(q, r, x / m, x % m, m);
  }

  lemma SameDivision(q: int, r: nat, q': int, r': nat, m: nat)
    requires r < m && r' < m && q * m + r == q' * m + r'
    ensures q == q' && r == r'
  {
    assert (q - q') * m == r' - r && (q' - q) * m == r - r';
    if q > q' {
      AtLeast(q - q', m);
    } else if q < q' {
      AtLeast(q' - q, m);
    }
  }

  lemma AtLeast(k: nat, m: nat)
    requires k >= 1
    ensures k * m >= m
  {
  }

  // ---------------------------------------------------------------- padding

  function PadLength(n: nat, blockSize: nat): (p: nat)
    requires blockSize >= 1
    ensures 1 <= p <= blockSize
  {
    blockSize - n % blockSize
  }

  function PKCS5Padding(text: Bytes, blockSize: nat): (r: Bytes)
    requires blockSize >= 1
    ensures |text| < |r| <= |text| + blockSize && text <= r
  {
    var padding := PadLength(|text|, blockSize);
    text + seq(padding, _ => padding % 256)
  }

  lemma PaddedIsWhole(text: Bytes, blockSize: nat)
    requires blockSize >= 1
    ensures Whole(|PKCS5Padding(text, blockSize)|, blockSize)
  {
    var n, m := |text|, blockSize;
    var q, r := n / m, n % m;
    assert n + (m - r) == (q + 1) * m;
    Remainder(q + 1, m, 0);
    WholeIsMultiple(n + (m - r), m);
  }

  /** Up to 255, the padding is 1 to blockSize bytes, each of them their number, up to the next whole block. */
  lemma PaddingBytes(text: Bytes, blockSize: nat)
    requires 1 <= blockSize <= 255
    ensures var data := PKCS5Padding(text, blockSize);
            var n := |data| - |text|;
            && 1 <= n <= blockSize && |data| % blockSize == 0 && data[..|text|] == text
            && forall i :: |text| <= i < |data| ==> data[i] == n
  {
    PaddedIsWhole(text, blockSize);
    WholeIsMultiple(|PKCS5Padding(text, blockSize)|, blockSize);
  }

  /** None is the run-time panic of an index or slice out of range. */
  function PKCS5UnPadding(data: Bytes): Option<Bytes> {
    if data == [] then None
    else
      var unpadding := data[|data| - 1];
      if unpadding > |data| then None else Some(data[..|data| - unpadding])
  }

  /** Unpadding undoes padding exactly when the number of padding bytes fits one byte. */
  lemma UnpadsExactly(text: Bytes, blockSize: nat)
    requires blockSize >= 1
    ensures PKCS5UnPadding(PKCS5Padding(text, blockSize)) == Some(text) <==> blockSize - |text| % blockSize <= 255
  {
    var padding := PadLength(|text|, blockSize);
    var data := PKCS5Padding(text, blockSize);
    var u := data[|data| - 1];
    assert u == padding % 256;
    assert |data[..|data| - u]| == |text| + padding - u;
    if padding <= 255 {
      assert data[..|data| - u] == text;
    }
  }

  // ---------------------------------------------------------------- chaining

  /** A block permutation and its inverse: what a key makes of the block function. */
  datatype Cipher = Cipher(size: nat, enc: Bytes -> Bytes, dec: Bytes -> Bytes)

  ghost predicate Inverts(c: Cipher, b: Bytes) {
    && |c.enc(b)| == c.size && c.dec(c.enc(b)) == b
    && |c.dec(b)| == c.size && c.enc(c.dec(b)) == b
  }

  ghost predicate Permutation(c: Cipher) {
    c.size >= 1 && forall b {:trigger Inverts(c, b)} :: |b| == c.size ==> Inverts(c, b)
  }

  function Pow2(n: nat): nat {
    if n == 0 then 1 else 2 * Pow2(n - 1)
  }

  /** Exclusive or of the low bits of two numbers. */
  function XorBits(a: nat, b: nat, bits: nat): (r: nat)
    ensures r < Pow2(bits)
  {
    if bits == 0 then 0 else (a + b) % 2 + 2 * XorBits(a / 2, b / 2, bits - 1)
  }

  function XorByte(a: byte, b: byte): byte {
    assert Pow2(8) == 256;
    XorBits(a, b, 8)
  }

  function Xor(a: Bytes, b: Bytes): (r: Bytes)
    requires |a| == |b|
    ensures |r| == |a|
  {
    seq(|a|, i requires 0 <= i < |a| => XorByte(a[i], b[i]))
  }

  /** Bit k of a number. */
  function Bit(n: nat, k: nat): nat {
    if k == 0 then n % 2 else Bit(n / 2, k - 1)
  }

  lemma {:induction false} XorBitsAt(a: nat, b: nat, bits: nat, k: nat)
    requires k < bits
    ensures Bit(XorBits(a, b, bits), k) == if Bit(a, k) != Bit(b, k) then 1 else 0
  {
    var r := XorBits(a / 2, b / 2, bits - 1);
    LowBit((a + b) % 2, r);
    if k == 0 {
      Parity(a, b, (a + b) % 2);
    } else {
      XorBitsAt(a / 2, b / 2, bits - 1, k - 1);
    }
  }

  /** Each bit of the exclusive or is set exactly where the two differ. */
  lemma XorBitwise(a: Bytes, b: Bytes, i: nat, k: nat)
    requires |a| == |b| && i < |a| && k < 8
    ensures Bit(Xor(a, b)[i], k) == if Bit(a[i], k) != Bit(b[i], k) then 1 else 0
  {
    XorBitsAt(a[i], b[i], 8, k);
  }

  lemma {:induction false} XorBitsTwice(a: nat, b: nat, bits: nat)
    requires b < Pow2(bits)
    ensures XorBits(a, XorBits(a, b, bits), bits) == b
  {
    if bits > 0 {
      XorBitsTwice(a / 2, b / 2, bits - 1);
      var r := XorBits(a / 2, b / 2, bits - 1);
      var y := (a + b) % 2 + 2 * r;
      assert y / 2 == r;
      Parity(a, b, y);
    }
  }

  lemma LowBit(bit: nat, r: nat)
    requires bit < 2
    ensures (bit + 2 * r) / 2 == r && (bit + 2 * r) % 2 == bit
  {
  }

  lemma Parity(a: nat, b: nat, y: nat)
    requires y % 2 == (a + b) % 2
    ensures (a + y) % 2 == b % 2
  {
  }

  lemma XorTwice(a: Bytes, b: Bytes)
    requires |a| == |b|
    ensures Xor(a, Xor(a, b)) == b
  {
    forall i | 0 <= i < |a| ensures Xor(a, Xor(a, b))[i] == b[i] {
      assert Pow2(8) == 256;
      XorBitsTwice(a[i], b[i], 8);
    }
  }

  ghost function EncBlock(c: Cipher, prev: Bytes, x: Bytes): (b: Bytes)
    requires Permutation(c) && |prev| == |x| == c.size
    ensures |b| == c.size
  {
    assert Inverts(c, Xor(prev, x));
    c.enc(Xor(prev, x))
  }

  ghost function DecBlock(c: Cipher, prev: Bytes, y: Bytes): (b: Bytes)
    requires Permutation(c) && |prev| == |y| == c.size
    ensures |b| == c.size
  {
    assert Inverts(c, y);
    Xor(prev, c.dec(y))
  }

  lemma BlockRoundTrip(c: Cipher, prev: Bytes, x: Bytes)
    requires Permutation(c) && |prev| == |x| == c.size
    ensures DecBlock(c, prev, EncBlock(c, prev, x)) == x
    ensures EncBlock(c, prev, DecBlock(c, prev, x)) == x
  {
    assert Inverts(c, Xor(prev, x)) && Inverts(c, x);
    XorTwice(prev, x);
    XorTwice(prev, c.dec(x));
  }

  ghost function Encrypt(c: Cipher, iv: Bytes, x: Bytes): (y: Bytes)
    requires Permutation(c) && |iv| == c.size && Whole(|x|, c.size)
    ensures |y| == |x|
    decreases |x|
  {
    if x == [] then []
    else var b := EncBlock(c, iv, x[..c.size]); b + Encrypt(c, b, x[c.size..])
  }

  ghost function Decrypt(c: Cipher, iv: Bytes, y: Bytes): (x: Bytes)
    requires Permutation(c) && |iv| == c.size && Whole(|y|, c.size)
    ensures |x| == |y|
    decreases |y|
  {
    if y == [] then []
    else DecBlock(c, iv, y[..c.size]) + Decrypt(c, y[..c.size], y[c.size..])
  }

  /** Encryption and decryption, seen from a first block and the rest. */
  lemma EncryptCons(c: Cipher, iv: Bytes, x: Bytes, rest: Bytes)
    requires Permutation(c) && |iv| == |x| == c.size && Whole(|rest|, c.size)
    ensures Whole(|x + rest|, c.size)
    ensures Encrypt(c, iv, x + rest) == EncBlock(c, iv, x) + Encrypt(c, EncBlock(c, iv, x), rest)
  {
    assert (x + rest)[..c.size] == x && (x + rest)[c.size..] == rest;
  }

  lemma DecryptCons(c: Cipher, iv: Bytes, y: Bytes, rest: Bytes)
    requires Permutation(c) && |iv| == |y| == c.size && Whole(|rest|, c.size)
    ensures Whole(|y + rest|, c.size)
    ensures Decrypt(c, iv, y + rest) == DecBlock(c, iv, y) + Decrypt(c, y, rest)
  {
    assert (y + rest)[..c.size] == y && (y + rest)[c.size..] == rest;
  }

  lemma {:induction false} DecryptEncrypt(c: Cipher, iv: Bytes, x: Bytes)
    requires Permutation(c) && |iv| == c.size && Whole(|x|, c.size)
    ensures Decrypt(c, iv, Encrypt(c, iv, x)) == x
    decreases |x|
  {
    if x != [] {
      var first, rest := x[..c.size], x[c.size..];
      assert x == first + rest;
      var b := EncBlock(c, iv, first);
      EncryptCons(c, iv, first, rest);
      DecryptCons(c, iv, b, Encrypt(c, b, rest));
      BlockRoundTrip(c, iv, first);
      DecryptEncrypt(c, b, rest);
    }
  }

  lemma {:induction false} EncryptDecrypt(c: Cipher, iv: Bytes, y: Bytes)
    requires Permutation(c) && |iv| == c.size && Whole(|y|, c.size)
    ensures Encrypt(c, iv, Decrypt(c, iv, y)) == y
    decreases |y|
  {
    if y != [] {
      var first, rest := y[..c.size], y[c.size..];
      assert y == first + rest;
      DecryptCons(c, iv, first, rest);
      EncryptCons(c, iv, DecBlock(c, iv, first), Decrypt(c, first, rest));
      BlockRoundTrip(c, iv, first);
      EncryptDecrypt(c, first, rest);
    }
  }

  /** The block of x that starts at p is combined with the crypted block before it, the first one with the IV. */
  lemma {:induction false} ChainedAt(c: Cipher, iv: Bytes, x: Bytes, p: nat)
    requires Permutation(c) && |iv| == c.size && Whole(|x|, c.size) && Whole(p, c.size) && p < |x|
    ensures p + c.size <= |x| && (p == 0 || p >= c.size)
    ensures var y := Encrypt(c, iv, x);
            y[p..p + c.size] == c.enc(Xor(if p == 0 then iv else y[p - c.size..p], x[p..p + c.size]))
    decreases |x|
  {
    var m := c.size;
    var b := EncBlock(c, iv, x[..m]);
    var rest := Encrypt(c, b, x[m..]);
    if p == 0 {
      assert x[0..m] == x[..m] && (b + rest)[0..m] == b;
    } else {
      ChainedAt(c, b, x[m..], p - m);
      Behind(x[..m], x[m..], p, m);
      Behind(b, rest, p, m);
      assert x == x[..m] + x[m..];
      if p != m {
        Behind(b, rest, p - m, m);
      }
    }
  }

  /** The m bytes from p on, behind a first block. */
  lemma Behind(first: Bytes, rest: Bytes, p: nat, m: nat)
    requires |first| == m <= p && p <= |rest|
    ensures (first + rest)[p..p + m] == rest[p - m..p] && (first + rest)[0..m] == first
  {
  }

  /** Writes a block into dst behind the first i bytes. */
  method WriteBlock(dst: array<byte>, i: nat, block: Bytes)
    requires i + |block| <= dst.Length
    modifies dst
    ensures dst[..i + |block|] == old(dst[..i]) + block
  {
    for j := 0 to |block|
      invariant dst[..i + j] == old(dst[..i]) + block[..j]
    {
      dst[i + j] := block[j];
      assert dst[..i + j + 1] == dst[..i + j] + [block[j]];
    }
  }

  /** One turn of each loop: a block moves from what is still to do to what is done. */
  lemma EncryptStep(c: Cipher, prev: Bytes, done: Bytes, todo: Bytes)
    requires Permutation(c) && |prev| == c.size && Whole(|todo|, c.size) && todo != []
    ensures |todo| >= c.size && Whole(|todo[c.size..]|, c.size)
    ensures var b := EncBlock(c, prev, todo[..c.size]);
            b == c.enc(Xor(prev, todo[..c.size]))
            && done + Encrypt(c, prev, todo) == (done + b) + Encrypt(c, b, todo[c.size..])
  {
    assert todo == todo[..c.size] + todo[c.size..];
    EncryptCons(c, prev, todo[..c.size], todo[c.size..]);
  }

  lemma DecryptStep(c: Cipher, prev: Bytes, done: Bytes, todo: Bytes)
    requires Permutation(c) && |prev| == c.size && Whole(|todo|, c.size) && todo != []
    ensures |todo| >= c.size && Whole(|todo[c.size..]|, c.size) && |c.dec(todo[..c.size])| == c.size
    ensures var b := DecBlock(c, prev, todo[..c.size]);
            b == Xor(prev, c.dec(todo[..c.size]))
            && done + Decrypt(c, prev, todo) == (done + b) + Decrypt(c, todo[..c.size], todo[c.size..])
  {
    assert Inverts(c, todo[..c.size]);
    assert todo == todo[..c.size] + todo[c.size..];
    DecryptCons(c, prev, todo[..c.size], todo[c.size..]);
  }

  /** CryptBlocks of the CBC encrypter: block after block into dst, each chained to the one before. */
  method EncryptBlocks(c: Cipher, iv: Bytes, dst: array<byte>, src: Bytes)
    requires Permutation(c) && |iv| == c.size && Whole(|src|, c.size) && dst.Length == |src|
    modifies dst
    ensures dst[..] == Encrypt(c, iv, src)
  {
    var i, prev, todo := 0, iv, src;
    ghost var total, done := Encrypt(c, iv, src), [];
    while todo != []
      invariant i + |todo| == dst.Length && |prev| == c.size && Whole(|todo|, c.size)
      invariant dst[..i] == done && done + Encrypt(c, prev, todo) == total
      decreases |todo|
    {
      EncryptStep(c, prev, done, todo);
      prev := c.enc(Xor(prev, todo[..c.size]));
      WriteBlock(dst, i, prev);
      done := done + prev;
      i, todo := i + c.size, todo[c.size..];
    }
    assert dst[..i] == dst[..];
  }

  method DecryptBlocks(c: Cipher, iv: Bytes, dst: array<byte>, src: Bytes)
    requires Permutation(c) && |iv| == c.size && Whole(|src|, c.size) && dst.Length == |src|
    modifies dst
    ensures dst[..] == Decrypt(c, iv, src)
  {
    var i, prev, todo := 0, iv, src;
    ghost var total, done := Decrypt(c, iv, src), [];
    while todo != []
      invariant i + |todo| == dst.Length && |prev| == c.size && Whole(|todo|, c.size)
      invariant dst[..i] == done && done + Decrypt(c, prev, todo) == total
      decreases |todo|
    {
      DecryptStep(c, prev, done, todo);
      var block := Xor(prev, c.dec(todo[..c.size]));
      WriteBlock(dst, i, block);
      done, prev := done + block, todo[..c.size];
      i, todo := i + c.size, todo[c.size..];
    }
    assert dst[..i] == dst[..];
  }

  // ---------------------------------------------------------------- AesEncrypt, AesDecrypt

  const BLOCK := 16

  datatype Outcome = Text(value: Bytes) | BadKey | Panic

  predicate KeyOk(key: Bytes) {
    |key| == 16 || |key| == 24 || |key| == 32
  }

  /** aes makes of every accepted key a permutation of 16-byte blocks. */
  ghost predicate BlockFamily(aes: Bytes -> Cipher) {
    forall key {:trigger aes(key)} :: KeyOk(key) ==> Permutation(aes(key)) && aes(key).size == BLOCK
  }

  ghost function Encrypted(aes: Bytes -> Cipher, text: Bytes, key: Bytes): Outcome
    requires BlockFamily(aes)
  {
    if !KeyOk(key) then BadKey
    else
      PaddedIsWhole(text, BLOCK);
      Text(Encrypt(aes(key), key[..BLOCK], PKCS5Padding(text, BLOCK)))
  }

  ghost function Decrypted(aes: Bytes -> Cipher, crypted: Bytes, key: Bytes): Outcome
    requires BlockFamily(aes)
  {
    if !KeyOk(key) then BadKey
    else if !Whole(|crypted|, BLOCK) then Panic
    else match PKCS5UnPadding(Decrypt(aes(key), key[..BLOCK], crypted))
         case None => Panic
         case Some(text) => Text(text)
  }

  method AesEncrypt(aes: Bytes -> Cipher, origData: Bytes, key: Bytes) returns (r: Outcome)
    requires BlockFamily(aes)
    ensures r == Encrypted(aes, origData, key)
  {
    if !KeyOk(key) {
      return BadKey;
    }
    var block := aes(key);
    var blockSize := block.size;
    var padded := PKCS5Padding(origData, blockSize);
    PaddedIsWhole(origData, blockSize);
    var crypted := new byte[|padded|];
    EncryptBlocks(block, key[..blockSize], crypted, padded);
    return Text(crypted[..]);
  }

  method AesDecrypt(aes: Bytes -> Cipher, crypted: Bytes, key: Bytes) returns (r: Outcome)
    requires BlockFamily(aes)
    ensures r == Decrypted(aes, crypted, key)
  {
    if !KeyOk(key) {
      return BadKey;
    }
    var block := aes(key);
    var blockSize := block.size;
    WholeIsMultiple(|crypted|, blockSize);
    if |crypted| % blockSize != 0 {
      return Panic;
    }
    var origData := new byte[|crypted|];
    DecryptBlocks(block, key[..blockSize], origData, crypted);
    match PKCS5UnPadding(origData[..])
    case None => return Panic;
    case Some(text) => return Text(text);
  }

  /** A key of 16, 24 or 32 bytes is accepted, no other, by both. */
  lemma KeysExactly(aes: Bytes -> Cipher, text: Bytes, key: Bytes)
    requires BlockFamily(aes)
    ensures Encrypted(aes, text, key).BadKey? <==> |key| !in {16, 24, 32}
    ensures Decrypted(aes, text, key).BadKey? <==> |key| !in {16, 24, 32}
  {
  }

  /** What AesEncrypt makes of the padded text, block by block: chained, from the first 16 bytes of the key on. */
  lemma AesChained(aes: Bytes -> Cipher, text: Bytes, key: Bytes, p: nat)
    requires BlockFamily(aes) && KeyOk(key) && Whole(p, BLOCK) && p < |PKCS5Padding(text, BLOCK)|
    ensures var x := PKCS5Padding(text, BLOCK);
            Encrypted(aes, text, key).Text? &&
            var y := Encrypted(aes, text, key).value;
            && |y| == |x| && p + 16 <= |y| && (p == 0 || p >= 16)
            && y[p..p + 16] == aes(key).enc(Xor(if p == 0 then key[..16] else y[p - 16..p], x[p..p + 16]))
  {
    PaddedIsWhole(text, BLOCK);
    ChainedAt(aes(key), key[..BLOCK], PKCS5Padding(text, BLOCK), p);
  }

  /** AesDecrypt panics exactly on what is not whole blocks, on nothing, and on more padding than there is data. */
  lemma PanicsExactly(aes: Bytes -> Cipher, crypted: Bytes, key: Bytes)
    requires BlockFamily(aes) && KeyOk(key)
    ensures var broken := |crypted| % 16 != 0 || crypted == [];
            && (broken ==> Decrypted(aes, crypted, key).Panic?)
            && (!broken ==> Whole(|crypted|, BLOCK) &&
                            var data := Decrypt(aes(key), key[..BLOCK], crypted);
                            (Decrypted(aes, crypted, key).Panic? <==> data[|data| - 1] > |data|))
  {
    WholeIsMultiple(|crypted|, BLOCK);
  }

  /** Decryption undoes encryption for every text and every key that is accepted. */
  lemma RoundTrip(aes: Bytes -> Cipher, text: Bytes, key: Bytes)
    requires BlockFamily(aes) && KeyOk(key)
    ensures Encrypted(aes, text, key).Text? && Whole(|Encrypted(aes, text, key).value|, BLOCK)
    ensures Decrypted(aes, Encrypted(aes, text, key).value, key) == Text(text)
  {
    PaddedIsWhole(text, BLOCK);
    DecryptEncrypt(aes(key), key[..BLOCK], PKCS5Padding(text, BLOCK));
    UnpadsExactly(text, BLOCK);
  }

  /** The padding section 6.3 of RFC 5652 asks for: u bytes of value u, with u from 1 to 16. */
  ghost predicate WellPadded(data: Bytes) {
    data != [] &&
    var u := data[|data| - 1];
    1 <= u <= BLOCK && u <= |data| && forall i :: |data| - u <= i < |data| ==> data[i] == u
  }

  lemma PadLengthOf(n: nat, u: nat)
    requires 1 <= u <= n && u <= BLOCK && n % BLOCK == 0
    ensures PadLength(n - u, BLOCK) == u
  {
  }

  /** Padding what unpadding left gives the data back exactly when the padding was well formed. */
  lemma RepadsExactly(data: Bytes)
    requires |data| % BLOCK == 0 && PKCS5UnPadding(data).Some?
    ensures PKCS5Padding(PKCS5UnPadding(data).value, BLOCK) == data <==> WellPadded(data)
  {
    var text := PKCS5UnPadding(data).value;
    var padded := PKCS5Padding(text, BLOCK);
    var u := data[|data| - 1];
    if padded == data {
      assert forall i :: |text| <= i < |data| ==> data[i] == padded[i] == PadLength(|text|, BLOCK);
      assert data[|data| - 1] == PadLength(|text|, BLOCK);
    }
    if WellPadded(data) {
      PadLengthOf(|data|, u);
      assert data == text + data[|text|..];
    }
  }

  /** What decrypts without a panic encrypts back to itself exactly when its padding was well formed. */
  lemma {:induction false} ReencryptsExactly(aes: Bytes -> Cipher, crypted: Bytes, key: Bytes)
    requires BlockFamily(aes) && KeyOk(key) && Decrypted(aes, crypted, key).Text?
    ensures Encrypted(aes, Decrypted(aes, crypted, key).value, key) == Text(crypted)
            <==> WellPadded(Decrypt(aes(key), key[..BLOCK], crypted))
  {
    var c, iv := aes(key), key[..BLOCK];
    var data := Decrypt(c, iv, crypted);
    var text := Decrypted(aes, crypted, key).value;
    PaddedIsWhole(text, BLOCK);
    EncryptDecrypt(c, iv, crypted);
    DecryptEncrypt(c, iv, PKCS5Padding(text, BLOCK));
    WholeIsMultiple(|data|, BLOCK);
    RepadsExactly(data);
  }
}
