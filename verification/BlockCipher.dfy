/** The block cipher driver of pkg/gocrypto/wcipher in ECB mode: padding after RFC 5652, section
    6.3, and a loop over blocks.  The cipher itself is any pair of functions on blocks. */
module BlockCipher {
  import opened Wrappers
  import Numbers

  type Byte = x: int | 0 <= x < 256

  type Bytes = seq<Byte>

  /** `cipher.Block`. */
  datatype Block = Block(size: nat, encrypt: Bytes -> Bytes, decrypt: Bytes -> Bytes)

  function Crypted(f: Bytes -> Bytes, block: Bytes): Bytes {
    f(block)
  }

  ghost predicate OnBlocks(f: Bytes -> Bytes, n: nat) {
    n > 0 && forall x: Bytes :: |x| == n ==> |Crypted(f, x)| == n
  }

  /** Decryption undoes encryption, block by block. */
  ghost predicate Inverse(b: Block) {
    && OnBlocks(b.encrypt, b.size) && OnBlocks(b.decrypt, b.size)
    && forall x: Bytes :: |x| == b.size ==> Crypted(b.decrypt, Crypted(b.encrypt, x)) == x
  }

  // ---------- blocks ----------

  /** `l` bytes are full blocks. */
  predicate Full(l: nat, n: nat)
    requires n > 0
    decreases l
  {
    l == 0 || (l >= n && Full(l - n, n))
  }

  lemma {:induction false} FullIff(l: nat, n: nat)
    requires n > 0
    ensures Full(l, n) <==> l % n == 0
    decreases l
  {
    if l >= n {
      FullIff(l - n, n);
      OneBlockLess(l, n);
    }
  }

  lemma OneBlockLess(a: nat, n: nat)
    requires 0 < n <= a
    ensures (a - n) % n == a % n
  {
    Numbers.DivModUnique(a - n, n, a / n - 1, a % n);
  }

  ghost function EachBlock(f: Bytes -> Bytes, n: nat, s: Bytes): (r: Bytes)
    requires OnBlocks(f, n)
    ensures Full(|s|, n) ==> |r| == |s|
    decreases |s|
  {
    if |s| < n then [] else Crypted(f, s[..n]) + EachBlock(f, n, s[n..])
  }

  class Ecb {
    const crypt: Bytes -> Bytes
    const blockSize: nat

    constructor Encrypt(b: Block)
      ensures crypt == b.encrypt && blockSize == b.size
    {
      crypt, blockSize := b.encrypt, b.size;
    }

    constructor Decrypt(b: Block)
      ensures crypt == b.decrypt && blockSize == b.size
    {
      crypt, blockSize := b.decrypt, b.size;
    }

    /** The block cipher on the block at `at`. */
    method CryptBlock(dst: array<Byte>, src: array<Byte>, at: nat)
      requires OnBlocks(crypt, blockSize) && at + blockSize <= src.Length <= dst.Length
      modifies dst
      ensures dst[..at + blockSize] == old(dst[..at]) + Crypted(crypt, old(src[at..at + blockSize]))
      ensures src[at + blockSize..] == old(src[at + blockSize..]) && dst[src.Length..] == old(dst[src.Length..])
    {
      var block := Crypted(crypt, src[at..at + blockSize]);
      forall k | at <= k < at + blockSize {
        dst[k] := block[k - at];
      }
    }

    /** `CryptBlocks`: it panics unless `src` is full blocks.  `dst` may be `src` and may be longer. */
    method CryptBlocks(dst: array<Byte>, src: array<Byte>) returns (panicked: bool)
      requires OnBlocks(crypt, blockSize) && dst.Length >= src.Length
      modifies dst
      ensures panicked <==> !Full(src.Length, blockSize)
      ensures dst[..] == if panicked then old(dst[..])
                         else EachBlock(crypt, blockSize, old(src[..])) + old(dst[src.Length..])
    {
      FullIff(src.Length, blockSize);
      if src.Length % blockSize != 0 {
        return true;
      }
      ghost var input, rest := src[..], dst[src.Length..];
      ghost var all := EachBlock(crypt, blockSize, input);
      var at := 0;
      while src.Length - at > 0
        invariant 0 <= at <= src.Length && Full(at, blockSize)
        invariant src[at..] == input[at..] && dst[src.Length..] == rest
        invariant dst[..at] == all[..at]
      {
        BlockAt(crypt, blockSize, input, at);
        Further(src[..], input, at, blockSize);
        CryptBlock(dst, src, at);
        at := at + blockSize;
      }
      assert dst[..] == dst[..at] + rest;
      return false;
    }
  }

  lemma Further(s: Bytes, t: Bytes, at: nat, n: nat)
    requires at + n <= |s| == |t| && s[at..] == t[at..]
    ensures s[at..at + n] == t[at..at + n] && s[at + n..] == t[at + n..]
  {
    assert s[at..at + n] == s[at..][..n] && s[at + n..] == s[at..][n..];
    assert t[at..at + n] == t[at..][..n] && t[at + n..] == t[at..][n..];
  }

  /** The block at `at` of the result. */
  lemma {:induction false} BlockAt(f: Bytes -> Bytes, n: nat, s: Bytes, at: nat)
    requires OnBlocks(f, n) && Full(|s|, n) && Full(at, n) && at < |s|
    ensures at + n <= |s| && Full(at + n, n)
    ensures EachBlock(f, n, s)[..at + n] == EachBlock(f, n, s)[..at] + Crypted(f, s[at..at + n])
    decreases at
  {
    var block, tail := Crypted(f, s[..n]), EachBlock(f, n, s[n..]);
    assert EachBlock(f, n, s) == block + tail;
    if at == 0 {
      assert s[0..n] == s[..n] && (block + tail)[..n] == [] + block;
    } else {
      BlockAt(f, n, s[n..], at - n);
      assert s[n..][at - n..at] == s[at..at + n];
      assert (block + tail)[..at] == block + tail[..at - n] && (block + tail)[..at + n] == block + tail[..at];
      Assoc(block, tail[..at - n], Crypted(f, s[at..at + n]));
    }
  }

  lemma JoinBlock(f: Bytes -> Bytes, n: nat, block: Bytes, rest: Bytes)
    requires OnBlocks(f, n) && |block| == n
    ensures EachBlock(f, n, block + rest) == Crypted(f, block) + EachBlock(f, n, rest)
  {
    assert (block + rest)[..n] == block && (block + rest)[n..] == rest;
  }

  // ---------- padding ----------

  function PaddingSize(length: nat, n: nat): (k: nat)
    requires n > 0
    ensures 1 <= k <= n
  {
    n - length % n
  }

  /** Every byte of the padding is its length, cut to a byte. */
  function Pad(src: Bytes, n: nat): Bytes
    requires n > 0
  {
    var k := PaddingSize(|src|, n);
    src + seq(k, _ => (k % 256) as Byte)
  }

  /** Two slice expressions that can panic. */
  function UnPad(src: Bytes): Option<Bytes> {
    if src == [] then None
    else
      var k := src[|src| - 1];
      if k > |src| then None else Some(src[..|src| - k])
  }

  class Cipher {
    const encrypt: Ecb
    const decrypt: Ecb

    constructor (b: Block)
      ensures encrypt.crypt == b.encrypt && encrypt.blockSize == b.size
      ensures decrypt.crypt == b.decrypt && decrypt.blockSize == b.size
    {
      encrypt := new Ecb.Encrypt(b);
      decrypt := new Ecb.Decrypt(b);
    }

    method Encrypt(plaintext: Bytes) returns (ciphertext: Bytes)
      requires OnBlocks(encrypt.crypt, encrypt.blockSize)
      ensures ciphertext == Encrypted(encrypt.crypt, encrypt.blockSize, plaintext)
    {
      var padded := Pad(plaintext, encrypt.blockSize);
      PaddedLength(|plaintext|, encrypt.blockSize);
      FullIff(|padded|, encrypt.blockSize);
      var src := new Byte[|padded|](i requires 0 <= i < |padded| => padded[i]);
      var dst := new Byte[|padded|](i => 0);
      assert src[..] == padded;
      var panicked := encrypt.CryptBlocks(dst, src);
      assert dst[..] == EachBlock(encrypt.crypt, encrypt.blockSize, padded) + [];
      return dst[..];
    }

    /** None if a slice expression or the mode panics. */
    method Decrypt(ciphertext: Bytes) returns (plaintext: Option<Bytes>)
      requires OnBlocks(decrypt.crypt, decrypt.blockSize)
      ensures plaintext == Decrypted(decrypt.crypt, decrypt.blockSize, ciphertext)
    {
      var src := new Byte[|ciphertext|](i requires 0 <= i < |ciphertext| => ciphertext[i]);
      var dst := new Byte[|ciphertext|](i => 0);
      assert src[..] == ciphertext;
      var panicked := decrypt.CryptBlocks(dst, src);
      if panicked {
        return None;
      }
      ghost var all := EachBlock(decrypt.crypt, decrypt.blockSize, ciphertext);
      assert dst[..] == all + [] == all;
      plaintext := UnPad(dst[..]);
    }
  }

  ghost function Encrypted(f: Bytes -> Bytes, n: nat, plaintext: Bytes): Bytes
    requires OnBlocks(f, n)
  {
    EachBlock(f, n, Pad(plaintext, n))
  }

  ghost function Decrypted(f: Bytes -> Bytes, n: nat, ciphertext: Bytes): Option<Bytes>
    requires OnBlocks(f, n)
  {
    if !Full(|ciphertext|, n) then None else UnPad(EachBlock(f, n, ciphertext))
  }

  // ---------- properties ----------

  lemma PaddedLength(length: nat, n: nat)
    requires n > 0
    ensures (length + PaddingSize(length, n)) % n == 0
  {
    Numbers.DivModUnique(length + PaddingSize(length, n), n, length / n + 1, 0);
  }

  lemma LeastMultiple(l: nat, c: nat, m: nat, n: nat)
    requires n > 0 && c % n == 0 && m % n == 0 && c - n <= l < m
    ensures m >= c
  {
    if m < c {
      Numbers.CongIffMod(c, m, n);
      Numbers.CongSmall(c, m, n);
    }
  }

  /** The ciphertext is as long as the least multiple of the block size beyond the plaintext. */
  lemma CiphertextLength(f: Bytes -> Bytes, n: nat, plaintext: Bytes, m: nat)
    requires OnBlocks(f, n)
    ensures
      var c := |Encrypted(f, n, plaintext)|;
      c % n == 0 && c > |plaintext| && (m % n == 0 && m > |plaintext| ==> m >= c)
  {
    var l := |plaintext|;
    PaddedLength(l, n);
    var c := l + PaddingSize(l, n);
    FullIff(c, n);
    assert |Encrypted(f, n, plaintext)| == c;
    if m % n == 0 && m > l {
      LeastMultiple(l, c, m, n);
    }
  }

  lemma {:induction false} BlocksRoundTrip(b: Block, s: Bytes)
    requires Inverse(b) && Full(|s|, b.size)
    ensures EachBlock(b.decrypt, b.size, EachBlock(b.encrypt, b.size, s)) == s
    decreases |s|
  {
    var n := b.size;
    if s != [] {
      var block, rest := s[..n], s[n..];
      JoinBlock(b.encrypt, n, block, rest);
      assert s == block + rest;
      BlocksRoundTrip(b, rest);
      JoinBlock(b.decrypt, n, Crypted(b.encrypt, block), EachBlock(b.encrypt, n, rest));
    }
  }

  /** What padding makes of a text: the text itself, up to full blocks and by at most one block, and
      behind it nothing but the length of the padding, where a byte can hold that. */
  lemma PaddedText(src: Bytes, n: nat)
    requires n > 0
    ensures
      var padded := Pad(src, n);
      var k := |padded| - |src|;
      && src <= padded && 1 <= k <= n && |padded| % n == 0
      && forall i :: |src| <= i < |padded| ==> padded[i] % 256 == k % 256 && (k <= 255 ==> padded[i] == k)
  {
    PaddedLength(|src|, n);
  }

  /** Removing the padding gives the text back exactly if the length of the padding fits a byte. */
  lemma PadUnPad(src: Bytes, n: nat)
    requires n > 0
    ensures UnPad(Pad(src, n)) == Some(src) <==> PaddingSize(|src|, n) <= 255
  {
    var k, s := PaddingSize(|src|, n), Pad(src, n);
    assert s[|s| - 1] == k % 256 && k % 256 <= k;
    if k <= 255 {
      assert s[..|src|] == src;
    } else {
      assert k % 256 < k;
      assert |s[..|s| - k % 256]| > |src|;
    }
  }

  /** Decrypting what was encrypted gives the plaintext. */
  ghost predicate ComesBack(b: Block, plaintext: Bytes)
    requires Inverse(b)
  {
    Decrypted(b.decrypt, b.size, Encrypted(b.encrypt, b.size, plaintext)) == Some(plaintext)
  }

  lemma RoundTripIff(b: Block, plaintext: Bytes)
    requires Inverse(b)
    ensures ComesBack(b, plaintext) <==> PaddingSize(|plaintext|, b.size) <= 255
  {
    PaddedLength(|plaintext|, b.size);
    FullIff(|Pad(plaintext, b.size)|, b.size);
    BlocksRoundTrip(b, Pad(plaintext, b.size));
    PadUnPad(plaintext, b.size);
  }

  /** So the block sizes that serve every plaintext are those up to 255, as RFC 5652 demands. */
  lemma BlockSizeIff(b: Block)
    requires Inverse(b)
    ensures (forall p: Bytes :: ComesBack(b, p)) <==> b.size <= 255
  {
    forall p: Bytes
      ensures ComesBack(b, p) <==> PaddingSize(|p|, b.size) <= 255
    {
      RoundTripIff(b, p);
    }
    if b.size > 255 {
      assert !ComesBack(b, []);
    }
  }

  /** Only the last byte is looked at: exactly these texts are accepted, and as what. */
  lemma UnPadAccepts(s: Bytes, p: Bytes)
    ensures UnPad(s) == Some(p) <==> s != [] && p <= s && |s| - |p| == s[|s| - 1]
  {
    if s != [] && s[|s| - 1] <= |s| {
      assert p <= s ==> s[..|p|] == p;
    }
  }
}
