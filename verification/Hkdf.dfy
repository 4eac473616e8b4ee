/** HKDF-SHA256 as packages/protocol/src/double-ratchet.ts computes it. */
module Hkdf {
  import opened Common
  import opened Primitives

  /** Writing a number into a byte buffer keeps its low eight bits. */
  function CounterByte(i: nat): Byte {
    (i % 256) as Byte
  }

  /** The block written in round i; block 0 is the empty start value. */
  function Block(c: Suite, prk: Bytes, info: Bytes, i: nat): (r: Bytes)
    ensures |r| == if i == 0 then 0 else HASH_LENGTH
  {
    if i == 0 then []
    else Hmac(c, prk, Block(c, prk, info, i - 1) + info + [CounterByte(i)])
  }

  /** Blocks 1 to n, concatenated. */
  function Blocks(c: Suite, prk: Bytes, info: Bytes, n: nat): (r: Bytes)
    ensures |r| == HASH_LENGTH * n
  {
    if n == 0 then [] else Blocks(c, prk, info, n - 1) + Block(c, prk, info, n)
  }

  function Rounds(length: nat): (n: nat)
    ensures length <= HASH_LENGTH * n < length + HASH_LENGTH
  {
    (length + HASH_LENGTH - 1) / HASH_LENGTH
  }

  function Expand(c: Suite, prk: Bytes, info: Bytes, length: nat): (okm: Bytes)
    ensures |okm| == length
  {
    Blocks(c, prk, info, Rounds(length))[..length]
  }

  function Sha256(c: Suite, ikm: Bytes, length: nat, salt: Bytes, info: Bytes): (okm: Bytes)
    ensures |okm| == length
  {
    Expand(c, Hmac(c, salt, ikm), info, length)
  }

  lemma {:induction false} BlocksPrefix(c: Suite, prk: Bytes, info: Bytes, m: nat, n: nat)
    requires m <= n
    ensures Blocks(c, prk, info, m) <= Blocks(c, prk, info, n)
  {
    if m < n {
      BlocksPrefix(c, prk, info, m, n - 1);
    }
  }

  /** One round of the loop: what was written and a part of the next block. */
  lemma BlocksGrow(c: Suite, prk: Bytes, info: Bytes, n: nat, k: nat)
    requires k <= HASH_LENGTH
    ensures Blocks(c, prk, info, n) + Block(c, prk, info, n + 1)[..k]
         == Blocks(c, prk, info, n + 1)[..HASH_LENGTH * n + k]
  {
  }

  /** Copy the first bytes of t into the buffer, behind what was written. */
  method Write(okm: array<Byte>, t: Bytes, count: nat, offset: nat)
    requires count <= |t| && offset + count <= okm.Length
    modifies okm
    ensures okm[..offset + count] == old(okm[..offset]) + t[..count]
  {
    forall k | 0 <= k < count {
      okm[offset + k] := t[k];
    }
    assert okm[..offset] == old(okm[..offset]);
    assert okm[offset..offset + count] == t[..count];
    assert okm[..offset + count] == okm[..offset] + okm[offset..offset + count];
  }

  /** The expansion loop over its output buffer. */
  method HkdfExpand(c: Suite, prk: Bytes, info: Bytes, length: nat) returns (r: Bytes)
    ensures r == Expand(c, prk, info, length)
  {
    hide Blocks;
    var okm := new Byte[length];
    var t: Bytes := [];
    var offset := 0;
    var counter := 1;
    while offset < length
      invariant 1 <= counter && 0 <= offset <= length
      invariant t == Block(c, prk, info, counter - 1)
      invariant offset == Min(HASH_LENGTH * (counter - 1), length)
      invariant okm[..offset] == Blocks(c, prk, info, counter - 1)[..offset]
      decreases length - offset
    {
      t := Hmac(c, prk, t + info + [CounterByte(counter)]);
      var bytesToWrite := Min(|t|, length - offset);
      assert okm[..offset] == Blocks(c, prk, info, counter - 1);
      Write(okm, t, bytesToWrite, offset);
      BlocksGrow(c, prk, info, counter - 1, bytesToWrite);
      offset := offset + bytesToWrite;
      counter := counter + 1;
    }
    var n := Rounds(length);
    BlocksPrefix(c, prk, info, Min(n, counter - 1), Max(n, counter - 1));
    assert okm[..] == okm[..offset];
    return okm[..];
  }

  /** T(i) of section 2.3 of RFC 5869, defined there for one counter octet. */
  function RfcT(c: Suite, prk: Bytes, info: Bytes, i: nat): Bytes
    requires i <= 255
  {
    if i == 0 then []
    else Hmac(c, prk, RfcT(c, prk, info, i - 1) + info + [i as Byte])
  }

  function RfcBlocks(c: Suite, prk: Bytes, info: Bytes, n: nat): Bytes
    requires n <= 255
  {
    if n == 0 then [] else RfcBlocks(c, prk, info, n - 1) + RfcT(c, prk, info, n)
  }

  lemma {:induction false} BlocksAreRfc(c: Suite, prk: Bytes, info: Bytes, n: nat)
    requires n <= 255
    ensures Block(c, prk, info, n) == RfcT(c, prk, info, n)
    ensures Blocks(c, prk, info, n) == RfcBlocks(c, prk, info, n)
  {
    if n > 0 {
      BlocksAreRfc(c, prk, info, n - 1);
    }
  }

  /** Up to 255 blocks the output is that of RFC 5869. */
  lemma ExpandMeetsRfc(c: Suite, prk: Bytes, info: Bytes, length: nat, n: nat)
    requires length <= 255 * HASH_LENGTH
    requires HASH_LENGTH * n >= length > HASH_LENGTH * (n - 1)
    ensures n <= 255
    ensures length <= |RfcBlocks(c, prk, info, n)|
    ensures Expand(c, prk, info, length) == RfcBlocks(c, prk, info, n)[..length]
  {
    BlocksAreRfc(c, prk, info, n);
  }

  /** Extract with the salt as key, then expand: the whole of section 2 of RFC 5869. */
  lemma Sha256MeetsRfc(c: Suite, ikm: Bytes, n: nat, salt: Bytes, info: Bytes)
    requires n <= 255
    ensures Sha256(c, ikm, HASH_LENGTH * n, salt, info) == RfcBlocks(c, Hmac(c, salt, ikm), info, n)
  {
    BlocksAreRfc(c, Hmac(c, salt, ikm), info, n);
    assert Rounds(HASH_LENGTH * n) == n;
    assert |Blocks(c, Hmac(c, salt, ikm), info, n)| == HASH_LENGTH * n;
  }

  lemma RfcTPassesOn(c: Suite, v: Bytes, info: Bytes, n: nat)
    requires PassesOn(c, v) && 1 <= n <= 255
    ensures RfcT(c, v, info, n) == v && |v| == HASH_LENGTH
  {
    var t := RfcT(c, v, info, n - 1) + info + [n as Byte];
    assert Hmac(c, v, t) == v;
  }

  /** A value that HMAC passes on fills the output. */
  lemma BlocksPassOn(c: Suite, v: Bytes, info: Bytes)
    requires PassesOn(c, v)
    ensures |v| == HASH_LENGTH
    ensures RfcBlocks(c, v, info, 1) == v
    ensures RfcBlocks(c, v, info, 2) == v + v
  {
    RfcTPassesOn(c, v, info, 1);
    RfcTPassesOn(c, v, info, 2);
    hide RfcT;
    hide PassesOn;
    assert [] + v == v;
  }

  /** For one key and info, a shorter output is a prefix of a longer one. */
  lemma ExpandPrefix(c: Suite, prk: Bytes, info: Bytes, short: nat, long: nat)
    requires short <= long
    ensures Expand(c, prk, info, short) <= Expand(c, prk, info, long)
  {
    BlocksPrefix(c, prk, info, Rounds(short), Rounds(long));
  }
}
