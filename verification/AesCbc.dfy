/** The software reference of the CBC test: one library call per block with the chaining
    value carried in a buffer, against CBC as section 6.2 of NIST SP 800-38A has it. The
    block cipher is any function on blocks. */
module AesCbc {
  import opened Hex

  const BLOCK_SIZE := 16

  type Block = b: seq<bv8> | |b| == BLOCK_SIZE witness seq(BLOCK_SIZE, _ => 0)

  const ZERO_BLOCK: Block := seq(BLOCK_SIZE, _ => 0)

  type Cipher = Block -> Block

  function Xor(a: Block, b: Block): Block {
    seq(BLOCK_SIZE, i requires 0 <= i < BLOCK_SIZE => a[i] ^ b[i])
  }

  // ----- section 6.2: C1 = E(P1 xor IV), Cj = E(Pj xor Cj-1)

  /** The j-th cipher block of a message, counting from 0. */
  function CipherBlock(e: Cipher, iv: Block, plain: seq<Block>, j: nat): Block
    requires j < |plain|
  {
    e(Xor(plain[j], if j == 0 then iv else CipherBlock(e, iv, plain, j - 1)))
  }

  function Cbc(e: Cipher, iv: Block, plain: seq<Block>): (r: seq<Block>)
    ensures |r| == |plain|
  {
    seq(|plain|, j requires 0 <= j < |plain| => CipherBlock(e, iv, plain, j))
  }

  /** The value that chains on: the last cipher block, or the IV of an empty message. */
  function ChainOut(e: Cipher, iv: Block, plain: seq<Block>): Block {
    if plain == [] then iv else CipherBlock(e, iv, plain, |plain| - 1)
  }

  lemma {:induction false} CipherBlockOfPrefix(e: Cipher, iv: Block, a: seq<Block>, b: seq<Block>, j: nat)
    requires j < |a|
    ensures CipherBlock(e, iv, a + b, j) == CipherBlock(e, iv, a, j)
    decreases j
  {
    if j > 0 {
      CipherBlockOfPrefix(e, iv, a, b, j - 1);
    }
  }

  lemma {:induction false} CipherBlockOfSuffix(e: Cipher, iv: Block, a: seq<Block>, b: seq<Block>, j: nat)
    requires j < |b|
    ensures CipherBlock(e, iv, a + b, |a| + j) == CipherBlock(e, ChainOut(e, iv, a), b, j)
    decreases j
  {
    if j > 0 {
      CipherBlockOfSuffix(e, iv, a, b, j - 1);
    } else if a != [] {
      CipherBlockOfPrefix(e, iv, a, b, |a| - 1);
    } else {
      assert a + b == b;
    }
  }

  /** A message may be cut into calls anywhere, if the chaining value is carried over. */
  lemma CbcSplits(e: Cipher, iv: Block, a: seq<Block>, b: seq<Block>)
    ensures Cbc(e, iv, a + b) == Cbc(e, iv, a) + Cbc(e, ChainOut(e, iv, a), b)
    ensures ChainOut(e, iv, a + b) == ChainOut(e, ChainOut(e, iv, a), b)
  {
    forall j | 0 <= j < |a|
      ensures CipherBlock(e, iv, a + b, j) == CipherBlock(e, iv, a, j)
    {
      CipherBlockOfPrefix(e, iv, a, b, j);
    }
    forall j | 0 <= j < |b|
      ensures CipherBlock(e, iv, a + b, |a| + j) == CipherBlock(e, ChainOut(e, iv, a), b, j)
    {
      CipherBlockOfSuffix(e, iv, a, b, j);
    }
    if b == [] {
      assert a + b == a;
    }
  }

  lemma XorUndone(a: Block, b: Block)
    ensures Xor(Xor(a, b), b) == a
  {
    forall i | 0 <= i < BLOCK_SIZE
      ensures Xor(Xor(a, b), b)[i] == a[i]
    {
      BitsUndone(a[i], b[i]);
    }
  }

  lemma BitsUndone(x: bv8, y: bv8)
    ensures (x ^ y) ^ y == x
  {
  }

  /** Decryption, Pj = D(Cj) xor Cj-1, undoes the encryption. */
  lemma CbcDecrypts(e: Cipher, d: Cipher, iv: Block, plain: seq<Block>, j: nat)
    requires j < |plain| && forall x :: d(e(x)) == x
    ensures var c := Cbc(e, iv, plain); Xor(d(c[j]), if j == 0 then iv else c[j - 1]) == plain[j]
  {
    XorUndone(plain[j], if j == 0 then iv else Cbc(e, iv, plain)[j - 1]);
  }

  function Iterate(e: Cipher, n: nat, x: Block): Block {
    if n == 0 then x else e(Iterate(e, n - 1, x))
  }

  function Zeros(n: nat): seq<Block> {
    seq(n, _ => ZERO_BLOCK)
  }

  /** With a zero message and a zero IV, block i is the cipher applied i + 1 times to the
      zero block. */
  lemma {:induction false} ZeroMessageIterates(e: Cipher, n: nat, i: nat)
    requires i < n
    ensures CipherBlock(e, ZERO_BLOCK, Zeros(n), i) == Iterate(e, i + 1, ZERO_BLOCK)
    decreases i
  {
    var chained := if i == 0 then ZERO_BLOCK else CipherBlock(e, ZERO_BLOCK, Zeros(n), i - 1);
    assert Xor(ZERO_BLOCK, chained) == chained;
    if i > 0 {
      ZeroMessageIterates(e, n, i - 1);
    }
  }

  // ----- the test

  /** AES_cbc_encrypt on one block: out and iv both end as the cipher block. */
  method CbcEncryptBlock(e: Cipher, input: Block, out: array<bv8>, iv: array<bv8>)
    requires out.Length == BLOCK_SIZE && iv.Length == BLOCK_SIZE && out != iv
    modifies out, iv
    ensures out[..] == e(Xor(input, old(iv[..]))) && iv[..] == out[..]
  {
    var block := e(Xor(input, iv[..]));
    forall i | 0 <= i < BLOCK_SIZE {
      out[i] := block[i];
    }
    forall i | 0 <= i < BLOCK_SIZE {
      iv[i] := block[i];
    }
    assert out[..] == block && iv[..] == block;
  }

  function Flatten(blocks: seq<Block>): (r: seq<bv8>)
    ensures |r| == BLOCK_SIZE * |blocks|
  {
    if blocks == [] then [] else Flatten(blocks[..|blocks| - 1]) + blocks[|blocks| - 1]
  }

  lemma FlattenSnoc(blocks: seq<Block>, last: Block)
    ensures Flatten(blocks + [last]) == Flatten(blocks) + last
  {
    assert (blocks + [last])[..|blocks|] == blocks;
  }

  /** The byte loop of one block. */
  method SameBlock(cipherText: seq<bv8>, x: nat, out: array<bv8>) returns (ok: bool)
    requires out.Length == BLOCK_SIZE && BLOCK_SIZE * (x + 1) <= |cipherText|
    ensures ok <==> cipherText[BLOCK_SIZE * x..BLOCK_SIZE * (x + 1)] == out[..]
  {
    ghost var part := cipherText[BLOCK_SIZE * x..BLOCK_SIZE * (x + 1)];
    for y := 0 to BLOCK_SIZE
      invariant forall k :: 0 <= k < y ==> part[k] == out[k]
    {
      var index := x * BLOCK_SIZE + y;
      assert cipherText[index] == part[y];
      if cipherText[index] != out[y] {
        return false;
      }
    }
    return true;
  }

  /** The test accepts an answer exactly if it is the CBC encryption of zeros, for any
      cipher and number of blocks, together with the last chaining value. */
  method CheckCbc(e: Cipher, blocks: nat, cipherText: seq<bv8>, finalIv: seq<bv8>) returns (ok: bool)
    ensures var plain := Zeros(blocks);
            && (ok ==> |cipherText| == 16 * blocks && |finalIv| == 16)
            && (ok <==> cipherText == Flatten(Cbc(e, ZERO_BLOCK, plain)) && finalIv == ChainOut(e, ZERO_BLOCK, plain))
  {
    if |cipherText| != blocks * BLOCK_SIZE {
      return false;
    }
    var out := new bv8[BLOCK_SIZE](_ => 0);
    var iv := new bv8[BLOCK_SIZE](_ => 0);
    assert iv[..] == ZERO_BLOCK;
    for x := 0 to blocks
      invariant fresh(out) && fresh(iv)
      invariant iv[..] == ChainOut(e, ZERO_BLOCK, Zeros(x))
      invariant cipherText[..BLOCK_SIZE * x] == Flatten(Cbc(e, ZERO_BLOCK, Zeros(x)))
    {
      CbcEncryptBlock(e, ZERO_BLOCK, out, iv);
      OneMoreBlock(e, x);
      var same := SameBlock(cipherText, x, out);
      if !same {
        NotThatPrefix(e, cipherText, x, blocks);
        return false;
      }
      assert cipherText[..BLOCK_SIZE * (x + 1)]
          == cipherText[..BLOCK_SIZE * x] + cipherText[BLOCK_SIZE * x..BLOCK_SIZE * (x + 1)];
    }
    assert cipherText[..BLOCK_SIZE * blocks] == cipherText;
    return finalIv == iv[..];
  }

  lemma OneMoreBlock(e: Cipher, x: nat)
    ensures var next := e(Xor(ZERO_BLOCK, ChainOut(e, ZERO_BLOCK, Zeros(x))));
            && ChainOut(e, ZERO_BLOCK, Zeros(x + 1)) == next
            && Flatten(Cbc(e, ZERO_BLOCK, Zeros(x + 1))) == Flatten(Cbc(e, ZERO_BLOCK, Zeros(x))) + next
  {
    var next := e(Xor(ZERO_BLOCK, ChainOut(e, ZERO_BLOCK, Zeros(x))));
    assert Zeros(x + 1) == Zeros(x) + [ZERO_BLOCK];
    CbcSplits(e, ZERO_BLOCK, Zeros(x), [ZERO_BLOCK]);
    assert Cbc(e, ChainOut(e, ZERO_BLOCK, Zeros(x)), [ZERO_BLOCK]) == [next];
    FlattenSnoc(Cbc(e, ZERO_BLOCK, Zeros(x)), next);
  }

  lemma {:induction false} FlattenedPrefix(e: Cipher, x: nat, n: nat)
    requires x <= n
    ensures Flatten(Cbc(e, ZERO_BLOCK, Zeros(x))) <= Flatten(Cbc(e, ZERO_BLOCK, Zeros(n)))
    decreases n
  {
    if x < n {
      FlattenedPrefix(e, x, n - 1);
      OneMoreBlock(e, n - 1);
    }
  }

  lemma NotThatPrefix(e: Cipher, cipherText: seq<bv8>, x: nat, blocks: nat)
    requires x < blocks && |cipherText| == BLOCK_SIZE * blocks
    requires cipherText[BLOCK_SIZE * x..BLOCK_SIZE * (x + 1)] != ChainOut(e, ZERO_BLOCK, Zeros(x + 1))
    ensures cipherText != Flatten(Cbc(e, ZERO_BLOCK, Zeros(blocks)))
  {
    FlattenedPrefix(e, x + 1, blocks);
    OneMoreBlock(e, x);
    var all := Flatten(Cbc(e, ZERO_BLOCK, Zeros(blocks)));
    assert all[..BLOCK_SIZE * (x + 1)] == Flatten(Cbc(e, ZERO_BLOCK, Zeros(x + 1)));
    assert all[BLOCK_SIZE * x..BLOCK_SIZE * (x + 1)] == all[..BLOCK_SIZE * (x + 1)][BLOCK_SIZE * x..];
  }
}
