/**
 Buffer combination (vendors/mem_ops.h): the 32-byte fast path over four 64-bit
 words against plain byte-wise exclusive or, and the XEX wrappers of block
 ciphers (vendors/block_cipher.h) built on it.
 */
module XorBuf {

  type Buffer = seq<bv8>

  // ----- four words at a time is byte by byte

  datatype ByteOrder = LittleEndian | BigEndian

  /** The word whose bytes are given from the least significant up. */
  function Pack(b0: bv8, b1: bv8, b2: bv8, b3: bv8, b4: bv8, b5: bv8, b6: bv8, b7: bv8): bv64 {
    (b0 as bv64) | ((b1 as bv64) << 8) | ((b2 as bv64) << 16) | ((b3 as bv64) << 24)
    | ((b4 as bv64) << 32) | ((b5 as bv64) << 40) | ((b6 as bv64) << 48) | ((b7 as bv64) << 56)
  }

  function Low(w: bv64): bv8 {
    (w & 0xff) as bv8
  }

  /** The bytes of a word from the least significant up. */
  function Unpack(w: bv64): (b: Buffer)
    ensures |b| == 8
  {
    [Low(w), Low(w >> 8), Low(w >> 16), Low(w >> 24), Low(w >> 32), Low(w >> 40), Low(w >> 48), Low(w >> 56)]
  }

  lemma PackXor(a0: bv8, a1: bv8, a2: bv8, a3: bv8, a4: bv8, a5: bv8, a6: bv8, a7: bv8,
                b0: bv8, b1: bv8, b2: bv8, b3: bv8, b4: bv8, b5: bv8, b6: bv8, b7: bv8)
    ensures Pack(a0, a1, a2, a3, a4, a5, a6, a7) ^ Pack(b0, b1, b2, b3, b4, b5, b6, b7)
            == Pack(a0 ^ b0, a1 ^ b1, a2 ^ b2, a3 ^ b3, a4 ^ b4, a5 ^ b5, a6 ^ b6, a7 ^ b7)
  {
  }

  lemma UnpackLow(b0: bv8, b1: bv8, b2: bv8, b3: bv8, b4: bv8, b5: bv8, b6: bv8, b7: bv8)
    ensures var w := Pack(b0, b1, b2, b3, b4, b5, b6, b7);
            Low(w) == b0 && Low(w >> 8) == b1 && Low(w >> 16) == b2 && Low(w >> 24) == b3
  {
  }

  lemma UnpackHigh(b0: bv8, b1: bv8, b2: bv8, b3: bv8, b4: bv8, b5: bv8, b6: bv8, b7: bv8)
    ensures var w := Pack(b0, b1, b2, b3, b4, b5, b6, b7);
            Low(w >> 32) == b4 && Low(w >> 40) == b5 && Low(w >> 48) == b6 && Low(w >> 56) == b7
  {
  }

  lemma UnpackPack(b: Buffer)
    requires |b| == 8
    ensures Unpack(Pack(b[0], b[1], b[2], b[3], b[4], b[5], b[6], b[7])) == b
  {
    UnpackLow(b[0], b[1], b[2], b[3], b[4], b[5], b[6], b[7]);
    UnpackHigh(b[0], b[1], b[2], b[3], b[4], b[5], b[6], b[7]);
  }

  function XorBytes(a: Buffer, b: Buffer): (r: Buffer)
    requires |a| == |b|
    ensures |r| == |a| && forall i :: 0 <= i < |a| ==> r[i] == a[i] ^ b[i]
  {
    seq(|a|, i requires 0 <= i < |a| => a[i] ^ b[i])
  }

  function PackBytes(b: Buffer): bv64
    requires |b| == 8
  {
    Pack(b[0], b[1], b[2], b[3], b[4], b[5], b[6], b[7])
  }

  /** Combining two words combines their bytes. */
  lemma WordXor(a: Buffer, b: Buffer)
    requires |a| == |b| == 8
    ensures Unpack(PackBytes(a) ^ PackBytes(b)) == XorBytes(a, b)
  {
    PackXor(a[0], a[1], a[2], a[3], a[4], a[5], a[6], a[7], b[0], b[1], b[2], b[3], b[4], b[5], b[6], b[7]);
    UnpackPack(XorBytes(a, b));
  }

  method XorLittleEndianWord(a: Buffer, b: Buffer) returns (r: Buffer)
    requires |a| == |b| == 8
    ensures r == XorBytes(a, b)
  {
    WordXor(a, b);
    r := Unpack(PackBytes(a) ^ PackBytes(b));
  }

  function Reversed(b: Buffer): (r: Buffer)
    requires |b| == 8
    ensures |r| == 8
  {
    [b[7], b[6], b[5], b[4], b[3], b[2], b[1], b[0]]
  }

  /** Eight bytes combined as one 64-bit word of the machine's byte order. */
  method XorWord(order: ByteOrder, a: Buffer, b: Buffer) returns (r: Buffer)
    requires |a| == |b| == 8
    ensures r == XorBytes(a, b)
  {
    match order
    case LittleEndian => r := XorLittleEndianWord(a, b);
    case BigEndian =>
      var u := XorLittleEndianWord(Reversed(a), Reversed(b));
      r := Reversed(u);
  }

  lemma XorAtCut(a: Buffer, b: Buffer, k: nat)
    requires |a| == |b| && k <= |a|
    ensures XorBytes(a, b) == XorBytes(a[..k], b[..k]) + XorBytes(a[k..], b[k..])
  {
  }

  method XorTwoWords(order: ByteOrder, x: Buffer, y: Buffer) returns (r: Buffer)
    requires |x| == |y| == 16
    ensures r == XorBytes(x, y)
  {
    XorAtCut(x, y, 8);
    var w0 := XorWord(order, x[..8], y[..8]);
    var w1 := XorWord(order, x[8..], y[8..]);
    r := w0 + w1;
  }

  /** One round of the main loop: 32 bytes as four words, whatever the byte order. */
  method XorChunk(order: ByteOrder, x: Buffer, y: Buffer) returns (r: Buffer)
    requires |x| == |y| == 32
    ensures r == XorBytes(x, y)
  {
    XorAtCut(x, y, 16);
    var lower := XorTwoWords(order, x[..16], y[..16]);
    var upper := XorTwoWords(order, x[16..], y[16..]);
    r := lower + upper;
  }

  // ----- laws of the combination

  lemma ByteInvolution(a: bv8, b: bv8)
    ensures (a ^ b) ^ b == a
  {
  }

  /** Combining twice with the same bytes restores the first. */
  lemma XorInvolution(a: Buffer, b: Buffer)
    requires |a| == |b|
    ensures XorBytes(XorBytes(a, b), b) == a
  {
    forall i | 0 <= i < |a|
      ensures XorBytes(XorBytes(a, b), b)[i] == a[i]
    {
      ByteInvolution(a[i], b[i]);
    }
  }

  lemma XorConcat(a: Buffer, a': Buffer, b: Buffer, b': Buffer)
    requires |a| == |b| && |a'| == |b'|
    ensures XorBytes(a + a', b + b') == XorBytes(a, b) + XorBytes(a', b')
  {
  }

  function Pad(a: Buffer, n: nat): (r: Buffer)
    ensures |a| <= n ==> |r| == n
    ensures forall i :: 0 <= i < |r| ==> r[i] == if i < |a| then a[i] else 0
  {
    if |a| < n then a + seq(n - |a|, i => 0) else a
  }

  function Longer(a: Buffer, b: Buffer): nat {
    if |a| < |b| then |b| else |a|
  }

  // ----- the loops

  /** `xor_buf` on the first `n` bytes, in place; refuses buffers that are too small. */
  method XorInPlace(order: ByteOrder, out: array<bv8>, input: array<bv8>, n: nat) returns (ok: bool)
    modifies out
    ensures ok == (n <= out.Length && n <= input.Length)
    ensures !ok ==> out[..] == old(out[..])
    ensures ok ==> out[..n] == XorBytes(old(out[..n]), old(input[..n])) && out[n..] == old(out[n..])
  {
    ok := n <= out.Length && n <= input.Length;
    if !ok {
      return;
    }
    var off := 0;
    while n - off >= 32
      invariant 0 <= off <= n
      invariant forall k :: 0 <= k < off ==> out[k] == old(out[k]) ^ old(input[k])
      invariant forall k :: off <= k < out.Length ==> out[k] == old(out[k])
      invariant forall k :: off <= k < input.Length ==> input[k] == old(input[k])
    {
      var x := XorChunk(order, out[off..off + 32], input[off..off + 32]);
      StoreChunk(out, off, x);
      off := off + 32;
    }
    while off != n
      invariant 0 <= off <= n
      invariant forall k :: 0 <= k < off ==> out[k] == old(out[k]) ^ old(input[k])
      invariant forall k :: off <= k < out.Length ==> out[k] == old(out[k])
      invariant forall k :: off <= k < input.Length ==> input[k] == old(input[k])
      decreases n - off
    {
      out[off] := out[off] ^ input[off];
      off := off + 1;
    }
  }

  method StoreChunk(out: array<bv8>, off: nat, x: Buffer)
    requires off + |x| <= out.Length
    modifies out
    ensures forall k :: 0 <= k < out.Length ==>
              out[k] == if off <= k < off + |x| then x[k - off] else old(out[k])
  {
    forall k | off <= k < off + |x| {
      out[k] := x[k - off];
    }
  }

  /** `xor_buf` with three ranges; refuses ranges of different lengths. */
  method XorInto(order: ByteOrder, out: array<bv8>, in1: array<bv8>, in2: array<bv8>) returns (ok: bool)
    modifies out
    ensures ok == (out.Length == in1.Length == in2.Length)
    ensures !ok ==> out[..] == old(out[..])
    ensures ok ==> out[..] == XorBytes(old(in1[..]), old(in2[..]))
  {
    ok := out.Length == in1.Length && in1.Length == in2.Length;
    if !ok {
      return;
    }
    var n, off := out.Length, 0;
    while n - off >= 32
      invariant 0 <= off <= n
      invariant forall k :: 0 <= k < off ==> out[k] == old(in1[k]) ^ old(in2[k])
      invariant forall k :: off <= k < n ==> in1[k] == old(in1[k]) && in2[k] == old(in2[k])
    {
      var x := XorChunk(order, in1[off..off + 32], in2[off..off + 32]);
      StoreChunk(out, off, x);
      off := off + 32;
    }
    while off != n
      invariant 0 <= off <= n
      invariant forall k :: 0 <= k < off ==> out[k] == old(in1[k]) ^ old(in2[k])
      invariant forall k :: off <= k < n ==> in1[k] == old(in1[k]) && in2[k] == old(in2[k])
      decreases n - off
    {
      out[off] := in1[off] ^ in2[off];
      off := off + 1;
    }
  }

  lemma XorZero(b: bv8)
    ensures b ^ 0 == b
  {
  }

  /** `operator^=`: the shorter operand counts as padded with zero bytes. */
  method XorAssign(order: ByteOrder, out: array<bv8>, input: array<bv8>) returns (r: array<bv8>)
    modifies out
    ensures var n := old(Longer(out[..], input[..]));
            r[..] == XorBytes(old(Pad(out[..], n)), old(Pad(input[..], n)))
  {
    r := out;
    if out.Length < input.Length {
      r := new bv8[input.Length](i requires 0 <= i reads out => if i < out.Length then out[i] else 0);
    }
    ghost var before, operand := r[..], input[..];
    assert before == old(Pad(out[..], Longer(out[..], input[..])));
    var ok := XorInPlace(order, r, input, input.Length);
    ghost var n := r.Length;
    forall k | input.Length <= k < n
      ensures before[k] ^ Pad(operand, n)[k] == before[k]
    {
      XorZero(before[k]);
    }
    assert r[..] == r[..input.Length] + r[input.Length..];
  }

  /** `same_mem`: an accumulated difference of zero means equal bytes. */
  method SameMem(p: array<bv8>, q: array<bv8>, n: nat) returns (same: bool)
    requires n <= p.Length && n <= q.Length
    ensures same <==> p[..n] == q[..n]
  {
    var difference: bv8 := 0;
    var i := 0;
    while i != n
      invariant 0 <= i <= n
      invariant difference == 0 <==> forall k :: 0 <= k < i ==> p[k] == q[k]
      decreases n - i
    {
      DifferenceIsZero(difference, p[i], q[i]);
      difference := difference | (p[i] ^ q[i]);
      i := i + 1;
    }
    same := difference == 0;
  }

  lemma DifferenceIsZero(d: bv8, a: bv8, b: bv8)
    ensures d | (a ^ b) == 0 <==> d == 0 && a == b
  {
  }

  // ----- XEX

  /** A block cipher: both directions on any whole number of blocks. */
  datatype Cipher = Cipher(blockSize: nat, encryptN: Buffer -> Buffer, decryptN: Buffer -> Buffer)

  predicate KeepsLength(f: Buffer -> Buffer, x: Buffer) {
    |f(x)| == |x|
  }

  function Xex(f: Buffer -> Buffer, data: Buffer, mask: Buffer): (r: Buffer)
    requires |data| == |mask| && KeepsLength(f, XorBytes(data, mask))
    ensures |r| == |data| && forall i :: 0 <= i < |r| ==> r[i] == f(XorBytes(data, mask))[i] ^ mask[i]
  {
    XorBytes(f(XorBytes(data, mask)), mask)
  }

  /** `decrypt_n_xex` undoes `encrypt_n_xex` wherever `decrypt_n` undoes `encrypt_n`. */
  lemma XexInverse(c: Cipher, data: Buffer, mask: Buffer)
    requires |data| == |mask|
    requires forall x: Buffer :: |x| == |data| ==> KeepsLength(c.encryptN, x) && c.decryptN(c.encryptN(x)) == x
    ensures var e := Xex(c.encryptN, data, mask);
            KeepsLength(c.decryptN, XorBytes(e, mask)) && Xex(c.decryptN, e, mask) == data
  {
    var x := XorBytes(data, mask);
    var y := c.encryptN(x);
    XorInvolution(y, mask);
    assert XorBytes(Xex(c.encryptN, data, mask), mask) == y;
    assert c.decryptN(y) == x;
    XorInvolution(data, mask);
  }

  /** A function on `n` blocks that handles each block by itself. */
  ghost predicate Blockwise(f: Buffer -> Buffer, bs: nat) {
    && f([]) == []
    && (forall x: Buffer :: |x| == bs ==> KeepsLength(f, x))
    && (forall x: Buffer, y: Buffer :: |x| == bs ==> f(x + y) == f(x) + f(y))
  }

  /** Single-block XEX calls on matching slices of data and mask. */
  function XexEach(f: Buffer -> Buffer, bs: nat, n: nat, data: Buffer, mask: Buffer): Buffer
    requires |data| == |mask| == n * bs
    requires forall x: Buffer :: |x| == bs ==> KeepsLength(f, x)
    decreases n
  {
    if n == 0 then []
    else
      BlockCount(n, bs);
      Xex(f, data[..bs], mask[..bs]) + XexEach(f, bs, n - 1, data[bs..], mask[bs..])
  }

  lemma BlockCount(n: nat, bs: nat)
    requires n > 0
    ensures bs <= n * bs && n * bs - bs == (n - 1) * bs
  {
  }

  lemma {:induction false} BlockwiseKeepsLength(f: Buffer -> Buffer, bs: nat, n: nat, x: Buffer)
    requires Blockwise(f, bs) && |x| == n * bs
    ensures KeepsLength(f, x)
    decreases n
  {
    if n > 0 {
      BlockCount(n, bs);
      assert x == x[..bs] + x[bs..];
      BlockwiseKeepsLength(f, bs, n - 1, x[bs..]);
      assert KeepsLength(f, x[..bs]);
    }
  }

  /** A block-by-block cipher's XEX on `n` blocks is `n` single-block XEX calls. */
  lemma {:induction false} XexBlocks(f: Buffer -> Buffer, bs: nat, n: nat, data: Buffer, mask: Buffer)
    requires Blockwise(f, bs) && |data| == |mask| == n * bs
    ensures KeepsLength(f, XorBytes(data, mask))
    ensures Xex(f, data, mask) == XexEach(f, bs, n, data, mask)
    decreases n
  {
    BlockwiseKeepsLength(f, bs, n, XorBytes(data, mask));
    if n == 0 {
    } else {
      BlockCount(n, bs);
      var d, d', m, m' := data[..bs], data[bs..], mask[..bs], mask[bs..];
      XexBlocks(f, bs, n - 1, d', m');
      assert data == d + d' && mask == m + m';
      XorConcat(d, d', m, m');
      var x, x' := XorBytes(d, m), XorBytes(d', m');
      assert f(x + x') == f(x) + f(x') && KeepsLength(f, x);
      XorConcat(f(x), f(x'), m, m');
    }
  }

  lemma XorSelf(x: Buffer)
    ensures XorBytes(x, x) == Pad([], |x|)
  {
  }

  /** The three passes; a mask that is the data itself changes with it. */
  method XexPasses(order: ByteOrder, f: Buffer -> Buffer, data: array<bv8>, mask: array<bv8>, n: nat)
    requires n <= data.Length && n <= mask.Length
    requires forall x: Buffer :: |x| == n ==> KeepsLength(f, x)
    modifies data
    ensures data[n..] == old(data[n..])
    ensures var y := f(XorBytes(old(data[..n]), old(mask[..n])));
            |y| == n && data[..n] == XorBytes(y, if data == mask then y else mask[..n])
  {
    var ok := XorInPlace(order, data, mask, n);
    var x := data[..n];
    assert KeepsLength(f, x);
    StoreChunk(data, 0, f(x));
    assert data[..n] == f(x) && data[n..] == old(data[n..]);
    ok := XorInPlace(order, data, mask, n);
  }

  /** `encrypt_n_xex` and `decrypt_n_xex` in place; over a mask that is the data itself all cancels out. */
  method XexInPlace(order: ByteOrder, f: Buffer -> Buffer, bs: nat, data: array<bv8>, mask: array<bv8>, blocks: nat)
    requires blocks * bs <= data.Length && blocks * bs <= mask.Length
    requires forall x: Buffer :: |x| == blocks * bs ==> KeepsLength(f, x)
    modifies data
    ensures var n := blocks * bs;
            && data[n..] == old(data[n..])
            && (data != mask ==> data[..n] == Xex(f, old(data[..n]), mask[..n]))
            && (data == mask ==> data[..n] == Pad([], n))
  {
    XexPasses(order, f, data, mask, blocks * bs);
    XorSelf(f(XorBytes(old(data[..blocks * bs]), old(mask[..blocks * bs]))));
  }
}
