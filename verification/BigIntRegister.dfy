/**
 The word register of a big integer (the inner class `Data` of vendors/bigint.h):
 a growable little-endian vector of words with a lazily invalidated count of
 significant words, given its meaning as a natural number.
 */
module BigIntRegister {
  import opened Common
  import opened BitArithmetic

  type WordSize = n: nat | n > 0 witness 64

  /** The number of bits in a word; the build chooses it, usually 64. */
  const WORD_BITS: WordSize

  type Word = w: nat | w < Pow2(WORD_BITS) witness 0

  /** The weight of word `i`. */
  function Weight(i: nat): (r: nat)
    ensures r >= 1
  {
    Pow2(WORD_BITS * i)
  }

  function Value(reg: seq<Word>): nat {
    if reg == [] then 0 else reg[0] + Pow2(WORD_BITS) * Value(reg[1..])
  }

  function Zeros(n: nat): (z: seq<Word>)
    ensures |z| == n && forall i :: 0 <= i < n ==> z[i] == 0
  {
    seq(n, i => 0)
  }

  /** `get_word_at`: words beyond the register read as zero. */
  function WordAt(reg: seq<Word>, n: nat): Word {
    if n < |reg| then reg[n] else 0
  }

  /** The number of words up to the highest nonzero one. */
  function SigWords(reg: seq<Word>): (k: nat)
    ensures k <= |reg|
    ensures k > 0 ==> reg[k - 1] != 0
    ensures forall i :: k <= i < |reg| ==> reg[i] == 0
  {
    if reg == [] then 0
    else if reg[|reg| - 1] != 0 then |reg|
    else SigWords(reg[..|reg| - 1])
  }

  // ----- the meaning of a register

  lemma WeightStep(i: nat)
    ensures Weight(i + 1) == Pow2(WORD_BITS) * Weight(i)
    ensures Weight(0) == 1
  {
    assert WORD_BITS * (i + 1) == WORD_BITS + WORD_BITS * i;
    Pow2Add(WORD_BITS, WORD_BITS * i);
    assert WORD_BITS * 0 == 0;
  }

  lemma WeightMono(i: nat, k: nat)
    requires i <= k
    ensures Weight(i) <= Weight(k)
  {
    MulMono(WORD_BITS, i, k);
    Pow2Mono(WORD_BITS * i, WORD_BITS * k);
  }

  /** Bit `n` is bit `n % WORD_BITS` of word `n / WORD_BITS`. */
  lemma BitPosition(n: nat)
    ensures n % WORD_BITS < WORD_BITS && Pow2(n) == Weight(n / WORD_BITS) * Pow2(n % WORD_BITS)
  {
    DivMod(n, WORD_BITS);
    Pow2Add(WORD_BITS * (n / WORD_BITS), n % WORD_BITS);
  }

  lemma Regroup(x: nat, p: nat, v: nat, w: nat, n: nat)
    ensures x + p * (v + w * n) == (x + p * v) + (p * w) * n
  {
    MulAssoc(p, w, n);
    assert p * (v + w * n) == p * v + p * (w * n);
  }

  lemma CarryBound(x: nat, p: nat, v: nat, w: nat)
    requires x < p && v < w
    ensures x + p * v < p * w
  {
    MulMono(p, v, w - 1);
    assert p * (w - 1) == p * w - p;
  }

  lemma {:induction false} ValueAppend(a: seq<Word>, b: seq<Word>)
    ensures Value(a + b) == Value(a) + Weight(|a|) * Value(b)
    decreases |a|
  {
    if a == [] {
      assert a + b == b;
      WeightStep(0);
    } else {
      assert (a + b)[1..] == a[1..] + b;
      ValueAppend(a[1..], b);
      WeightStep(|a| - 1);
      Regroup(a[0], Pow2(WORD_BITS), Value(a[1..]), Weight(|a| - 1), Value(b));
    }
  }

  lemma {:induction false} ValueBound(reg: seq<Word>)
    ensures Value(reg) < Weight(|reg|)
    decreases |reg|
  {
    if reg == [] {
      WeightStep(0);
    } else {
      ValueBound(reg[1..]);
      WeightStep(|reg| - 1);
      CarryBound(reg[0], Pow2(WORD_BITS), Value(reg[1..]), Weight(|reg| - 1));
    }
  }

  lemma {:induction false} ZerosValue(reg: seq<Word>)
    requires forall i :: 0 <= i < |reg| ==> reg[i] == 0
    ensures Value(reg) == 0
    decreases |reg|
  {
    if reg != [] {
      ZerosValue(reg[1..]);
    }
  }

  /** Trailing zero words do not matter. */
  lemma PadValue(a: seq<Word>, z: seq<Word>)
    requires forall i :: 0 <= i < |z| ==> z[i] == 0
    ensures Value(a + z) == Value(a)
  {
    ValueAppend(a, z);
    ZerosValue(z);
  }

  /** A register split around word `i`. */
  lemma ValueSplit(reg: seq<Word>, i: nat)
    requires i < |reg|
    ensures Value(reg) == Value(reg[..i]) + Weight(i) * (reg[i] + Pow2(WORD_BITS) * Value(reg[i + 1..]))
    ensures Value(reg[..i]) < Weight(i)
  {
    assert reg == reg[..i] + reg[i..];
    ValueAppend(reg[..i], reg[i..]);
    assert reg[i..][1..] == reg[i + 1..];
    assert Value(reg[i..]) == reg[i] + Pow2(WORD_BITS) * Value(reg[i + 1..]);
    ValueBound(reg[..i]);
  }

  lemma ValueUpdate(reg: seq<Word>, i: nat, w: Word)
    requires i < |reg|
    ensures Value(reg[i := w]) == Value(reg) + (w - reg[i]) * Weight(i)
  {
    var t := reg[i := w];
    ValueSplit(reg, i);
    ValueSplit(t, i);
    assert t[..i] == reg[..i] && t[i + 1..] == reg[i + 1..];
    var h := Pow2(WORD_BITS) * Value(reg[i + 1..]);
    assert Weight(i) * (w + h) == Weight(i) * (reg[i] + h) + Weight(i) * (w - reg[i]);
  }

  /** Cutting a register is reduction modulo the weight of the cut. */
  lemma PrefixValue(reg: seq<Word>, s: nat)
    requires s <= |reg|
    ensures Value(reg[..s]) == Value(reg) % Weight(s)
  {
    assert reg == reg[..s] + reg[s..];
    ValueAppend(reg[..s], reg[s..]);
    ValueBound(reg[..s]);
    DivUnique(Value(reg), Weight(s), Value(reg[s..]), Value(reg[..s]));
  }

  // ----- the significant words

  lemma SigWordsUnique(reg: seq<Word>, k: nat)
    requires k <= |reg| && (k > 0 ==> reg[k - 1] != 0) && forall i :: k <= i < |reg| ==> reg[i] == 0
    ensures SigWords(reg) == k
  {
  }

  lemma TopWord(reg: seq<Word>, i: nat)
    requires i < |reg| && reg[i] != 0
    ensures Value(reg) >= Weight(i)
  {
    ValueSplit(reg, i);
    var x := reg[i] + Pow2(WORD_BITS) * Value(reg[i + 1..]);
    MulMono(Pow2(WORD_BITS), 0, Value(reg[i + 1..]));
    MulMono(Weight(i), 1, x);
  }

  /** The count is the least `k` such that the value fits in `k` words. */
  lemma SigWordsLeast(reg: seq<Word>, k: nat)
    ensures Value(reg) < Weight(k) <==> SigWords(reg) <= k
  {
    var s := SigWords(reg);
    if s <= k {
      assert reg == reg[..s] + reg[s..];
      PadValue(reg[..s], reg[s..]);
      ValueBound(reg[..s]);
      WeightMono(s, k);
    } else {
      TopWord(reg, s - 1);
      WeightMono(k, s - 1);
    }
  }

  lemma ZeroIffNoSigWords(reg: seq<Word>)
    ensures Value(reg) == 0 <==> SigWords(reg) == 0
  {
    SigWordsLeast(reg, 0);
    WeightStep(0);
  }

  // ----- bits

  /** Bit `j` of word `i`: a shift and a mask on one word. */
  function GetBitAt(reg: seq<Word>, i: nat, j: nat): bool {
    (WordAt(reg, i) / Pow2(j)) % 2 == 1
  }

  /** `get_bit`. */
  function GetBit(reg: seq<Word>, n: nat): bool {
    GetBitAt(reg, n / WORD_BITS, n % WORD_BITS)
  }

  lemma HighPartIsEven(w: nat, p: nat, half: nat, base: nat, h: nat)
    requires p > 0 && base == p * (2 * half)
    ensures (w + base * h) / p % 2 == w / p % 2
  {
    var m := half * h;
    assert base * h == p * (2 * m) by {
      MulAssoc(p, 2 * half, h);
      MulAssoc(2, half, h);
    }
    DivShift(w, p, 2 * m);
  }

  lemma WordBit(w: nat, h: nat, j: nat)
    requires j < WORD_BITS
    ensures Bit(w + Pow2(WORD_BITS) * h, j) == Bit(w, j)
  {
    var half := Pow2(WORD_BITS - j - 1);
    assert Pow2(WORD_BITS) == Pow2(j) * (2 * half) by {
      Pow2Add(j, WORD_BITS - j);
      assert Pow2(WORD_BITS - j) == 2 * half;
    }
    HighPartIsEven(w, Pow2(j), half, Pow2(WORD_BITS), h);
  }

  lemma GetBitAtMeaning(reg: seq<Word>, i: nat, j: nat, n: nat)
    requires j < WORD_BITS && Pow2(n) == Weight(i) * Pow2(j)
    ensures GetBitAt(reg, i, j) == Bit(Value(reg), n)
  {
    DivDiv(Value(reg), Weight(i), Pow2(j));
    if i < |reg| {
      var h := Value(reg[i + 1..]);
      assert Value(reg) / Weight(i) == reg[i] + Pow2(WORD_BITS) * h by {
        ValueSplit(reg, i);
        DivUnique(Value(reg), Weight(i), reg[i] + Pow2(WORD_BITS) * h, Value(reg[..i]));
      }
      WordBit(reg[i], h, j);
    } else {
      assert Value(reg) / Weight(i) == 0 by {
        ValueBound(reg);
        WeightMono(|reg|, i);
        DivUnique(Value(reg), Weight(i), 0, Value(reg));
      }
    }
  }

  /** `get_bit(n)` is bit `n` of the value, also beyond the register. */
  lemma GetBitMeaning(reg: seq<Word>, n: nat)
    ensures GetBit(reg, n) == Bit(Value(reg), n)
  {
    BitPosition(n);
    GetBitAtMeaning(reg, n / WORD_BITS, n % WORD_BITS, n);
  }

  // ----- masking

  /** The register with all but the low `j` bits of word `top` and everything above cleared. */
  function MaskWords(reg: seq<Word>, top: nat, j: nat): (r: seq<Word>)
    requires top < |reg|
    ensures |r| == |reg|
  {
    BitAndMask(reg[top], j);
    ModBound(reg[top], Pow2(j));
    reg[..top] + [BitAnd(reg[top], Pow2(j) - 1)] + Zeros(|reg| - top - 1)
  }

  lemma ModBound(a: nat, m: nat)
    requires m > 0
    ensures a % m <= a
  {
  }

  /** Dropping everything above `p` in the digit of weight `weight`, as quotient and remainder. */
  lemma MaskArithmetic(lo: nat, weight: nat, w: nat, p: nat, c: nat, h: nat) returns (q: nat)
    requires lo < weight && p > 0
    ensures lo + weight * (w + (p * c) * h) == (weight * p) * q + (lo + weight * (w % p))
    ensures lo + weight * (w % p) < weight * p
  {
    DivMod(w, p);
    q := w / p + c * h;
    assert w + (p * c) * h == p * q + w % p by {
      MulAssoc(p, c, h);
      assert p * (w / p + c * h) == p * (w / p) + p * (c * h);
    }
    MixedRadix(weight, p, q, w % p, lo);
  }

  lemma MaskWordsValue(reg: seq<Word>, top: nat, j: nat)
    requires top < |reg|
    ensures Value(MaskWords(reg, top, j)) == Value(reg[..top]) + Weight(top) * (reg[top] % Pow2(j))
  {
    var w := reg[top];
    var low := BitAnd(w, Pow2(j) - 1);
    BitAndMask(w, j);
    ModBound(w, Pow2(j));
    var kept: seq<Word> := reg[..top] + [low];
    PadValue(kept, Zeros(|reg| - top - 1));
    ValueAppend(reg[..top], [low]);
  }

  lemma MaskQuotient(reg: seq<Word>, top: nat, j: nat) returns (q: nat)
    requires top < |reg| && j < WORD_BITS
    ensures Value(reg) == (Weight(top) * Pow2(j)) * q + Value(MaskWords(reg, top, j))
    ensures Value(MaskWords(reg, top, j)) < Weight(top) * Pow2(j)
  {
    MaskWordsValue(reg, top, j);
    ValueSplit(reg, top);
    assert Pow2(WORD_BITS) == Pow2(j) * Pow2(WORD_BITS - j) by {
      Pow2Add(j, WORD_BITS - j);
    }
    q := MaskArithmetic(Value(reg[..top]), Weight(top), reg[top], Pow2(j), Pow2(WORD_BITS - j),
                        Value(reg[top + 1..]));
  }

  /** Masking inside the register is reduction modulo 2^n. */
  lemma MaskWordsMeaning(reg: seq<Word>, top: nat, j: nat, n: nat)
    requires top < |reg| && j < WORD_BITS && Pow2(n) == Weight(top) * Pow2(j)
    ensures Value(MaskWords(reg, top, j)) == Value(reg) % Pow2(n)
  {
    var q := MaskQuotient(reg, top, j);
    DivUnique(Value(reg), Pow2(n), q, Value(MaskWords(reg, top, j)));
  }

  // ----- the register object as a value, and its operations

  /** Register, vector capacity, and the cached count (`None` is `sig_words_npos`). */
  datatype Register = Register(reg: seq<Word>, capacity: nat, sig: Option<nat>)

  /** How a vector chooses its next capacity, from the old one and the size needed. */
  type Growth = (nat, nat) -> nat

  datatype Op =
    | SetWordAt(i: nat, w: Word)
    | SetWords(words: seq<Word>)
    | SetToZero
    | SetSize(s: nat)
    | MaskBits(n: nat)
    | GrowTo(n: nat)
    | ShrinkToFit(minSize: nat)
    | Resize(s: nat)
    | SwapVector(words: seq<Word>, spare: nat)
    | TakePointer
    | RawWrite(i: nat, w: Word)
    | Count

  function Resized(reg: seq<Word>, n: nat): (r: seq<Word>)
    ensures |r| == n
  {
    if n <= |reg| then reg[..n] else reg + Zeros(n - |reg|)
  }

  function Grown(g: Growth, capacity: nat, n: nat): (c: nat)
    ensures c >= n && c >= capacity && (n <= capacity ==> c == capacity)
  {
    if n <= capacity then capacity else if g(capacity, n) > n then g(capacity, n) else n
  }

  /** `resize` of the underlying vector. */
  function VectorResize(g: Growth, d: Register, n: nat): Register {
    d.(reg := Resized(d.reg, n), capacity := Grown(g, d.capacity, n))
  }

  function RoundUp(n: nat): nat {
    n + (8 - n % 8)
  }

  function GrowRegister(g: Growth, d: Register, n: nat): Register {
    if n > |d.reg| then VectorResize(g, d, if n <= d.capacity then n else RoundUp(n)) else d
  }

  function Counted(d: Register): Register {
    if d.sig.None? then d.(sig := Some(SigWords(d.reg))) else d
  }

  function ZeroRegister(d: Register): Register {
    d.(reg := Zeros(d.capacity), sig := Some(0))
  }

  /** `mask_bits(n)`, where bit `n` is bit `j` of word `top`. */
  function MaskRegister(d: Register, n: nat, top: nat, j: nat): Register {
    if n == 0 then ZeroRegister(d)
    else if top < |d.reg| then d.(reg := MaskWords(d.reg, top, j), sig := None)
    else d
  }

  function Max(a: nat, b: nat): nat {
    if a < b then b else a
  }

  function Apply(g: Growth, d: Register, op: Op): Register {
    match op
    case SetWordAt(i, w) =>
      var d1 := d.(sig := None);
      if i >= |d.reg| && w == 0 then d1
      else
        var d2 := if i >= |d.reg| then GrowRegister(g, d1, i + 1) else d1;
        if i < |d2.reg| then d2.(reg := d2.reg[i := w]) else d2
    case SetWords(words) => Register(words, Grown(g, d.capacity, |words|), None)
    case SetToZero => ZeroRegister(d)
    case SetSize(s) => VectorResize(g, d.(reg := Zeros(|d.reg|), sig := None), RoundUp(s))
    case MaskBits(n) => MaskRegister(d, n, n / WORD_BITS, n % WORD_BITS)
    case GrowTo(n) => GrowRegister(g, d, n)
    case ShrinkToFit(minSize) =>
      var d1 := Counted(d);
      VectorResize(g, d1, Max(minSize, d1.sig.value))
    case Resize(s) => VectorResize(g, d, s)
    case SwapVector(words, spare) => Register(words, |words| + spare, None)
    case TakePointer => d.(sig := None)
    case RawWrite(i, w) => if i < |d.reg| then d.(reg := d.reg[i := w]) else d
    case Count => Counted(d)
  }

  /** The vector holds the register, and a cached count equals a fresh one. */
  predicate Consistent(d: Register) {
    |d.reg| <= d.capacity && (d.sig.Some? ==> d.sig.value == SigWords(d.reg))
  }

  /** The operations that can leave a stale count behind, and when they do not. */
  predicate Disciplined(d: Register, op: Op) {
    d.sig.Some? ==>
      match op
      case Resize(s) => SigWords(d.reg) <= s
      case RawWrite(i, w) =>
        i < |d.reg| ==> (i + 1 == SigWords(d.reg) ==> w != 0) && (SigWords(d.reg) <= i ==> w == 0)
      case _ => true
  }

  lemma ResizedSigWords(reg: seq<Word>, n: nat)
    ensures SigWords(reg) <= n ==> SigWords(Resized(reg, n)) == SigWords(reg)
  {
    if SigWords(reg) <= n {
      SigWordsUnique(Resized(reg, n), SigWords(reg));
    }
  }

  lemma RawWriteSigWords(reg: seq<Word>, i: nat, w: Word)
    requires i < |reg|
    ensures SigWords(reg[i := w]) == SigWords(reg)
            <==> (i + 1 == SigWords(reg) ==> w != 0) && (SigWords(reg) <= i ==> w == 0)
  {
    var s := SigWords(reg);
    var t := reg[i := w];
    if (i + 1 == s ==> w != 0) && (s <= i ==> w == 0) {
      SigWordsUnique(t, s);
    } else {
      assert t[i] == w && (i + 1 == s || s <= i);
    }
  }

  lemma ZeroCache(n: nat)
    ensures SigWords(Zeros(n)) == 0
  {
    SigWordsUnique(Zeros(n), 0);
  }

  lemma MaskCache(g: Growth, d: Register, n: nat)
    requires Consistent(d)
    ensures Consistent(Apply(g, d, MaskBits(n)))
  {
    ZeroCache(d.capacity);
  }

  lemma SetWordCache(g: Growth, d: Register, i: nat, w: Word)
    requires Consistent(d)
    ensures Consistent(Apply(g, d, SetWordAt(i, w)))
  {
  }

  lemma SizeCache(g: Growth, d: Register, op: Op)
    requires Consistent(d) && (op.GrowTo? || op.ShrinkToFit? || op.Resize?)
    ensures Consistent(Apply(g, d, op)) <==> Disciplined(d, op)
  {
    match op
    case Resize(s) => ResizedSigWords(d.reg, s);
    case GrowTo(n) => ResizedSigWords(d.reg, |GrowRegister(g, d, n).reg|);
    case ShrinkToFit(minSize) => ResizedSigWords(d.reg, Max(minSize, SigWords(d.reg)));
  }

  /**
   An operation on a consistent register leaves it consistent exactly when it
   is disciplined: no `resize` below a counted register's significant words, and
   no write through an old pointer that moves the top word of a counted register.
   */
  lemma CacheStep(g: Growth, d: Register, op: Op)
    requires Consistent(d)
    ensures Consistent(Apply(g, d, op)) <==> Disciplined(d, op)
  {
    match op
    case SetWordAt(i, w) => SetWordCache(g, d, i, w);
    case Resize(_) => SizeCache(g, d, op);
    case GrowTo(_) => SizeCache(g, d, op);
    case ShrinkToFit(_) => SizeCache(g, d, op);
    case RawWrite(i, w) =>
      if i < |d.reg| {
        RawWriteSigWords(d.reg, i, w);
      }
    case SetToZero => ZeroCache(d.capacity);
    case MaskBits(n) => MaskCache(g, d, n);
    case SetWords(_) =>
    case SetSize(_) =>
    case SwapVector(_, _) =>
    case TakePointer =>
    case Count =>
  }

  function ApplyAll(g: Growth, d: Register, ops: seq<Op>): Register
    decreases |ops|
  {
    if ops == [] then d else ApplyAll(g, Apply(g, d, ops[0]), ops[1..])
  }

  predicate AllDisciplined(g: Growth, d: Register, ops: seq<Op>)
    decreases |ops|
  {
    ops == [] || (Disciplined(d, ops[0]) && AllDisciplined(g, Apply(g, d, ops[0]), ops[1..]))
  }

  /** After any disciplined sequence of operations the cached count is unknown or right. */
  lemma {:induction false} CacheRun(g: Growth, d: Register, ops: seq<Op>)
    requires Consistent(d) && AllDisciplined(g, d, ops)
    ensures Consistent(ApplyAll(g, d, ops))
    decreases |ops|
  {
    if ops != [] {
      CacheStep(g, d, ops[0]);
      CacheRun(g, Apply(g, d, ops[0]), ops[1..]);
    }
  }

  // ----- what each operation does to the integer

  /** The value after an operation, in terms of the value before it. */
  function Meaning(v: nat, word: nat, op: Op): int {
    match op
    case SetWordAt(i, w) => v + (w - word) * Weight(i)
    case SetWords(words) => Value(words)
    case SetToZero => 0
    case SetSize(_) => 0
    case MaskBits(n) => v % Pow2(n)
    case Resize(s) => v % Weight(s)
    case SwapVector(words, _) => Value(words)
    case RawWrite(i, w) => v + (w - word) * Weight(i)
    case _ => v
  }

  lemma ResizedValue(reg: seq<Word>, n: nat)
    ensures Value(Resized(reg, n)) == Value(reg) % Weight(n)
    ensures |reg| <= n ==> Value(Resized(reg, n)) == Value(reg)
    ensures SigWords(reg) <= n ==> Value(Resized(reg, n)) == Value(reg)
  {
    if n <= |reg| {
      PrefixValue(reg, n);
    } else {
      PadValue(reg, Zeros(n - |reg|));
    }
    SigWordsLeast(reg, n);
    if Value(reg) < Weight(n) {
      DivUnique(Value(reg), Weight(n), 0, Value(reg));
    }
  }

  lemma OutOfReach(reg: seq<Word>, top: nat, j: nat, n: nat)
    requires |reg| <= top && Pow2(n) == Weight(top) * Pow2(j)
    ensures Value(reg) == Value(reg) % Pow2(n)
  {
    ValueBound(reg);
    WeightMono(|reg|, top);
    MulMono(Weight(top), 1, Pow2(j));
    DivUnique(Value(reg), Pow2(n), 0, Value(reg));
  }

  lemma MaskRegisterMeaning(d: Register, n: nat, top: nat, j: nat)
    requires j < WORD_BITS && Pow2(n) == Weight(top) * Pow2(j)
    ensures Value(MaskRegister(d, n, top, j).reg) == Value(d.reg) % Pow2(n)
  {
    if n == 0 {
      ZerosValue(Zeros(d.capacity));
    } else if top < |d.reg| {
      MaskWordsMeaning(d.reg, top, j, n);
    } else {
      OutOfReach(d.reg, top, j, n);
    }
  }

  /** `mask_bits(n)` keeps the value modulo 2^n, for every `n` and every register. */
  lemma MaskBitsMeaning(g: Growth, d: Register, n: nat)
    ensures Value(Apply(g, d, MaskBits(n)).reg) == Value(d.reg) % Pow2(n)
  {
    var top, j := n / WORD_BITS, n % WORD_BITS;
    assert Apply(g, d, MaskBits(n)) == MaskRegister(d, n, top, j);
    assert Value(MaskRegister(d, n, top, j).reg) == Value(d.reg) % Pow2(n) by {
      BitPosition(n);
      MaskRegisterMeaning(d, n, top, j);
    }
  }

  /** The register after a store, wherever the word is. */
  lemma StoredRegister(g: Growth, d: Register, i: nat, w: Word)
    ensures var t := Apply(g, d, SetWordAt(i, w)).reg;
            if i < |d.reg| then t == d.reg[i := w]
            else if w == 0 then t == d.reg
            else |t| > i && t == Resized(d.reg, |t|)[i := w]
  {
  }

  lemma SetWordAtFrame(g: Growth, d: Register, i: nat, w: Word, k: nat)
    ensures WordAt(Apply(g, d, SetWordAt(i, w)).reg, k) == if k == i then w else WordAt(d.reg, k)
  {
    StoredRegister(g, d, i, w);
  }

  lemma SetWordAtValue(g: Growth, d: Register, i: nat, w: Word)
    ensures Value(Apply(g, d, SetWordAt(i, w)).reg) == Value(d.reg) + (w - WordAt(d.reg, i)) * Weight(i)
  {
    StoredRegister(g, d, i, w);
    var t := Apply(g, d, SetWordAt(i, w)).reg;
    if i < |d.reg| {
      ValueUpdate(d.reg, i, w);
    } else if w != 0 {
      ResizedValue(d.reg, |t|);
      ValueUpdate(Resized(d.reg, |t|), i, w);
    }
  }

  /** `set_word_at` replaces one word, in and beyond the register, and moves the value by the difference. */
  lemma SetWordAtMeaning(g: Growth, d: Register, i: nat, w: Word)
    ensures var t := Apply(g, d, SetWordAt(i, w)).reg;
            && Value(t) == Value(d.reg) + (w - WordAt(d.reg, i)) * Weight(i)
            && forall k :: WordAt(t, k) == if k == i then w else WordAt(d.reg, k)
  {
    SetWordAtValue(g, d, i, w);
    forall k: nat ensures WordAt(Apply(g, d, SetWordAt(i, w)).reg, k) == if k == i then w else WordAt(d.reg, k) {
      SetWordAtFrame(g, d, i, w, k);
    }
  }

  /**
   Every operation computes what `Meaning` says, for every register and growth
   policy, and whatever the cache says but for `shrink_to_fit`, which reads it.
   */
  lemma ApplyMeaning(g: Growth, d: Register, op: Op)
    requires op.ShrinkToFit? ==> Consistent(d)
    requires op.RawWrite? ==> op.i < |d.reg|
    ensures Value(Apply(g, d, op).reg)
            == Meaning(Value(d.reg), if op.SetWordAt? || op.RawWrite? then WordAt(d.reg, op.i) else 0, op)
  {
    match op
    case SetWordAt(i, w) => SetWordAtMeaning(g, d, i, w);
    case RawWrite(i, w) => ValueUpdate(d.reg, i, w);
    case MaskBits(n) => MaskBitsMeaning(g, d, n);
    case Resize(s) => ResizedValue(d.reg, s);
    case GrowTo(n) => ResizedValue(d.reg, |GrowRegister(g, d, n).reg|);
    case ShrinkToFit(minSize) => ResizedValue(d.reg, Max(minSize, SigWords(d.reg)));
    case SetToZero => ZerosValue(Zeros(d.capacity));
    case SetSize(s) => ZerosValue(Resized(Zeros(|d.reg|), RoundUp(s)));
    case _ =>
  }

  /** Growth within capacity is exact; beyond it the size is the next multiple of eight above `n`. */
  lemma GrowthSizes(g: Growth, d: Register, n: nat)
    ensures var t := Apply(g, d, GrowTo(n)).reg;
            if n <= |d.reg| then |t| == |d.reg|
            else if n <= d.capacity then |t| == n
            else |t| % 8 == 0 && n < |t| <= n + 8
    ensures var t := Apply(g, d, SetSize(n)).reg; |t| % 8 == 0 && n < |t| <= n + 8
  {
  }

  /** Shrinking leaves the least size that is at least `m` and holds the value. */
  lemma ShrunkSize(g: Growth, d: Register, m: nat, k: nat)
    requires Consistent(d)
    ensures |Apply(g, d, ShrinkToFit(m)).reg| <= k <==> m <= k && Value(d.reg) < Weight(k)
  {
    SigWordsLeast(d.reg, k);
  }

  /** The size of the register after every other operation; with the value it determines every word. */
  lemma Sizes(g: Growth, d: Register, op: Op)
    ensures var t := Apply(g, d, op);
            match op
            case SetWordAt(i, w) =>
              if i < |d.reg| || w == 0 then |t.reg| == |d.reg| else t.reg[i := 0] == Apply(g, d, GrowTo(i + 1)).reg
            case SetWords(words) => t.reg == words
            case SetToZero => |t.reg| == d.capacity
            case MaskBits(n) => |t.reg| == if n == 0 then d.capacity else |d.reg|
            case Resize(s) => |t.reg| == s
            case SwapVector(words, spare) => t.reg == words && t.capacity == |words| + spare
            case TakePointer => t.reg == d.reg
            case RawWrite(_, _) => |t.reg| == |d.reg|
            case Count => t.reg == d.reg
            case _ => true
  {
    if op.SetWordAt? && op.i >= |d.reg| && op.w != 0 {
      var t, u := Apply(g, d, op).reg, Apply(g, d, GrowTo(op.i + 1)).reg;
      assert t == u[op.i := op.w] && u[op.i] == 0;
      assert t[op.i := 0] == u;
    }
  }

  /** The vector keeps its memory: a size within the capacity leaves it, and no operation but a swap takes any away. */
  lemma Capacities(g: Growth, d: Register, op: Op)
    requires Consistent(d) && !op.SwapVector?
    ensures var t := Apply(g, d, op);
            d.capacity <= t.capacity && (|t.reg| <= d.capacity ==> t.capacity == d.capacity)
  {
  }

  /** Which operations leave the count known, unknown, or as it was. */
  lemma CountAfter(g: Growth, d: Register, op: Op)
    ensures var t := Apply(g, d, op);
            match op
            case SetToZero => t.sig == Some(0)
            case ShrinkToFit(_) => t.sig.Some? && (d.sig.Some? ==> t.sig == d.sig)
            case Count => t.sig.Some? && (d.sig.Some? ==> t.sig == d.sig)
            case MaskBits(n) =>
              t.sig == if n == 0 then Some(0) else if n / WORD_BITS < |d.reg| then None else d.sig
            case GrowTo(_) => t.sig == d.sig
            case Resize(_) => t.sig == d.sig
            case RawWrite(_, _) => t.sig == d.sig
            case _ => t.sig.None?
  {
  }

  // ----- setting bits

  /** Word `i` with bit `j` set, or as it was. */
  function BitWord(reg: seq<Word>, i: nat, j: nat, setIt: bool): (w: Word)
    requires j < WORD_BITS
  {
    var mask := if setIt then Pow2(j) else 0;
    Pow2Mono(j + 1, WORD_BITS);
    BitOrBound(WordAt(reg, i), mask, WORD_BITS);
    BitOr(WordAt(reg, i), mask)
  }

  /** The store that `conditionally_set_bit` makes. */
  function SetBitOp(reg: seq<Word>, n: nat, setIt: bool): Op {
    BitPosition(n);
    SetWordAt(n / WORD_BITS, BitWord(reg, n / WORD_BITS, n % WORD_BITS, setIt))
  }

  lemma BitWordDelta(reg: seq<Word>, i: nat, j: nat, setIt: bool)
    requires j < WORD_BITS
    ensures BitWord(reg, i, j, setIt) - WordAt(reg, i) == if setIt && !GetBitAt(reg, i, j) then Pow2(j) else 0
  {
    BitOrPow2(WordAt(reg, i), j);
    BitOrZero(WordAt(reg, i));
  }

  lemma ScaleDelta(delta: int, weight: nat, p: nat)
    ensures delta == p ==> delta * weight == weight * p
    ensures delta == 0 ==> delta * weight == 0
  {
  }

  lemma SetBitAtMeaning(g: Growth, d: Register, i: nat, j: nat, n: nat, setIt: bool)
    requires j < WORD_BITS && Pow2(n) == Weight(i) * Pow2(j)
    ensures Value(Apply(g, d, SetWordAt(i, BitWord(d.reg, i, j, setIt))).reg)
            == Value(d.reg) + if setIt && !Bit(Value(d.reg), n) then Pow2(n) else 0
  {
    var w := BitWord(d.reg, i, j, setIt);
    var delta := w - WordAt(d.reg, i);
    assert delta * Weight(i) == if setIt && !Bit(Value(d.reg), n) then Pow2(n) else 0 by {
      GetBitAtMeaning(d.reg, i, j, n);
      BitWordDelta(d.reg, i, j, setIt);
      ScaleDelta(delta, Weight(i), Pow2(j));
    }
    SetWordAtMeaning(g, d, i, w);
  }

  /** Setting bit `n` adds 2^n exactly when it was clear; leaving it adds nothing. */
  lemma SetBitMeaning(g: Growth, d: Register, n: nat, setIt: bool)
    ensures Value(Apply(g, d, SetBitOp(d.reg, n, setIt)).reg)
            == Value(d.reg) + if setIt && !Bit(Value(d.reg), n) then Pow2(n) else 0
  {
    var i, j := n / WORD_BITS, n % WORD_BITS;
    assert j < WORD_BITS && Pow2(n) == Weight(i) * Pow2(j) by {
      BitPosition(n);
    }
    assert SetBitOp(d.reg, n, setIt) == SetWordAt(i, BitWord(d.reg, i, j, setIt));
    SetBitAtMeaning(g, d, i, j, n, setIt);
  }

  lemma SetBitAtFrame(g: Growth, d: Register, i: nat, j: nat, setIt: bool, i': nat, j': nat)
    requires j < WORD_BITS
    ensures GetBitAt(Apply(g, d, SetWordAt(i, BitWord(d.reg, i, j, setIt))).reg, i', j')
            == (GetBitAt(d.reg, i', j') || (setIt && i == i' && j == j'))
  {
    SetWordAtMeaning(g, d, i, BitWord(d.reg, i, j, setIt));
    if i' == i {
      BitOrBits(WordAt(d.reg, i), if setIt then Pow2(j) else 0, j');
      PowerBit(j, j');
    }
  }

  lemma SamePosition(n: nat, m: nat)
    ensures n % WORD_BITS < WORD_BITS
    ensures n == m <==> n / WORD_BITS == m / WORD_BITS && n % WORD_BITS == m % WORD_BITS
  {
    DivMod(n, WORD_BITS);
    DivMod(m, WORD_BITS);
  }

  /** Every other bit is left alone, whether or not the register grows. */
  lemma SetBitFrame(g: Growth, d: Register, n: nat, setIt: bool, m: nat)
    ensures GetBit(Apply(g, d, SetBitOp(d.reg, n, setIt)).reg, m) == (GetBit(d.reg, m) || (setIt && m == n))
  {
    var i, j, i', j' := n / WORD_BITS, n % WORD_BITS, m / WORD_BITS, m % WORD_BITS;
    SamePosition(n, m);
    assert SetBitOp(d.reg, n, setIt) == SetWordAt(i, BitWord(d.reg, i, j, setIt));
    SetBitAtFrame(g, d, i, j, setIt, i', j');
  }
}
