/**
 The register and the big integer as objects updated in place
 (vendors/bigint.h), proved against the functions of `BigIntRegister`.
 */
module BigIntObject {
  import opened Common
  import opened BitArithmetic
  import opened BigIntRegister

  class Data {
    const growth: Growth
    var reg: seq<Word>
    var capacity: nat
    var sig: Option<nat>

    function State(): Register
      reads this
    {
      Register(reg, capacity, sig)
    }

    constructor (growth: Growth)
      ensures this.growth == growth && State() == Register([], 0, None)
    {
      this.growth := growth;
      reg, capacity, sig := [], 0, None;
    }

    method InvalidateSigWords()
      modifies this
      ensures State() == old(Apply(growth, State(), TakePointer))
    {
      sig := None;
    }

    /** `resize` of the word vector. */
    method ResizeVector(n: nat)
      modifies this
      ensures State() == old(VectorResize(growth, State(), n))
    {
      if n > capacity {
        capacity := if growth(capacity, n) > n then growth(capacity, n) else n;
      }
      reg := if n <= |reg| then reg[..n] else reg + Zeros(n - |reg|);
    }

    method SetWordAt(i: nat, w: Word)
      modifies this
      ensures State() == old(Apply(growth, State(), Op.SetWordAt(i, w)))
    {
      InvalidateSigWords();
      if i >= |reg| {
        if w == 0 {
          return;
        }
        GrowTo(i + 1);
      }
      reg := reg[i := w];
    }

    method SetWords(words: seq<Word>)
      modifies this
      ensures State() == old(Apply(growth, State(), Op.SetWords(words)))
    {
      InvalidateSigWords();
      capacity := Grown(growth, capacity, |words|);
      reg := words;
    }

    method SetToZero()
      modifies this
      ensures State() == old(Apply(growth, State(), Op.SetToZero))
    {
      reg := Zeros(capacity);
      sig := Some(0);
    }

    method SetSize(s: nat)
      modifies this
      ensures State() == old(Apply(growth, State(), Op.SetSize(s)))
    {
      InvalidateSigWords();
      reg := Zeros(|reg|);
      ResizeVector(s + (8 - s % 8));
    }

    method MaskBits(n: nat)
      modifies this
      ensures State() == old(Apply(growth, State(), Op.MaskBits(n)))
    {
      if n == 0 {
        SetToZero();
        return;
      }
      var topWord := n / WORD_BITS;
      if topWord < |reg| {
        var mask := Pow2(n % WORD_BITS) - 1;
        BitAndMask(reg[topWord], n % WORD_BITS);
        ModBound(reg[topWord], Pow2(n % WORD_BITS));
        var masked: Word := BitAnd(reg[topWord], mask);
        reg := reg[..topWord + 1] + Zeros(|reg| - (topWord + 1));
        reg := reg[topWord := masked];
        InvalidateSigWords();
        assert reg == old(MaskWords(reg, topWord, n % WORD_BITS));
      }
    }

    method GrowTo(n: nat)
      modifies this
      ensures State() == old(Apply(growth, State(), Op.GrowTo(n)))
    {
      if n > |reg| {
        if n <= capacity {
          ResizeVector(n);
        } else {
          ResizeVector(n + (8 - n % 8));
        }
      }
    }

    method ShrinkToFit(minSize: nat)
      requires Consistent(State())
      modifies this
      ensures State() == old(Apply(growth, State(), Op.ShrinkToFit(minSize)))
    {
      var count := CountSigWords();
      ResizeVector(if minSize < count then count else minSize);
    }

    method Resize(s: nat)
      modifies this
      ensures State() == old(Apply(growth, State(), Op.Resize(s)))
    {
      ResizeVector(s);
    }

    method Swap(other: Data)
      modifies this, other
      ensures State() == old(other.State()) && other.State() == old(State())
    {
      reg, other.reg := other.reg, reg;
      capacity, other.capacity := other.capacity, capacity;
      sig, other.sig := other.sig, sig;
    }

    /** `sig_words`: the cached count, recomputed only when unknown. */
    method CountSigWords() returns (k: nat)
      requires Consistent(State())
      modifies this
      ensures State() == old(Apply(growth, State(), Count))
      ensures k == SigWords(reg) && sig == Some(k)
    {
      if sig.None? {
        sig := Some(SigWords(reg));
      }
      k := sig.value;
    }
  }

  // ----- signs

  /** The signed integer a sign and a register stand for. */
  function Signed(negative: bool, reg: seq<Word>): int {
    var magnitude: int := Value(reg);
    if negative then -magnitude else magnitude
  }

  predicate NegativeZero(negative: bool, reg: seq<Word>) {
    negative && Value(reg) == 0
  }

  /** The sign that `set_sign` stores: zero is never made negative. */
  function StoredSign(negative: bool, reg: seq<Word>): bool {
    negative && SigWords(reg) != 0
  }

  function FlippedSign(negative: bool, reg: seq<Word>): bool {
    StoredSign(!negative, reg)
  }

  /** Flipping negates the integer and never leaves a negative zero, even starting from one. */
  lemma FlipNegates(negative: bool, reg: seq<Word>)
    ensures Signed(FlippedSign(negative, reg), reg) == -Signed(negative, reg)
    ensures !NegativeZero(FlippedSign(negative, reg), reg)
  {
    ZeroIffNoSigWords(reg);
  }

  /** Flipping twice restores the stored sign exactly unless it was that of a negative zero. */
  lemma FlipTwice(negative: bool, reg: seq<Word>)
    ensures FlippedSign(FlippedSign(negative, reg), reg) == negative <==> !NegativeZero(negative, reg)
  {
    ZeroIffNoSigWords(reg);
  }

  /** `mask_bits` keeps the sign, so it leaves a negative zero exactly when a negative value loses all its bits. */
  lemma MaskLeavesNegativeZero(g: Growth, d: Register, n: nat, negative: bool)
    ensures NegativeZero(negative, Apply(g, d, MaskBits(n)).reg) <==> negative && Value(d.reg) % Pow2(n) == 0
  {
    MaskBitsMeaning(g, d, n);
  }

  class BigInt {
    const data: Data
    var negative: bool

    ghost predicate Valid()
      reads this, data
    {
      Consistent(data.State())
    }

    ghost function Int(): int
      reads this, data
    {
      Signed(negative, data.reg)
    }

    constructor (growth: Growth)
      ensures Valid() && fresh(data) && Int() == 0 && !negative && data.growth == growth
    {
      data := new Data(growth);
      negative := false;
    }

    method IsZero() returns (zero: bool)
      requires Valid()
      modifies data
      ensures Valid() && data.reg == old(data.reg)
      ensures zero == (Int() == 0)
    {
      CacheStep(data.growth, data.State(), Count);
      ZeroIffNoSigWords(data.reg);
      var k := data.CountSigWords();
      zero := k == 0;
    }

    method SetSign(sign: bool)
      requires Valid()
      modifies this, data
      ensures Valid() && data.reg == old(data.reg)
      ensures negative == StoredSign(sign, data.reg) && !NegativeZero(negative, data.reg)
    {
      ZeroIffNoSigWords(data.reg);
      var toStore := sign;
      if sign {
        var zero := IsZero();
        if zero {
          toStore := false;
        }
      }
      negative := toStore;
    }

    method FlipSign()
      requires Valid()
      modifies this, data
      ensures Valid() && data.reg == old(data.reg)
      ensures negative == old(FlippedSign(negative, data.reg))
      ensures Int() == -old(Int()) && !NegativeZero(negative, data.reg)
    {
      FlipNegates(negative, data.reg);
      SetSign(!negative);
    }

    method Clear()
      requires Valid()
      modifies this, data
      ensures Valid() && Int() == 0 && !negative
    {
      CacheStep(data.growth, data.State(), SetToZero);
      ApplyMeaning(data.growth, data.State(), SetToZero);
      data.SetToZero();
      negative := false;
    }

    method MaskBits(n: nat)
      requires Valid()
      modifies this, data
      ensures Valid() && negative == old(negative)
      ensures Value(data.reg) == old(Value(data.reg)) % Pow2(n)
    {
      CacheStep(data.growth, data.State(), Op.MaskBits(n));
      MaskBitsMeaning(data.growth, data.State(), n);
      data.MaskBits(n);
    }

    method ConditionallySetBit(n: nat, setIt: bool)
      requires Valid()
      modifies this, data
      ensures Valid() && negative == old(negative)
      ensures Value(data.reg)
              == old(Value(data.reg)) + if setIt && !old(Bit(Value(data.reg), n)) then Pow2(n) else 0
      ensures forall m :: GetBit(data.reg, m) == (old(GetBit(data.reg, m)) || (setIt && m == n))
    {
      ghost var before := data.State();
      var op := SetBitOp(data.reg, n, setIt);
      CacheStep(data.growth, before, op);
      SetBitMeaning(data.growth, before, n, setIt);
      forall m {
        SetBitFrame(data.growth, before, n, setIt, m);
      }
      data.SetWordAt(op.i, op.w);
    }

    static method PowerOf2(growth: Growth, n: nat) returns (b: BigInt)
      ensures fresh(b) && fresh(b.data) && b.Valid() && b.Int() == Pow2(n)
    {
      b := new BigInt(growth);
      assert !Bit(Value(b.data.reg), n);
      b.ConditionallySetBit(n, true);
    }
  }
}
