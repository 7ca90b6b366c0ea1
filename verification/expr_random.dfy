/** The word a seed and a sequence number are folded into, modulo 2^32. */
module ExprFold {

  /** Multiplication by the generators' odd constant, and its inverse. */
  function Scramble(x: bv32): bv32 { x * 0x9e3779b1 }

  function Unscramble(x: bv32): bv32 { x * 0x0e8b2f51 }

  function Fold(seed: bv32, seq_: bv32): bv32 {
    Scramble(seed) ^ seq_
  }

  lemma ScrambleIs(x: bv32)
    ensures Scramble(x) == x * 0x9e3779b1
  {
  }

  lemma UnscrambleProduct(x: bv32)
    ensures Unscramble(x * 0x9e3779b1) == x
  {
  }

  /** Nothing is lost by scrambling. */
  lemma ScrambleInverts(x: bv32)
    ensures Unscramble(Scramble(x)) == x
  {
    hide Scramble, Unscramble;
    ScrambleIs(x);
    UnscrambleProduct(x);
  }

  lemma XorTwice(a: bv32, b: bv32)
    ensures (a ^ b) ^ b == a
    ensures (a ^ b) ^ a == b
  {
  }

  lemma SeedFromFold(seed: bv32, seq_: bv32)
    ensures Fold(seed, seq_) ^ seq_ == Scramble(seed)
  {
    hide Scramble;
    XorTwice(Scramble(seed), seq_);
  }

  lemma SeqFromFold(seed: bv32, seq_: bv32)
    ensures Fold(seed, seq_) ^ Scramble(seed) == seq_
  {
    hide Scramble;
    XorTwice(Scramble(seed), seq_);
  }

  lemma SameFoldSameSeq(seed: bv32, p: bv32, q: bv32)
    requires Fold(seed, p) == Fold(seed, q)
    ensures p == q
  {
    hide Scramble, Fold;
    SeqFromFold(seed, p);
    SeqFromFold(seed, q);
  }

  lemma SameFoldSameSeed(p: bv32, q: bv32, seq_: bv32)
    requires Fold(p, seq_) == Fold(q, seq_)
    ensures p == q
  {
    hide Scramble, Unscramble, Fold;
    SeedFromFold(p, seq_);
    SeedFromFold(q, seq_);
    ScrambleInverts(p);
    ScrambleInverts(q);
  }

  /** The folded word tells every two sequence numbers of one seed apart. */
  lemma FoldInjectiveInSeq(seed: bv32, p: bv32, q: bv32)
    ensures Fold(seed, p) == Fold(seed, q) <==> p == q
  {
    hide Fold;
    if Fold(seed, p) == Fold(seed, q) { SameFoldSameSeq(seed, p, q); }
  }

  /** The folded word tells every two seeds at one sequence number apart. */
  lemma FoldInjectiveInSeed(p: bv32, q: bv32, seq_: bv32)
    ensures Fold(p, seq_) == Fold(q, seq_) <==> p == q
  {
    hide Fold;
    if Fold(p, seq_) == Fold(q, seq_) { SameFoldSameSeed(p, q, seq_); }
  }
}

/** The two 32-bit generators behind `$random` and `rand()`. */
module ExprRandom {
  import opened ExprFold

  /** The bits one mulberry32 step makes of `state`. */
  function Mulberry32(state: bv32): bv32 {
    var t := state + 0x6d2b79f5;
    var u := (t ^ (t >> 15)) * (t | 1);
    var v := u ^ (u + (u ^ (u >> 7)) * (u | 61));
    v ^ (v >> 14)
  }

  function Fraction(bits: bv32): (r: real)
    ensures 0.0 <= r < 1.0
  {
    (bits as int) as real / 4294967296.0
  }

  /** `$random` for two inputs already reduced modulo 2^32. */
  function DeriveRandom(seed: bv32, seq_: bv32): (r: real)
    ensures 0.0 <= r < 1.0
  {
    Fraction(Mulberry32(Fold(seed, seq_)))
  }

  /** The words two known states are stirred to. */
  lemma KnownWords()
    ensures Mulberry32(0) == 1144304738
    ensures Fold(42, 7) == 4112119565 && Mulberry32(4112119565) == 4234414586
  {
    hide Fold, Mulberry32;
    StirZero();
    FoldKnown();
    StirKnown();
  }

  lemma StirZero()
    ensures Mulberry32(0) == 1144304738
  {
  }

  lemma FoldKnown()
    ensures Fold(42, 7) == 4112119565
  {
  }

  lemma StirKnown()
    ensures Mulberry32(4112119565) == 4234414586
  {
  }

  /** An integer reduced to 32 bits. */
  function ToBits(x: int): bv32 {
    (x % 0x1_0000_0000) as bv32
  }

  /** The `k`-th draw of a step whose `$random` is `random`. */
  function Draw(random: real, k: nat): (r: real)
    ensures 0.0 <= r < 1.0
  {
    Fraction(Mulberry32(Fold(ToBits((random * 4294967296.0).Floor), ToBits(k))))
  }
}
