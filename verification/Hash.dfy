/** The snapshot hash on 64-bit words: each step can be undone, so no step loses information. */
module Hash {
  import opened Arith

  const WORD: nat := 0x1_0000_0000_0000_0000
  const OFFSET: nat := 0xcbf2_9ce4_8422_2325
  const PRIME: nat := 0x100_0000_01b3
  const PRIME_INVERSE: nat := 0xce96_5057_aff6_957b

  function Pow2(n: nat): (p: nat)
    ensures p > 0
  {
    if n == 0 then 1 else 2 * Pow2(n - 1)
  }

  lemma WordIsPow2()
    ensures Pow2(64) == WORD
  {
    assert Pow2(4) == 16;
    Pow2Sum(4, 4);
    Pow2Sum(8, 8);
    Pow2Sum(16, 16);
    Pow2Sum(32, 32);
  }

  lemma {:induction false} Pow2Sum(a: nat, b: nat)
    ensures Pow2(a + b) == Pow2(a) * Pow2(b)
  {
    if a > 0 {
      Pow2Sum(a - 1, b);
      assert Pow2(a) * Pow2(b) == 2 * (Pow2(a - 1) * Pow2(b));
    }
  }

  /** Exclusive or of the low `n` bits. */
  function XorBits(n: nat, a: nat, b: nat): (r: nat)
    ensures r < Pow2(n)
  {
    if n == 0 then 0 else 2 * XorBits(n - 1, a / 2, b / 2) + if a % 2 == b % 2 then 0 else 1
  }

  lemma {:induction false} XorCancel(n: nat, a: nat, b: nat)
    requires a < Pow2(n)
    ensures XorBits(n, XorBits(n, a, b), b) == a
  {
    if n > 0 {
      var r := XorBits(n - 1, a / 2, b / 2);
      var bit := if a % 2 == b % 2 then 0 else 1;
      DivModUnique(2 * r + bit, r, bit, 2);
      XorCancel(n - 1, a / 2, b / 2);
    }
  }

  lemma {:induction false} XorCommutes(n: nat, a: nat, b: nat)
    ensures XorBits(n, a, b) == XorBits(n, b, a)
  {
    if n > 0 {
      XorCommutes(n - 1, a / 2, b / 2);
    }
  }

  function Xor(a: nat, b: nat): (r: nat)
    ensures r < WORD
  {
    WordIsPow2();
    XorBits(64, a, b)
  }

  lemma XorUndo(a: nat, b: nat)
    requires a < WORD
    ensures Xor(Xor(a, b), b) == a && Xor(Xor(b, a), b) == a
  {
    WordIsPow2();
    XorCancel(64, a, b);
    XorCommutes(64, a, b);
  }

  function Times(h: nat, k: nat): (r: nat)
    ensures r < WORD
  {
    h * k % WORD
  }

  /** Multiplying by the FNV prime loses nothing modulo 2^64: it has an inverse. */
  lemma TimesUndo(h: nat)
    requires h < WORD
    ensures Times(Times(h, PRIME), PRIME_INVERSE) == h
  {
    var q, r := h * PRIME / WORD, h * PRIME % WORD;
    assert h * PRIME == q * WORD + r;
    assert PRIME * PRIME_INVERSE == 0xce9650590f * WORD + 1;
    var k: int := h * 0xce9650590f - q * PRIME_INVERSE;
    assert r * PRIME_INVERSE == k * WORD + h;
    assert k >= 0;
    DivModUnique(r * PRIME_INVERSE, k, h, WORD);
  }

  /** One step of the hash: mix the word `v` into `h`. */
  function Mix(h: nat, v: nat): (r: nat)
    ensures r < WORD
  {
    Times(Xor(h, v), PRIME)
  }

  /** A step is injective in the running hash and in the word. */
  lemma MixInjective(h: nat, v: nat, h': nat, v': nat)
    requires h < WORD && v < WORD && h' < WORD && v' < WORD && Mix(h, v) == Mix(h', v')
    ensures h == h' <==> v == v'
  {
    TimesUndo(Xor(h, v));
    TimesUndo(Xor(h', v'));
    assert Xor(h, v) == Xor(h', v');
    XorUndo(h, v);
    XorUndo(h', v');
    XorUndo(v, h);
    XorUndo(v', h');
  }

  ghost predicate AreWords(ws: seq<nat>) {
    forall i :: 0 <= i < |ws| ==> ws[i] < WORD
  }

  function Fold(h: nat, ws: seq<nat>): (r: nat)
    requires h < WORD
    ensures r < WORD
  {
    if ws == [] then h else Mix(Fold(h, ws[..|ws| - 1]), ws[|ws| - 1])
  }

  /** Streams that differ in one word have different hashes. */
  lemma {:induction false} OneWordChangesHash(h: nat, ws: seq<nat>, i: nat, w: nat)
    requires h < WORD && AreWords(ws) && i < |ws| && w < WORD && w != ws[i]
    ensures Fold(h, ws[i := w]) != Fold(h, ws)
  {
    var n := |ws| - 1;
    assert ws[i := w][..n] == if i == n then ws[..n] else ws[..n][i := w];
    if i < n {
      OneWordChangesHash(h, ws[..n], i, w);
    }
    if Fold(h, ws[i := w]) == Fold(h, ws) {
      MixInjective(Fold(h, ws[..n]), ws[n], Fold(h, ws[i := w][..n]), ws[i := w][n]);
    }
  }

  lemma FoldSnoc(h: nat, ws: seq<nat>, w: nat)
    requires h < WORD
    ensures Fold(h, ws + [w]) == Mix(Fold(h, ws), w)
  {
  }
}
