/** `RSA_to_RSAPublicKey`: a 2048-bit modulus cut into 32-bit words, with the two numbers that
    word-by-word Montgomery arithmetic needs. Big numbers are natural numbers here. */
module KeyConversion {
  import opened Bytes

  const RSANUMBYTES: nat := 256
  const RSANUMWORDS: nat := 64

  /** The word base, `r32` in the conversion. */
  const W: nat := 0x1_0000_0000

  function Pow(b: nat, k: nat): (p: nat)
    ensures b > 0 ==> p > 0
  {
    if k == 0 then 1 else b * Pow(b, k - 1)
  }

  /** The number that a little-endian array of words stands for. */
  function Value(s: seq<uint32>): nat {
    if s == [] then 0 else s[0] + W * Value(s[1..])
  }

  /** `RSA_size`: the bytes needed to write the modulus. */
  function NumBytes(n: nat): nat {
    if n == 0 then 0 else 1 + NumBytes(n / 256)
  }

  // ---- arithmetic on products ----

  lemma Assoc3(a: int, b: int, c: int)
    ensures (a * b) * c == a * (b * c) == b * (a * c)
  {
  }

  lemma Distribute(a: int, b: int, c: int)
    ensures a * (b + c) == a * b + a * c
  {
  }

  lemma Monotone(a: int, b: int, p: nat)
    requires a <= b
    ensures p * a <= p * b
  {
  }

  lemma Smaller(a: int, b: int, p: nat)
    requires p * a < p * b
    ensures a < b
  {
    if a >= b {
      Monotone(b, a, p);
    }
  }

  lemma Multiple(p: nat, q: int, r: int, x: int)
    requires 0 < p && x == p * q + r && 0 <= r < p
    ensures x % p == r && x / p == q
  {
    var q', r' := x / p, x % p;
    assert x == p * q' + r';
    Distribute(p, q, -q');
    if q' < q {
      Monotone(1, q - q', p);
    } else if q' > q {
      Monotone(1, q' - q, p);
      Distribute(p, q', -q);
    }
  }

  // ---- words ----

  lemma {:induction false} ValueSnoc(s: seq<uint32>, d: uint32)
    ensures Value(s + [d]) == Value(s) + Pow(W, |s|) * d
  {
    if s == [] {
      assert s + [d] == [d] && (s + [d])[1..] == s;
    } else {
      assert (s + [d])[1..] == s[1..] + [d];
      ValueSnoc(s[1..], d);
      Assoc3(W, Pow(W, |s| - 1), d);
    }
  }

  lemma {:induction false} ValueBound(s: seq<uint32>)
    ensures Value(s) < Pow(W, |s|)
  {
    if s != [] {
      ValueBound(s[1..]);
    }
  }

  /** Two arrays of the same length stand for the same number only if they are equal. */
  lemma {:induction false} ValueInjective(s: seq<uint32>, t: seq<uint32>)
    requires |s| == |t| && Value(s) == Value(t)
    ensures s == t
  {
    if s != [] {
      Multiple(W, Value(s[1..]), s[0], Value(s));
      Multiple(W, Value(t[1..]), t[0], Value(t));
      ValueInjective(s[1..], t[1..]);
      assert s == [s[0]] + s[1..] && t == [t[0]] + t[1..];
    }
  }

  /** What is left of a number after `k` divisions by the base, and the remainders of those divisions. */
  function Rest(total: nat, k: nat): nat {
    if k == 0 then total else Rest(total, k - 1) / W
  }

  function Words(total: nat, k: nat): (s: seq<uint32>)
    ensures |s| == k
  {
    if k == 0 then [] else Words(total, k - 1) + [Rest(total, k - 1) % W]
  }

  /** The words taken so far and what is left to divide make up the number. */
  lemma {:induction false} WordsMakeUp(total: nat, k: nat)
    ensures total == Value(Words(total, k)) + Pow(W, k) * Rest(total, k)
  {
    if k > 0 {
      WordsMakeUp(total, k - 1);
      WordOver(Value(Words(total, k - 1)), Pow(W, k - 1), Rest(total, k - 1));
      ValueSnoc(Words(total, k - 1), Rest(total, k - 1) % W);
    }
  }

  lemma WordOver(v: nat, p: nat, rest: nat)
    ensures v + p * rest == v + p * (rest % W) + (W * p) * (rest / W)
  {
    var q, d := rest / W, rest % W;
    Distribute(p, W * q, d);
    Assoc3(W, p, q);
  }

  /** The words of a number below W^k leave nothing over. */
  lemma WordsOfSmall(total: nat, k: nat)
    requires total < Pow(W, k)
    ensures Value(Words(total, k)) == total
  {
    WordsMakeUp(total, k);
    Smaller(Rest(total, k), 1, Pow(W, k));
  }

  lemma {:induction false} NumBytesRange(n: nat, k: nat)
    ensures NumBytes(n) <= k <==> n < Pow(256, k)
  {
    if k > 0 && n > 0 {
      NumBytesRange(n / 256, k - 1);
    }
  }

  lemma {:induction false} PowWords(k: nat)
    ensures Pow(256, 4 * k) == Pow(W, k)
  {
    if k > 0 {
      PowWords(k - 1);
      var p := Pow(256, 4 * k - 4);
      assert Pow(256, 4 * k - 3) == 256 * p;
      assert Pow(256, 4 * k - 2) == 256 * (256 * p);
      assert Pow(256, 4 * k - 1) == 256 * (256 * (256 * p));
    }
  }

  lemma SizeMeansWords(n: nat, words: nat)
    requires 0 < words && NumBytes(n) == 4 * words
    ensures 0 < n < Pow(W, words)
  {
    NumBytesRange(n, 4 * words);
    PowWords(words);
  }

  // ---- the inverse ----

  /** `x` is the inverse of `a` modulo `m`, reduced. */
  predicate IsInverse(a: nat, m: nat, x: nat) {
    0 < m && x < m && a * x % m == 1 % m
  }

  /** An inverse modulo 2^k and the quotient that shows it: a * x == 1 + 2^k * q. */
  datatype Root = Root(x: nat, q: int)

  /** The inverse of an odd number modulo 2^k, one bit at a time. */
  function OddInverse(a: nat, k: nat): Root {
    if k == 0 then Root(0, -1)
    else
      var Root(x, q) := OddInverse(a, k - 1);
      if q % 2 == 0 then Root(x, q / 2) else Root(x + Pow(2, k - 1), (q + a) / 2)
  }

  /** `BN_mod_inverse` modulo 2^32: nothing when there is no inverse. */
  function ModInverse32(a: nat): Option<nat> {
    if a % 2 == 0 then None else Some(OddInverse(a, 32).x)
  }

  ghost predicate IsRoot(a: nat, p: nat, r: Root) {
    a * r.x == 1 + p * r.q && r.x < p
  }

  lemma LiftEven(a: nat, p: nat, x: nat, q: int)
    requires a * x == 1 + p * q && x < p && q % 2 == 0
    ensures IsRoot(a, 2 * p, Root(x, q / 2))
  {
    Assoc3(2, p, q / 2);
  }

  lemma LiftOdd(a: nat, p: nat, x: nat, q: int)
    requires a * x == 1 + p * q && x < p && q % 2 == 1 && a % 2 == 1
    ensures IsRoot(a, 2 * p, Root(x + p, (q + a) / 2))
  {
    var h := (q + a) / 2;
    Distribute(a, x, p);
    Distribute(p, q, a);
    Assoc3(2, p, h);
  }

  lemma {:induction false} OddInverseCorrect(a: nat, k: nat)
    requires a % 2 == 1
    ensures IsRoot(a, Pow(2, k), OddInverse(a, k))
  {
    if k > 0 {
      OddInverseCorrect(a, k - 1);
      var r := OddInverse(a, k - 1);
      if r.q % 2 == 0 {
        LiftEven(a, Pow(2, k - 1), r.x, r.q);
      } else {
        LiftOdd(a, Pow(2, k - 1), r.x, r.q);
      }
    }
  }

  lemma {:induction false} Bits32()
    ensures Pow(2, 32) == W
  {
    assert Pow(2, 4) == 16;
    assert Pow(2, 8) == 256;
    assert Pow(2, 12) == 4096;
    assert Pow(2, 16) == 0x1_0000;
    assert Pow(2, 20) == 0x10_0000;
    assert Pow(2, 24) == 0x100_0000;
    assert Pow(2, 28) == 0x1000_0000;
  }

  lemma RootInverse(a: nat, r: Root)
    requires IsRoot(a, W, r)
    ensures IsInverse(a, W, r.x)
  {
    Multiple(W, r.q, 1, a * r.x);
  }

  /** Exactly the odd numbers have an inverse modulo 2^32. */
  lemma InvertibleIffOdd(a: nat)
    ensures a % 2 == 1 <==> exists x :: IsInverse(a, W, x)
    ensures ModInverse32(a).Some? <==> a % 2 == 1
    ensures ModInverse32(a).Some? ==> IsInverse(a, W, ModInverse32(a).value)
  {
    if a % 2 == 1 {
      OddInverseCorrect(a, 32);
      Bits32();
      RootInverse(a, OddInverse(a, 32));
    } else {
      forall x: nat | IsInverse(a, W, x)
        ensures false
      {
        Assoc3(2, a / 2, x);
      }
    }
  }

  // ---- the conversion ----

  /** The private key's part of interest. */
  datatype Rsa = Rsa(n: nat, e: nat)

  /** `BN_get_word`, with 32-bit words. */
  function GetWord(x: nat): uint32 { if x < W then x else W - 1 }

  /** A 32-bit word stored in an `int`. */
  function AsInt(x: uint32): int { if x < 0x8000_0000 then x else x - W }

  /** A word in an `int` is the same number modulo 2^32, in the range of an `int`. */
  lemma IntOfWord(x: uint32)
    ensures -0x8000_0000 <= AsInt(x) < 0x8000_0000 && AsInt(x) % 0x1_0000_0000 == x
  {
  }

  /** -1 / n[0] mod 2^32; an even modulus has no inverse and leaves 0. */
  function N0Inv(n: nat): uint32 {
    Negated(ModInverse32(n % W))
  }

  /** (2^(32 * words))^2 mod n. */
  function RSquared(n: nat, words: nat): nat
    requires n > 0
  {
    var r := Pow(W, words);
    r * r % n
  }

  /** The fields of a public key are the conversion of `rsa`. */
  ghost predicate Converted(rsa: Rsa, len: int, n0inv: uint32, n: seq<uint32>, rr: seq<uint32>, exponent: int) {
    && len == |n| == |rr| == RSANUMWORDS
    && 0 < rsa.n == Value(n)
    && Value(rr) == RSquared(rsa.n, |rr|)
    && n0inv == N0Inv(rsa.n)
    && exponent == AsInt(GetWord(rsa.e))
  }

  /** Both numbers can be written in `words` words. */
  ghost predicate Fit(modulus: nat, square: nat, words: nat) {
    square < modulus < Pow(W, words)
  }

  lemma SizeFits(n: nat, words: nat)
    requires 0 < words && NumBytes(n) == 4 * words
    ensures n > 0 && Fit(n, RSquared(n, words), words)
  {
    SizeMeansWords(n, words);
    var c := SquareSplits(n, words);
  }

  class PublicKey {
    var len: int
    var n0inv: uint32
    const n: array<uint32>
    const rr: array<uint32>
    var exponent: int

    ghost predicate Valid() {
      n.Length == RSANUMWORDS && rr.Length == RSANUMWORDS && n != rr
    }

    constructor ()
      ensures Valid() && fresh(n) && fresh(rr)
    {
      n := new uint32[RSANUMWORDS](_ => 0);
      rr := new uint32[RSANUMWORDS](_ => 0);
      len, n0inv, exponent := 0, 0, 0;
    }

    /** `RSA_to_RSAPublicKey`. */
    method FromRsa(rsa: Rsa) returns (ret: bool)
      requires Valid()
      modifies this, n, rr
      ensures ret <==> NumBytes(rsa.n) == RSANUMBYTES
      ensures !ret ==> unchanged(this, n, rr)
      ensures ret ==> Converted(rsa, len, n0inv, n[..], rr[..], exponent)
      ensures ret && rsa.e < 0x8000_0000 ==> exponent == rsa.e
    {
      if NumBytes(rsa.n) != RSANUMBYTES {
        return false;
      }
      SizeFits(rsa.n, n.Length);
      var square := RSquared(rsa.n, n.Length);
      Extract(rsa.n, square);
      WordsOfSmall(rsa.n, n.Length);
      WordsOfSmall(square, n.Length);
      len := RSANUMWORDS;
      n0inv := N0Inv(rsa.n);
      exponent := AsInt(GetWord(rsa.e));
      ret := true;
    }

    /** The loop that cuts both numbers into words, dividing them in place. */
    method Extract(modulus: nat, square: nat)
      requires Valid()
      modifies n, rr
      ensures n[..] == Words(modulus, n.Length) && rr[..] == Words(square, n.Length)
    {
      var i: nat, restN: nat, restR: nat := 0, modulus, square;
      while i < n.Length
        invariant 0 <= i <= n.Length
        invariant n[..i] == Words(modulus, i) && restN == Rest(modulus, i)
        invariant rr[..i] == Words(square, i) && restR == Rest(square, i)
      {
        rr[i] := restR % W;
        restR := restR / W;
        n[i] := restN % W;
        restN := restN / W;
        assert n[..i + 1] == n[..i] + [n[i]] && rr[..i + 1] == rr[..i] + [rr[i]];
        i := i + 1;
      }
      assert n[..i] == n[..] && rr[..i] == rr[..];
    }
  }

  // ---- what the numbers are for ----

  /** The inverse, when there is one, negated as the conversion does. */
  function Negated(inverse: Option<nat>): uint32 {
    if inverse.None? then 0 else (W - GetWord(inverse.value)) % W
  }

  /** n * v is -1 modulo 2^32. */
  predicate NegInverse(n: nat, v: nat) {
    (n * v + 1) % W == 0
  }

  /** n0inv is the negative inverse of the modulus, exactly when the modulus is odd. */
  lemma N0InvCorrect(n: nat)
    ensures NegInverse(n, N0Inv(n)) <==> n % 2 == 1
  {
    InvertibleIffOdd(n % W);
    assert n % W % 2 == n % 2;
    NegatedCorrect(n, ModInverse32(n % W));
  }

  lemma NegatedCorrect(n: nat, inverse: Option<nat>)
    requires inverse.Some? <==> n % 2 == 1
    requires inverse.Some? ==> IsInverse(n % W, W, inverse.value)
    ensures NegInverse(n, Negated(inverse)) <==> n % 2 == 1
  {
    if inverse.Some? {
      NegativeOf(n, inverse.value);
      NegatedIs(inverse.value);
    }
  }

  lemma NegatedIs(x: nat)
    requires 0 < x < W
    ensures Negated(Some(x)) == W - x
  {
  }

  lemma NegativeOf(n: nat, x: nat)
    requires IsInverse(n % W, W, x)
    ensures x > 0 && NegInverse(n, W - x)
  {
    var n0, q := n % W, n / W;
    var y := n0 * x;
    var k := y / W;
    NegativeProduct(n, n0, q, x, k);
    Multiple(W, q * (W - x) + n0 - k, 0, n * (W - x) + 1);
  }

  lemma NegativeProduct(n: nat, n0: nat, q: nat, x: int, k: int)
    requires n == W * q + n0 && n0 * x == W * k + 1
    ensures n * (W - x) + 1 == W * (q * (W - x) + n0 - k)
  {
    var y := W - x;
    Distribute(y, W * q, n0);
    Assoc3(W, q, y);
    Distribute(n0, W, -x);
  }

  /** The multiple of n added in one step of the reduction. */
  function Quotient(v: nat, t: nat): nat { t * v % W }

  /** Every t + ((t * v) mod 2^32) * n is divisible by 2^32. */
  lemma ReductionDivides(n: nat, v: nat, t: nat)
    requires NegInverse(n, v)
    ensures (t + Quotient(v, t) * n) % W == 0
  {
    var tv, nv := t * v, n * v;
    var m, k := Quotient(v, t), tv / W;
    var c := (nv + 1) / W;
    DivideSum(n, t, v, m, k, c);
    Multiple(W, t * c - k * n, 0, t + m * n);
  }

  lemma DivideSum(n: int, t: int, v: int, m: int, k: int, c: int)
    requires t * v == W * k + m && n * v + 1 == W * c
    ensures t + m * n == W * (t * c - k * n)
  {
    Distribute(n, t * v, -(W * k));
    Assoc3(W, k, n);
    Assoc3(n, t, v);
    Distribute(t, n * v, 1);
    Assoc3(t, W, c);
  }

  /** `k` word steps of the Montgomery reduction of `t`. */
  function Redc(n: nat, v: nat, t: nat, k: nat): nat {
    if k == 0 then t else RedcStep(n, v, Redc(n, v, t, k - 1))
  }

  function RedcStep(n: nat, v: nat, t: nat): nat { (t + Quotient(v, t) * n) / W }

  lemma StepExact(n: nat, v: nat, t: nat)
    requires NegInverse(n, v)
    ensures W * RedcStep(n, v, t) == t + Quotient(v, t) * n
  {
    ReductionDivides(n, v, t);
  }

  /** After k steps the reduction, times W^k, is the start plus a multiple of n; the multiple is
      below W^k. */
  lemma {:induction false} RedcSteps(n: nat, v: nat, t: nat, k: nat) returns (q: nat)
    requires NegInverse(n, v)
    ensures Pow(W, k) * Redc(n, v, t, k) == t + q * n && q < Pow(W, k)
  {
    if k == 0 {
      q := 0;
    } else {
      var q0 := RedcSteps(n, v, t, k - 1);
      var u := Redc(n, v, t, k - 1);
      StepExact(n, v, u);
      q := StepUp(Pow(W, k - 1), u, Quotient(v, u), n, RedcStep(n, v, u), t, q0);
    }
  }

  lemma StepUp(p: nat, u: nat, m: nat, n: nat, z: nat, t: nat, q0: nat) returns (q: nat)
    requires W * z == u + m * n && p * u == t + q0 * n && q0 < p && m < W
    ensures (W * p) * z == t + q * n && q < W * p
  {
    q := q0 + p * m;
    Assoc3(W, p, z);
    Distribute(p, u, m * n);
    Assoc3(p, m, n);
    Distribute(n, q0, p * m);
    Monotone(m, W - 1, p);
  }

  /** One subtraction of n completes the reduction of anything below n * W^k. */
  lemma RedcBound(n: nat, v: nat, t: nat, k: nat)
    requires NegInverse(n, v) && t < Pow(W, k) * n
    ensures Redc(n, v, t, k) < 2 * n
  {
    var q := RedcSteps(n, v, t, k);
    BoundOf(Pow(W, k), Redc(n, v, t, k), t, q, n);
  }

  lemma BoundOf(p: nat, z: nat, t: nat, q: nat, n: nat)
    requires p * z == t + q * n && q < p && t < p * n
    ensures z < 2 * n
  {
    Monotone(q, p, n);
    Assoc3(p, 2, n);
    Smaller(z, 2 * n, p);
  }

  /** n divides the difference of a and b. */
  ghost predicate Congruent(a: int, b: int, n: nat) {
    Divides(n, a - b)
  }

  ghost predicate Divides(n: nat, x: int) {
    exists k: int :: x == Times(n, k)
  }

  function Times(n: nat, k: int): int { n * k }

  lemma HalveEven(n: nat, h: nat, q: int, x: int)
    requires n == 2 * h + 1 && 2 * x == n * q
    ensures q % 2 == 0
  {
    Distribute(q, 2 * h, 1);
    Assoc3(2, h, q);
    assert q == 2 * (x - h * q);
  }

  /** An odd divisor of a doubled number divides the number itself. */
  lemma Halve(n: nat, x: int)
    requires n % 2 == 1 && Divides(n, 2 * x)
    ensures Divides(n, x)
  {
    var q :| 2 * x == Times(n, q);
    HalveEven(n, n / 2, q, x);
    Assoc3(n, 2, q / 2);
    assert x == Times(n, q / 2);
  }

  lemma {:induction false} CancelTwos(n: nat, k: nat, x: int)
    requires n % 2 == 1 && Divides(n, Pow(2, k) * x)
    ensures Divides(n, x)
  {
    if k > 0 {
      Assoc3(2, Pow(2, k - 1), x);
      Halve(n, Pow(2, k - 1) * x);
      CancelTwos(n, k - 1, x);
    }
  }

  lemma {:induction false} CancelWords(n: nat, k: nat, x: int)
    requires n % 2 == 1 && Divides(n, Pow(W, k) * x)
    ensures Divides(n, x)
  {
    if k > 0 {
      Assoc3(W, Pow(W, k - 1), x);
      Bits32();
      CancelTwos(n, 32, Pow(W, k - 1) * x);
      CancelWords(n, k - 1, x);
    }
  }

  /** The Montgomery product over numbers of `words` words. */
  function MontMul(n: nat, v: nat, a: nat, b: nat, words: nat): nat { Redc(n, v, a * b, words) }

  /** The Montgomery product of a and rr is a * 2^2048 modulo n: rr turns any number into its
      Montgomery form. */
  lemma EntersMontgomeryForm(n: nat, a: nat, words: nat, rr: nat)
    requires n > 0 && n % 2 == 1 && rr == RSquared(n, words)
    ensures Congruent(MontMul(n, N0Inv(n), a, rr, words), a * Pow(W, words), n)
  {
    N0InvCorrect(n);
    var c := SquareSplits(n, words);
    Enters(n, N0Inv(n), a, words, Pow(W, words), rr, c);
  }

  lemma SquareSplits(n: nat, words: nat) returns (c: nat)
    requires n > 0
    ensures Pow(W, words) * Pow(W, words) == n * c + RSquared(n, words) && RSquared(n, words) < n
  {
    var x := Pow(W, words) * Pow(W, words);
    c := x / n;
  }

  lemma Enters(n: nat, v: nat, a: nat, words: nat, r: nat, rr: nat, c: nat)
    requires n % 2 == 1 && NegInverse(n, v) && r == Pow(W, words) && r * r == n * c + rr
    ensures Congruent(MontMul(n, v, a, rr, words), a * r, n)
  {
    var q := RedcSteps(n, v, a * rr, words);
    var z := Redc(n, v, a * rr, words);
    Telescope(n, a, rr, r, z, q, c);
    CancelWords(n, words, z - a * r);
  }

  lemma Telescope(n: nat, a: nat, rr: nat, r: nat, z: nat, q: nat, c: nat)
    requires r * z == a * rr + q * n && r * r == n * c + rr
    ensures Divides(n, r * (z - a * r))
  {
    Distribute(r, z, -(a * r));
    Assoc3(a, r, r);
    Distribute(a, n * c, rr);
    Assoc3(a, n, c);
    Distribute(n, q, -(a * c));
    assert r * (z - a * r) == Times(n, q - a * c);
  }

  /** Reducing a number in Montgomery form takes the factor 2^2048 out again. */
  lemma LeavesMontgomeryForm(n: nat, a: nat, words: nat)
    requires n % 2 == 1
    ensures Congruent(MontMul(n, N0Inv(n), a, Pow(W, words), words), a, n)
  {
    N0InvCorrect(n);
    Leaves(n, N0Inv(n), a, words, Pow(W, words));
  }

  lemma LeavesBy(n: nat, a: int, r: nat, z: nat, q: nat)
    requires r * z == a * r + q * n
    ensures Divides(n, r * (z - a))
  {
    Distribute(r, z, -a);
    assert r * (z - a) == Times(n, q);
  }

  lemma Leaves(n: nat, v: nat, a: nat, words: nat, r: nat)
    requires n % 2 == 1 && NegInverse(n, v) && r == Pow(W, words)
    ensures Congruent(MontMul(n, v, a, r, words), a, n)
  {
    var z := Redc(n, v, a * r, words);
    var q := RedcSteps(n, v, a * r, words);
    LeavesBy(n, a, r, z, q);
    CancelWords(n, words, z - a);
  }

  /** What the numbers of a key must do for the arithmetic on it: the reduction's divisions are exact,
      the product with rr takes a number into Montgomery form, and a reduction takes it out. */
  ghost predicate Montgomery(n: nat, v: nat, rr: nat, words: nat, a: nat) {
    && (a + Quotient(v, a) * n) % W == 0
    && Congruent(MontMul(n, v, a, rr, words), a * Pow(W, words), n)
    && Congruent(MontMul(n, v, a, Pow(W, words), words), a, n)
  }

  lemma OddWorks(n: nat, v: nat, rr: nat, words: nat, a: nat)
    requires n > 0 && n % 2 == 1 && v == N0Inv(n) && rr == RSquared(n, words)
    ensures Montgomery(n, v, rr, words, a)
  {
    N0InvCorrect(n);
    ReductionDivides(n, v, a);
    EntersMontgomeryForm(n, a, words, rr);
    LeavesMontgomeryForm(n, a, words);
  }

  /** A converted key with an odd modulus works, for every number. */
  lemma KeyWorks(rsa: Rsa, len: int, n0inv: uint32, n: seq<uint32>, rr: seq<uint32>, exponent: int, a: nat)
    requires Converted(rsa, len, n0inv, n, rr, exponent) && rsa.n % 2 == 1
    ensures Montgomery(Value(n), n0inv, Value(rr), len, a)
  {
    OddWorks(Value(n), n0inv, Value(rr), len, a);
  }
}
