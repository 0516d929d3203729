/**
The xorshift128+ generator of `spl-generic.c`: a linear step on two 64-bit words.  A word is its
64 bits, lowest first, so that exclusive or and the shifts act on each bit.
*/
module Rand {
  import Arith

  type Word = w: seq<bool> | |w| == 64 witness NoBits()

  datatype State = State(x: Word, y: Word)

  function NoBits(): (r: seq<bool>)
    ensures |r| == 64 && forall i :: 0 <= i < 64 ==> !r[i]
  {
    seq(64, _ => false)
  }

  const NONE: Word := NoBits()
  const ZERO: State := State(NONE, NONE)

  function Xor(a: Word, b: Word): Word {
    seq(64, i requires 0 <= i < 64 => a[i] != b[i])
  }

  function Shl(a: Word, k: nat): Word {
    seq(64, i requires 0 <= i < 64 => i >= k && a[i - k])
  }

  function Shr(a: Word, k: nat): Word {
    seq(64, i requires 0 <= i < 64 => i + k < 64 && a[i + k])
  }

  function Plus(a: State, b: State): State { State(Xor(a.x, b.x), Xor(a.y, b.y)) }

  function Scramble(x: Word): Word { Xor(x, Shl(x, 23)) }

  function Mix(s1: Word, s0: Word): Word {
    Xor(Xor(Xor(s1, s0), Shr(s1, 18)), Shr(s0, 5))
  }

  /** The state step of `spl_rand_next`. */
  function Next(s: State): State { State(s.y, Mix(Scramble(s.x), s.y)) }

  function Iter(s: State, n: nat): State {
    if n == 0 then s else Next(Iter(s, n - 1))
  }

  /** The two halves undone, each xor-shift by its finite geometric series. */
  function Unscramble(w: Word): Word { Xor(Xor(w, Shl(w, 23)), Shl(w, 46)) }

  function Unshift(w: Word): Word {
    Xor(Xor(Xor(w, Shr(w, 18)), Shr(w, 36)), Shr(w, 54))
  }

  function Unmix(t: Word, s0: Word): Word { Unshift(Xor(Xor(t, s0), Shr(s0, 5))) }

  function Prev(t: State): State { State(Unscramble(Unmix(t.y, t.x)), t.x) }

  /** Bit `i` of a word; there is nothing outside it. */
  predicate At(w: Word, i: int) { 0 <= i < 64 && w[i] }

  /** The step bit by bit: the new word is the parity of the bits that the shifts by 23, 18 and 5
      bring together. */
  lemma NextBit(s: State, i: nat)
    requires i < 64
    ensures Next(s).x == s.y
    ensures Next(s).y[i] ==
      (((At(s.x, i) != At(s.x, i - 23)) != (i + 18 < 64 && At(s.x, i + 18) != At(s.x, i - 5)))
       != (At(s.y, i) != At(s.y, i + 5)))
  {
    var s1 := Scramble(s.x);
    assert s1[i] == (s.x[i] != Shl(s.x, 23)[i]);
    assert i + 18 < 64 ==> s1[i + 18] == (s.x[i + 18] != Shl(s.x, 23)[i + 18]);
  }

  // ---------------------------------------------------------------- the step is a bijection

  lemma ScrambleInverse(x: Word)
    ensures Unscramble(Scramble(x)) == x && Scramble(Unscramble(x)) == x
  {
    assert Unscramble(Scramble(x)) == x;
  }

  lemma ShiftInverse(w: Word)
    ensures Unshift(Xor(w, Shr(w, 18))) == w && Xor(Unshift(w), Shr(Unshift(w), 18)) == w
  {
  }

  /** What `s0` adds to the mix is added once more to take it out. */
  lemma Cancel(a: Word, s0: Word, b: Word, c: Word)
    ensures Xor(Xor(Xor(Xor(Xor(a, s0), b), c), s0), c) == Xor(a, b)
  {
  }

  lemma CancelBack(x: Word, s0: Word, a: Word, b: Word, c: Word)
    requires Xor(a, b) == Xor(Xor(x, s0), c)
    ensures Xor(Xor(Xor(a, s0), b), c) == x
  {
    forall i | 0 <= i < 64
      ensures Xor(Xor(Xor(a, s0), b), c)[i] == x[i]
    {
      assert Xor(a, b)[i] == Xor(Xor(x, s0), c)[i];
    }
  }

  lemma MixInverse(x: Word, s0: Word)
    ensures Unmix(Mix(x, s0), s0) == x && Mix(Unmix(x, s0), s0) == x
  {
    Cancel(x, s0, Shr(x, 18), Shr(s0, 5));
    ShiftInverse(x);
    ShiftInverse(Xor(Xor(x, s0), Shr(s0, 5)));
    CancelBack(x, s0, Unmix(x, s0), Shr(Unmix(x, s0), 18), Shr(s0, 5));
  }

  /** Each state has exactly one successor and exactly one predecessor. */
  lemma StepIsBijective(s: State)
    ensures Prev(Next(s)) == s && Next(Prev(s)) == s
  {
    MixInverse(Scramble(s.x), s.y);
    ScrambleInverse(s.x);
    MixInverse(s.y, s.x);
    ScrambleInverse(Unmix(s.y, s.x));
  }

  lemma Injective(a: State, b: State)
    requires Next(a) == Next(b)
    ensures a == b
  {
    StepIsBijective(a);
    StepIsBijective(b);
  }

  /** No two streams ever meet unless they started together. */
  lemma {:induction false} StreamsNeverMeet(a: State, b: State, n: nat)
    ensures Iter(a, n) == Iter(b, n) ==> a == b
  {
    if n > 0 && Iter(a, n) == Iter(b, n) {
      Injective(Iter(a, n - 1), Iter(b, n - 1));
      StreamsNeverMeet(a, b, n - 1);
    }
  }

  /** Any step repeated, so that these facts need not look inside the words. */
  ghost function Repeat<T>(f: T -> T, s: T, n: nat): T {
    if n == 0 then s else f(Repeat(f, s, n - 1))
  }

  lemma {:induction false} RepeatPlus<T>(f: T -> T, s: T, m: nat, n: nat)
    ensures Repeat(f, Repeat(f, s, m), n) == Repeat(f, s, m + n)
  {
    if n > 0 {
      RepeatPlus(f, s, m, n - 1);
    }
  }

  lemma {:induction false} RepeatFixed<T>(f: T -> T, s: T, n: nat)
    requires f(s) == s
    ensures Repeat(f, s, n) == s
  {
    if n > 0 {
      RepeatFixed(f, s, n - 1);
    }
  }

  lemma {:induction false} IterRepeats(s: State, n: nat)
    ensures Iter(s, n) == Repeat(Next, s, n)
  {
    if n > 0 {
      IterRepeats(s, n - 1);
    }
  }

  lemma IterPlus(s: State, m: nat, n: nat)
    ensures Iter(Iter(s, m), n) == Iter(s, m + n)
  {
    IterRepeats(s, m);
    IterRepeats(s, m + n);
    IterRepeats(Iter(s, m), n);
    RepeatPlus(Next, s, m, n);
  }

  /** A repeated state means the stream is back at its seed: a cycle without a tail. */
  lemma RepeatsFromTheSeed(s: State, i: nat, n: nat)
    requires Iter(s, i) == Iter(s, n + i)
    ensures Iter(s, n) == s
  {
    var t := Iter(s, n);
    IterPlus(s, n, i);
    StreamsNeverMeet(t, s, i);
  }

  lemma ZeroMaps()
    ensures Next(ZERO) == ZERO
  {
    assert Scramble(NONE) == NONE;
    assert Mix(NONE, NONE) == NONE;
  }

  lemma ZeroStays(n: nat)
    ensures Iter(ZERO, n) == ZERO
  {
    ZeroMaps();
    IterRepeats(ZERO, n);
    RepeatFixed(Next, ZERO, n);
  }

  /** The all-zero state is reached from no other. */
  lemma NonzeroForever(s: State, n: nat)
    ensures Iter(s, n) == ZERO <==> s == ZERO
  {
    ZeroStays(n);
    StreamsNeverMeet(s, ZERO, n);
  }

  // ---------------------------------------------------------------- the step is linear

  lemma ShiftsDistribute(a: Word, b: Word, k: nat)
    ensures Shl(Xor(a, b), k) == Xor(Shl(a, k), Shl(b, k))
    ensures Shr(Xor(a, b), k) == Xor(Shr(a, k), Shr(b, k))
  {
  }

  lemma Swap(a: Word, b: Word, c: Word, d: Word)
    ensures Xor(Xor(a, b), Xor(c, d)) == Xor(Xor(a, c), Xor(b, d))
  {
  }

  lemma ScrambleLinear(a: Word, b: Word)
    ensures Scramble(Xor(a, b)) == Xor(Scramble(a), Scramble(b))
  {
    ShiftsDistribute(a, b, 23);
    Swap(a, b, Shl(a, 23), Shl(b, 23));
  }

  lemma MixLinear(a: Word, b: Word, c: Word, d: Word)
    ensures Mix(Xor(a, b), Xor(c, d)) == Xor(Mix(a, c), Mix(b, d))
  {
    ShiftsDistribute(a, b, 18);
    ShiftsDistribute(c, d, 5);
    Swap(a, b, c, d);
    Swap(Xor(a, c), Xor(b, d), Shr(a, 18), Shr(b, 18));
    Swap(Xor(Xor(a, c), Shr(a, 18)), Xor(Xor(b, d), Shr(b, 18)), Shr(c, 5), Shr(d, 5));
  }

  lemma Linear(a: State, b: State)
    ensures Next(Plus(a, b)) == Plus(Next(a), Next(b))
  {
    ScrambleLinear(a.x, b.x);
    MixLinear(Scramble(a.x), Scramble(b.x), a.y, b.y);
  }

  // ---------------------------------------------------------------- jumping

  /** The sum of the states after `k` steps, over the `k` below `n` with `p[k]` set. */
  function Combine(p: seq<bool>, n: nat, s: State): State
    requires n <= |p|
  {
    if n == 0 then ZERO
    else if p[n - 1] then Plus(Combine(p, n - 1, s), Iter(s, n - 1))
    else Combine(p, n - 1, s)
  }

  const JUMP: seq<nat> := [0x8a5cd789635d2dff, 0x121fd2155c472f96]

  predicate Bit(w: nat, b: nat) { w / Arith.Pow2(b) % 2 == 1 }

  /** The bits of JUMP, lowest first. */
  function JumpBits(): (p: seq<bool>)
    ensures |p| == 128
  {
    seq(128, k requires 0 <= k < 128 => Bit(JUMP[k / 64], k % 64))
  }

  function Jump(s: State): State { Combine(JumpBits(), 128, s) }

  /** Bit `i` of one of the two words. */
  predicate BitOf(s: State, second: bool, i: nat)
    requires i < 64
  {
    if second then s.y[i] else s.x[i]
  }

  lemma PlusBit(a: State, b: State, second: bool, i: nat)
    requires i < 64
    ensures BitOf(Plus(a, b), second, i) <==> BitOf(a, second, i) != BitOf(b, second, i)
  {
  }

  function Hits(q: seq<bool>, n: nat): set<nat>
    requires n <= |q|
  {
    set k | 0 <= k < n && q[k]
  }

  lemma HitsNext(q: seq<bool>, n: nat)
    requires 0 < n <= |q|
    ensures |Hits(q, n)| == |Hits(q, n - 1)| + if q[n - 1] then 1 else 0
  {
    assert Hits(q, n) == if q[n - 1] then Hits(q, n - 1) + {n - 1} else Hits(q, n - 1);
  }

  lemma {:induction false} CombineParity(p: seq<bool>, q: seq<bool>, n: nat, s: State, second: bool, i: nat)
    requires i < 64 && n <= |p| == |q|
    requires forall k :: 0 <= k < n ==> (q[k] <==> p[k] && BitOf(Iter(s, k), second, i))
    ensures BitOf(Combine(p, n, s), second, i) <==> |Hits(q, n)| % 2 == 1
  {
    if n > 0 {
      CombineParity(p, q, n - 1, s, second, i);
      HitsNext(q, n);
      PlusBit(Combine(p, n - 1, s), Iter(s, n - 1), second, i);
    }
  }

  /** The steps that JUMP selects and at which the bit is set: step `k` by bit `k` of the first
      constant, step `64 + k` by bit `k` of the second. */
  function Selected(s: State, second: bool, i: nat): set<nat>
    requires i < 64
  {
    set k | 0 <= k < 128 && Bit(JUMP[k / 64], k % 64) && BitOf(Iter(s, k), second, i)
  }

  /** A bit after the jump is the parity of its values at the selected steps. */
  lemma JumpIsParity(s: State, second: bool, i: nat)
    requires i < 64
    ensures BitOf(Jump(s), second, i) <==> |Selected(s, second, i)| % 2 == 1
  {
    var p := JumpBits();
    var q := seq(128, k requires 0 <= k < 128 => p[k] && BitOf(Iter(s, k), second, i));
    CombineParity(p, q, 128, s, second, i);
    assert Selected(s, second, i) == Hits(q, 128);
  }

  lemma {:induction false} IterShift(s: State, n: nat)
    ensures Iter(Next(s), n) == Next(Iter(s, n))
  {
    if n > 0 {
      IterShift(s, n - 1);
    }
  }

  lemma {:induction false} CombineCommutes(p: seq<bool>, n: nat, s: State)
    requires n <= |p|
    ensures Combine(p, n, Next(s)) == Next(Combine(p, n, s))
  {
    if n == 0 {
      ZeroStays(1);
    } else {
      CombineCommutes(p, n - 1, s);
      IterShift(s, n - 1);
      Linear(Combine(p, n - 1, s), Iter(s, n - 1));
    }
  }

  /** Jumping and then stepping any number of times is stepping and then jumping. */
  lemma {:induction false} JumpCommutes(s: State, n: nat)
    ensures Jump(Iter(s, n)) == Iter(Jump(s), n)
  {
    if n > 0 {
      JumpCommutes(s, n - 1);
      CombineCommutes(JumpBits(), 128, Iter(s, n - 1));
    }
  }

  lemma {:induction false} IterLinear(a: State, b: State, n: nat)
    ensures Iter(Plus(a, b), n) == Plus(Iter(a, n), Iter(b, n))
  {
    if n > 0 {
      IterLinear(a, b, n - 1);
      Linear(Iter(a, n - 1), Iter(b, n - 1));
    }
  }

  lemma {:induction false} CombineLinear(p: seq<bool>, n: nat, a: State, b: State)
    requires n <= |p|
    ensures Combine(p, n, Plus(a, b)) == Plus(Combine(p, n, a), Combine(p, n, b))
  {
    if n > 0 {
      CombineLinear(p, n - 1, a, b);
      IterLinear(a, b, n - 1);
      if p[n - 1] {
        var c, d := Combine(p, n - 1, a), Combine(p, n - 1, b);
        var e, f := Iter(a, n - 1), Iter(b, n - 1);
        Swap(c.x, d.x, e.x, f.x);
        Swap(c.y, d.y, e.y, f.y);
      }
    }
  }

  /** Jumping is linear. */
  lemma JumpLinear(a: State, b: State)
    ensures Jump(Plus(a, b)) == Plus(Jump(a), Jump(b))
  {
    CombineLinear(JumpBits(), 128, a, b);
  }

  // ---------------------------------------------------------------- the two-word array

  function Value(w: seq<bool>): nat {
    if |w| == 0 then 0 else (if w[0] then 1 else 0) + 2 * Value(w[1..])
  }

  lemma {:induction false} ValueBound(w: seq<bool>)
    ensures Value(w) < Arith.Pow2(|w|)
  {
    if |w| > 0 {
      ValueBound(w[1..]);
    }
  }

  lemma BitOfDouble(low: bool, v: nat, i: nat)
    ensures var n := (if low then 1 else 0) + 2 * v;
      if i == 0 then Bit(n, i) <==> low else Bit(n, i) <==> Bit(v, i - 1)
  {
    var n := (if low then 1 else 0) + 2 * v;
    assert n / 2 == v;
    if i == 0 {
      assert Arith.Pow2(i) == 1;
    } else {
      Arith.DivDiv(n, 2, Arith.Pow2(i - 1));
    }
  }

  /** Bit `i` of a word is worth 2^i. */
  lemma {:induction false} ValueBit(w: seq<bool>, i: nat)
    requires i < |w|
    ensures w[i] <==> Bit(Value(w), i)
  {
    BitOfDouble(w[0], Value(w[1..]), i);
    if i > 0 {
      ValueBit(w[1..], i - 1);
    }
  }

  /** The word with a given value. */
  function WordOf(n: nat, k: nat): (w: seq<bool>)
    ensures |w| == k
  {
    if k == 0 then [] else [n % 2 == 1] + WordOf(n / 2, k - 1)
  }

  lemma {:induction false} ValueOfWord(n: nat, k: nat)
    requires n < Arith.Pow2(k)
    ensures Value(WordOf(n, k)) == n
  {
    if k > 0 {
      ValueOfWord(n / 2, k - 1);
      assert WordOf(n, k)[1..] == WordOf(n / 2, k - 1);
    }
  }

  lemma {:induction false} WordOfValue(w: seq<bool>)
    ensures WordOf(Value(w), |w|) == w
  {
    if |w| > 0 {
      WordOfValue(w[1..]);
      assert Value(w) / 2 == Value(w[1..]);
      assert w == [w[0]] + w[1..];
    }
  }

  const TWO_TO_THE_64: int := 0x1_0000_0000_0000_0000

  lemma Pow2Of64()
    ensures Arith.Pow2(64) == TWO_TO_THE_64
  {
    assert Arith.Pow2(4) == 16;
    Arith.Pow2Plus(4, 4);
    Arith.Pow2Plus(8, 8);
    Arith.Pow2Plus(16, 16);
    Arith.Pow2Plus(32, 32);
  }

  /** Words are the numbers below 2^64: reading and writing are inverse to each other. */
  lemma WordsAreNumbers(w: Word, n: nat)
    ensures Value(w) < TWO_TO_THE_64 && WordOf(Value(w), 64) == w
    ensures n < TWO_TO_THE_64 ==> Value(WordOf(n, 64)) == n
  {
    Pow2Of64();
    ValueBound(w);
    WordOfValue(w);
    if n < TWO_TO_THE_64 {
      ValueOfWord(n, 64);
    }
  }

  /** The number returned: the sum modulo 2^64, from which either word gives the other. */
  lemma SumExact(a: Word, b: Word)
    ensures 0 <= Sum(a, b) < TWO_TO_THE_64
    ensures Sum(a, b) == Value(a) + Value(b) || Sum(a, b) == Value(a) + Value(b) - TWO_TO_THE_64
    ensures (Sum(a, b) - Value(b)) % TWO_TO_THE_64 == Value(a)
  {
    WordsAreNumbers(a, 0);
    WordsAreNumbers(b, 0);
    SumOf(Value(a), Value(b));
  }

  lemma SumOf(x: int, y: int)
    requires 0 <= x < TWO_TO_THE_64 && 0 <= y < TWO_TO_THE_64
    ensures var r := (x + y) % TWO_TO_THE_64;
      && (r == x + y || r == x + y - TWO_TO_THE_64)
      && (r - y) % TWO_TO_THE_64 == x
  {
  }

  function Sum(a: Word, b: Word): nat { (Value(a) + Value(b)) % TWO_TO_THE_64 }

  ghost function View(s: array<Word>): State
    requires s.Length == 2
    reads s
  {
    State(s[0], s[1])
  }

  method RandNext(s: array<Word>) returns (r: nat)
    requires s.Length == 2
    modifies s
    ensures View(s) == Next(old(View(s)))
    ensures r == Sum(View(s).y, old(View(s)).y)
  {
    var s1 := s[0];
    var s0 := s[1];
    s[0] := s0;
    s1 := Xor(s1, Shl(s1, 23));
    s[1] := Xor(Xor(Xor(s1, s0), Shr(s1, 18)), Shr(s0, 5));
    r := Sum(s[1], s0);
  }

  /** One turn of the inner loop, for bit `b` of word `i`. */
  method JumpTurn(s: array<Word>, i: nat, b: nat, x: Word, y: Word, ghost seed: State)
      returns (x': Word, y': Word)
    requires s.Length == 2 && i < 2 && b < 64
    requires State(x, y) == Combine(JumpBits(), 64 * i + b, seed)
    requires View(s) == Iter(seed, 64 * i + b)
    modifies s
    ensures State(x', y') == Combine(JumpBits(), 64 * i + b + 1, seed)
    ensures View(s) == Iter(seed, 64 * i + b + 1)
  {
    x', y' := x, y;
    assert JumpBits()[64 * i + b] == Bit(JUMP[i], b);
    if Bit(JUMP[i], b) {
      x', y' := Xor(x, s[0]), Xor(y, s[1]);
    }
    var _ := RandNext(s);
  }

  method RandJump(s: array<Word>)
    requires s.Length == 2
    modifies s
    ensures View(s) == Jump(old(View(s)))
  {
    var s0, s1 := NONE, NONE;
    ghost var seed := View(s);
    var i := 0;
    while i < 2
      invariant 0 <= i <= 2
      invariant State(s0, s1) == Combine(JumpBits(), 64 * i, seed)
      invariant View(s) == Iter(seed, 64 * i)
    {
      var b := 0;
      while b < 64
        invariant 0 <= b <= 64
        invariant State(s0, s1) == Combine(JumpBits(), 64 * i + b, seed)
        invariant View(s) == Iter(seed, 64 * i + b)
      {
        s0, s1 := JumpTurn(s, i, b, s0, s1, seed);
        b := b + 1;
      }
      i := i + 1;
    }
    s[0], s[1] := s0, s1;
  }
}
