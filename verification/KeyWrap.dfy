/** AES Key Wrap, sections 2.2.1 to 2.2.3 of RFC 3394, over an arbitrary keyed
    permutation of 16-byte blocks. The wrap laws the rotation code relies on are
    proved here rather than assumed. */
module KeyWrap {
  import opened Bytes

  const HALF := 8
  const BLOCK := 16

  type Block = b: bytes | |b| == BLOCK witness seq(BLOCK, _ => 0)

  datatype RawCipher = Cipher(encrypt: (bytes, Block) -> Block, decrypt: (bytes, Block) -> Block)

  /** `encrypt(key, _)` permutes the 16-byte blocks and `decrypt(key, _)` is its inverse. */
  ghost predicate IsPermutation(c: RawCipher) {
    && (forall k: bytes, b: Block :: c.decrypt(k, c.encrypt(k, b)) == b)
    && (forall k: bytes, b: Block :: c.encrypt(k, c.decrypt(k, b)) == b)
  }

  type Cipher = c: RawCipher | IsPermutation(c) ghost witness Cipher((_, b) => b, (_, b) => b)

  type Half = h: bytes | |h| == HALF witness seq(HALF, _ => 0)

  /** The integrity register and the n key-data registers. */
  datatype Regs = Regs(a: Half, r: seq<Half>)

  const INITIAL_VALUE: Half := [0xA6, 0xA6, 0xA6, 0xA6, 0xA6, 0xA6, 0xA6, 0xA6]

  /** The step number as a 64-bit big-endian half block. */
  function BigEndian(t: nat): Half {
    BigEndianDigits(t, HALF)
  }

  function BigEndianDigits(t: nat, digits: nat): (r: bytes)
    ensures |r| == digits
  {
    if digits == 0 then [] else BigEndianDigits(t / 256, digits - 1) + [(t % 256) as byte]
  }

  /** The number that bytes denote, most significant byte first. */
  function Value(b: bytes): nat {
    if b == [] then 0 else 256 * Value(b[..|b| - 1]) + b[|b| - 1] as nat
  }

  function Power256(n: nat): (p: nat)
    ensures p > 0
  {
    if n == 0 then 1 else 256 * Power256(n - 1)
  }

  /** The encoding denotes the number, as long as it has room. */
  lemma {:induction false} BigEndianValue(t: nat, digits: nat)
    requires t < Power256(digits)
    ensures Value(BigEndianDigits(t, digits)) == t
  {
    if digits > 0 {
      var b := BigEndianDigits(t, digits);
      BigEndianValue(t / 256, digits - 1);
      ByteRoundTrip(t % 256);
      assert b[..|b| - 1] == BigEndianDigits(t / 256, digits - 1);
    }
  }

  /** Wrapping step number t + 1: it works on register t mod n. */
  function Forward(c: Cipher, key: bytes, s: Regs, t: nat): (s': Regs)
    ensures |s'.r| == |s.r|
  {
    if s.r == [] then s
    else
      var i := t % |s.r|;
      var b := c.encrypt(key, s.a + s.r[i]);
      Regs(Xor(b[..HALF], BigEndian(t + 1)), s.r[i := b[HALF..]])
  }

  function Backward(c: Cipher, key: bytes, s: Regs, t: nat): (s': Regs)
    ensures |s'.r| == |s.r|
  {
    if s.r == [] then s
    else
      var i := t % |s.r|;
      var b := c.decrypt(key, Xor(s.a, BigEndian(t + 1)) + s.r[i]);
      Regs(b[..HALF], s.r[i := b[HALF..]])
  }

  lemma BackwardUndoesForward(c: Cipher, key: bytes, s: Regs, t: nat)
    ensures Backward(c, key, Forward(c, key, s, t), t) == s
  {
    if s.r != [] {
      var i := t % |s.r|;
      var b := c.encrypt(key, s.a + s.r[i]);
      XorTwice(b[..HALF], BigEndian(t + 1));
      assert b[..HALF] + b[HALF..] == b;
      assert c.decrypt(key, b) == s.a + s.r[i];
      assert s.r[i := b[HALF..]][i := s.r[i]] == s.r;
    }
  }

  lemma ForwardUndoesBackward(c: Cipher, key: bytes, s: Regs, t: nat)
    ensures Forward(c, key, Backward(c, key, s, t), t) == s
  {
    if s.r != [] {
      var i := t % |s.r|;
      var block := Xor(s.a, BigEndian(t + 1)) + s.r[i];
      var b := c.decrypt(key, block);
      assert b[..HALF] + b[HALF..] == b;
      assert c.encrypt(key, b) == block;
      XorTwice(s.a, BigEndian(t + 1));
      assert s.r[i := b[HALF..]][i := s.r[i]] == s.r;
    }
  }

  // ---- Numbered steps and their undoing, for any step function ----

  /** Steps 0 to m - 1. */
  function Iterate<S>(f: (S, nat) -> S, s: S, m: nat): S {
    if m == 0 then s else f(Iterate(f, s, m - 1), m - 1)
  }

  /** Steps m - 1 down to 0. */
  function Unwind<S>(g: (S, nat) -> S, s: S, m: nat): S
    decreases m
  {
    if m == 0 then s else Unwind(g, g(s, m - 1), m - 1)
  }

  ghost predicate Undoes<S(!new)>(g: (S, nat) -> S, f: (S, nat) -> S) {
    forall s: S, t: nat :: g(f(s, t), t) == s
  }

  lemma {:induction false} UnwindIterate<S(!new)>(f: (S, nat) -> S, g: (S, nat) -> S, s: S, m: nat)
    requires Undoes(g, f)
    ensures Unwind(g, Iterate(f, s, m), m) == s
  {
    if m > 0 {
      UnwindIterate(f, g, s, m - 1);
    }
  }

  lemma {:induction false} IterateUnwind<S(!new)>(f: (S, nat) -> S, g: (S, nat) -> S, s: S, m: nat)
    requires Undoes(f, g)
    ensures Iterate(f, Unwind(g, s, m), m) == s
    decreases m
  {
    if m > 0 {
      IterateUnwind(f, g, g(s, m - 1), m - 1);
    }
  }

  lemma {:induction false} LengthKept(f: (Regs, nat) -> Regs, s: Regs, m: nat)
    requires forall s: Regs, t: nat :: |f(s, t).r| == |s.r|
    ensures |Iterate(f, s, m).r| == |s.r| && |Unwind(f, s, m).r| == |s.r|
    decreases m
  {
    if m > 0 {
      LengthKept(f, s, m - 1);
      LengthKept(f, f(s, m - 1), m - 1);
    }
  }

  // ---- The shift-register form of section 2.2.1 ----

  /** The standard's other description of a wrapping step: always work on the first register
      and rotate the registers by one. */
  function Shift(c: Cipher, key: bytes, s: Regs, t: nat): Regs {
    if s.r == [] then s
    else
      var b := c.encrypt(key, s.a + s.r[0]);
      Regs(Xor(b[..HALF], BigEndian(t + 1)), s.r[1..] + [b[HALF..]])
  }

  function RotateLeft(r: seq<Half>, i: nat): seq<Half>
    requires i <= |r|
  {
    r[i..] + r[..i]
  }

  function NextIndex(i: nat, n: nat): nat {
    if i + 1 == n then 0 else i + 1
  }

  lemma RotateOne(r: seq<Half>, i: nat, x: Half)
    requires i < |r|
    ensures RotateLeft(r, i)[0] == r[i]
    ensures RotateLeft(r, i)[1..] + [x] == RotateLeft(r[i := x], NextIndex(i, |r|))
  {
    assert RotateLeft(r, i)[1..] + [x] == r[i + 1..] + r[..i] + [x];
  }

  lemma NextIndexIsMod(t: nat, n: nat)
    requires n > 0
    ensures NextIndex(t % n, n) == (t + 1) % n
  {
    var q, i := t / n, t % n;
    assert t == q * n + i;
    if i + 1 == n {
      assert t + 1 == (q + 1) * n + 0;
      ModUnique(t + 1, n, q + 1, 0);
    } else {
      ModUnique(t + 1, n, q, i + 1);
    }
  }

  lemma ModUnique(a: nat, n: nat, q: nat, r: nat)
    requires n > 0 && a == q * n + r && r < n
    ensures a % n == r
  {
    var d: int := a / n - q;
    assert d * n == r - a % n;
    assert d > 0 ==> d * n >= n;
    assert d < 0 ==> d * n <= 0 - n;
  }

  function Rotated(s: Regs, i: nat): Regs
    requires i <= |s.r|
  {
    Regs(s.a, RotateLeft(s.r, i))
  }

  lemma ShiftOneStep(c: Cipher, key: bytes, s: Regs, t: nat)
    requires s.r != []
    ensures Shift(c, key, Rotated(s, t % |s.r|), t) == Rotated(Forward(c, key, s, t), (t + 1) % |s.r|)
  {
    var i := t % |s.r|;
    var b := c.encrypt(key, s.a + s.r[i]);
    RotateOne(s.r, i, b[HALF..]);
    NextIndexIsMod(t, |s.r|);
  }

  /** The two step functions, and one rotated by as many places as steps were taken. */
  lemma {:induction false} IterateRotated(f: (Regs, nat) -> Regs, g: (Regs, nat) -> Regs, s: Regs, m: nat)
    requires s.r != []
    requires forall s: Regs, t: nat :: |f(s, t).r| == |s.r|
    requires forall s: Regs, t: nat :: s.r != [] ==> g(Rotated(s, t % |s.r|), t) == Rotated(f(s, t), (t + 1) % |s.r|)
    ensures |Iterate(f, s, m).r| == |s.r|
    ensures Iterate(g, s, m) == Rotated(Iterate(f, s, m), m % |s.r|)
  {
    if m == 0 {
      assert Rotated(s, 0).r == s.r;
    } else {
      IterateRotated(f, g, s, m - 1);
      var before := Iterate(f, s, m - 1);
      assert Iterate(f, s, m) == f(before, m - 1) && Iterate(g, s, m) == g(Rotated(before, (m - 1) % |s.r|), m - 1);
    }
  }

  /** Both descriptions compute the same: after any number m of steps the shifted registers
      are the indexed ones rotated by m mod n, so after whole passes they are equal. */
  lemma ShiftFormAgrees(c: Cipher, key: bytes, s: Regs, m: nat)
    requires s.r != []
    ensures var indexed := Iterate((s: Regs, t: nat) => Forward(c, key, s, t), s, m);
            var shifted := Iterate((s: Regs, t: nat) => Shift(c, key, s, t), s, m);
            && |indexed.r| == |s.r| && shifted == Rotated(indexed, m % |s.r|)
            && (m % |s.r| == 0 ==> shifted == indexed)
  {
    var f := (s: Regs, t: nat) => Forward(c, key, s, t);
    var g := (s: Regs, t: nat) => Shift(c, key, s, t);
    forall s: Regs, t: nat | s.r != []
      ensures g(Rotated(s, t % |s.r|), t) == Rotated(f(s, t), (t + 1) % |s.r|)
    {
      ShiftOneStep(c, key, s, t);
    }
    IterateRotated(f, g, s, m);
    assert RotateLeft(Iterate(f, s, m).r, 0) == Iterate(f, s, m).r;
  }

  // ---- Byte strings and half blocks ----

  function Halves(p: bytes): (r: seq<Half>)
    requires |p| % HALF == 0
    ensures |r| == |p| / HALF
  {
    if p == [] then [] else [p[..HALF]] + Halves(p[HALF..])
  }

  function Join(r: seq<Half>): (p: bytes)
    ensures |p| == HALF * |r|
  {
    if r == [] then [] else r[0] + Join(r[1..])
  }

  lemma {:induction false} JoinHalves(p: bytes)
    requires |p| % HALF == 0
    ensures Join(Halves(p)) == p
  {
    if p != [] {
      JoinHalves(p[HALF..]);
      assert Halves(p)[1..] == Halves(p[HALF..]);
      assert p[..HALF] + p[HALF..] == p;
    }
  }

  lemma {:induction false} HalvesJoin(r: seq<Half>)
    ensures Halves(Join(r)) == r
  {
    if r != [] {
      HalvesJoin(r[1..]);
      assert Join(r)[..HALF] == r[0] && Join(r)[HALF..] == Join(r[1..]);
      assert r == [r[0]] + r[1..];
    }
  }

  /** Register i holds bytes 8 i to 8 i + 7. */
  lemma {:induction false} HalfAt(p: bytes, i: nat)
    requires |p| % HALF == 0 && i < |p| / HALF
    ensures Halves(p)[i] == p[8 * i..8 * i + 8]
  {
    if i > 0 {
      HalfAt(p[HALF..], i - 1);
      assert p[HALF..][8 * (i - 1)..8 * (i - 1) + 8] == p[8 * i..8 * i + 8];
    }
  }

  lemma {:induction false} JoinSnoc(r: seq<Half>, last: Half)
    ensures Join(r + [last]) == Join(r) + last
  {
    if r == [] {
      assert r + [last] == [last] && Join([last]) == last + Join([]);
    } else {
      assert (r + [last])[1..] == r[1..] + [last];
      JoinSnoc(r[1..], last);
    }
  }

  function Serialize(s: Regs): (w: bytes)
    ensures |w| == HALF + HALF * |s.r|
  {
    s.a + Join(s.r)
  }

  function Parse(w: bytes): (s: Regs)
    requires |w| >= HALF && |w| % HALF == 0
    ensures |s.r| == |w| / HALF - 1
  {
    Regs(w[..HALF], Halves(w[HALF..]))
  }

  lemma ParseSerialize(s: Regs)
    ensures Parse(Serialize(s)) == s
  {
    HalvesJoin(s.r);
    assert Serialize(s)[HALF..] == Join(s.r);
  }

  lemma SerializeParse(w: bytes)
    requires |w| >= HALF && |w| % HALF == 0
    ensures Serialize(Parse(w)) == w
  {
    JoinHalves(w[HALF..]);
  }

  // ---- Wrap and unwrap ----

  function Steps(c: Cipher, key: bytes, s: Regs, m: nat): Regs {
    Iterate((s: Regs, t: nat) => Forward(c, key, s, t), s, m)
  }

  /** Six passes over the registers. */
  function WrapRegs(c: Cipher, key: bytes, s: Regs): Regs {
    Steps(c, key, s, 6 * |s.r|)
  }

  function UnwrapRegs(c: Cipher, key: bytes, s: Regs): Regs {
    Unwind((s: Regs, t: nat) => Backward(c, key, s, t), s, 6 * |s.r|)
  }

  /** Six whole passes in either form give the same registers. */
  lemma WrapMatchesShiftForm(c: Cipher, key: bytes, s: Regs)
    requires s.r != []
    ensures WrapRegs(c, key, s) == Iterate((s: Regs, t: nat) => Shift(c, key, s, t), s, 6 * |s.r|)
  {
    ModUnique(6 * |s.r|, |s.r|, 6, 0);
    ShiftFormAgrees(c, key, s, 6 * |s.r|);
  }

  lemma RegsRoundTrip(c: Cipher, key: bytes, s: Regs)
    ensures UnwrapRegs(c, key, WrapRegs(c, key, s)) == s && |WrapRegs(c, key, s).r| == |s.r|
    ensures WrapRegs(c, key, UnwrapRegs(c, key, s)) == s && |UnwrapRegs(c, key, s).r| == |s.r|
  {
    var f := (s: Regs, t: nat) => Forward(c, key, s, t);
    var g := (s: Regs, t: nat) => Backward(c, key, s, t);
    assert Undoes(g, f) by {
      forall s: Regs, t: nat ensures g(f(s, t), t) == s {
        BackwardUndoesForward(c, key, s, t);
      }
    }
    assert Undoes(f, g) by {
      forall s: Regs, t: nat ensures f(g(s, t), t) == s {
        ForwardUndoesBackward(c, key, s, t);
      }
    }
    LengthKept(f, s, 6 * |s.r|);
    LengthKept(g, s, 6 * |s.r|);
    UnwindIterate(f, g, s, 6 * |s.r|);
    IterateUnwind(f, g, s, 6 * |s.r|);
  }

  /** What the wrap operation accepts: at least two half blocks of key data. */
  predicate Wrappable(p: bytes) {
    |p| >= 2 * HALF && |p| % HALF == 0
  }

  function Wrap(c: Cipher, key: bytes, p: bytes): bytes
    requires Wrappable(p)
  {
    Serialize(WrapRegs(c, key, Regs(INITIAL_VALUE, Halves(p))))
  }

  /** None is the library's InvalidUnwrap. */
  function Unwrap(c: Cipher, key: bytes, w: bytes): Option<bytes> {
    if |w| < 3 * HALF || |w| % HALF != 0 then None
    else
      var s := UnwrapRegs(c, key, Parse(w));
      if s.a == INITIAL_VALUE then Some(Join(s.r)) else None
  }

  lemma WrapLength(c: Cipher, key: bytes, p: bytes)
    requires Wrappable(p)
    ensures |Wrap(c, key, p)| == |p| + HALF
  {
    RegsRoundTrip(c, key, Regs(INITIAL_VALUE, Halves(p)));
  }

  /** Unwrapping inverts wrapping ... */
  lemma UnwrapWrap(c: Cipher, key: bytes, p: bytes)
    requires Wrappable(p)
    ensures Unwrap(c, key, Wrap(c, key, p)) == Some(p)
  {
    var start := Regs(INITIAL_VALUE, Halves(p));
    RegsRoundTrip(c, key, start);
    ParseSerialize(WrapRegs(c, key, start));
    JoinHalves(p);
  }

  /** ... and a blob that unwraps is the wrapping of what it unwraps to: no two blobs
      unwrap to the same data under one key, so re-wrapping reproduces the same bytes. */
  lemma WrapUnwrap(c: Cipher, key: bytes, w: bytes, p: bytes)
    requires Unwrap(c, key, w) == Some(p)
    ensures Wrappable(p) && Wrap(c, key, p) == w
  {
    var s := UnwrapRegs(c, key, Parse(w));
    assert |p| == HALF * |s.r|;
    HalvesJoin(s.r);
    RegsRoundTrip(c, key, Parse(w));
    SerializeParse(w);
  }

  /** The graph of Unwrap is exactly the graph of Wrap. */
  lemma UnwrapIffWrap(c: Cipher, key: bytes, w: bytes, p: bytes)
    ensures Unwrap(c, key, w) == Some(p) <==> Wrappable(p) && Wrap(c, key, p) == w
  {
    if Unwrap(c, key, w) == Some(p) {
      WrapUnwrap(c, key, w, p);
    }
    if Wrappable(p) && Wrap(c, key, p) == w {
      UnwrapWrap(c, key, p);
    }
  }

  /** The index-based algorithm of section 2.2.1, as the standard prints it, with the initial
      value of section 2.2.3.1: it computes the wrapping. */
  method WrapByTheBook(c: Cipher, key: bytes, p: bytes) returns (w: bytes)
    requires Wrappable(p)
    ensures w == Wrap(c, key, p)
  {
    var n := |p| / 8;
    var r: seq<Half> := [];
    for i := 0 to n
      invariant r == Halves(p)[..i]
    {
      HalfAt(p, i);
      r := r + [p[8 * i..8 * i + 8]];
    }
    assert r == Halves(p);
    var a: Half := [0xA6, 0xA6, 0xA6, 0xA6, 0xA6, 0xA6, 0xA6, 0xA6];
    a, r := SixPasses(c, key, a, r);
    w := a;
    for i := 0 to n
      invariant w == a + Join(r[..i])
    {
      assert r[..i + 1] == r[..i] + [r[i]];
      JoinSnoc(r[..i], r[i]);
      w := w + r[i];
    }
    assert r[..n] == r;
  }

  method SixPasses(c: Cipher, key: bytes, a0: Half, r0: seq<Half>) returns (a: Half, r: seq<Half>)
    requires r0 != []
    ensures |r| == |r0| && Regs(a, r) == WrapRegs(c, key, Regs(a0, r0))
  {
    a, r := a0, r0;
    var n, t := |r0|, 0;
    for j := 0 to 6
      invariant |r| == n && t == j * n && Regs(a, r) == Steps(c, key, Regs(a0, r0), t)
    {
      a, r, t := OnePass(c, key, Regs(a0, r0), j, t, n, a, r);
      assert (j + 1) * n == j * n + n;
    }
  }

  /** Pass j over the n registers, after t0 steps: register i with step number t0 + i. */
  method OnePass(c: Cipher, key: bytes, ghost start: Regs, ghost j: nat, t0: nat, n: nat, a0: Half, r0: seq<Half>)
    returns (a: Half, r: seq<Half>, t: nat)
    requires n > 0 && |r0| == n && t0 == j * n && Regs(a0, r0) == Steps(c, key, start, t0)
    ensures |r| == n && t == t0 + n && Regs(a, r) == Steps(c, key, start, t)
  {
    a, r, t := a0, r0, t0;
    for i := 1 to n + 1
      invariant |r| == n && t == t0 + i - 1 && Regs(a, r) == Steps(c, key, start, t)
    {
      ModUnique(t, n, j, i - 1);
      a, r := OneStep(c, key, start, t, i - 1, a, r);
      t := t + 1;
    }
  }

  method OneStep(c: Cipher, key: bytes, ghost start: Regs, t: nat, i: nat, a0: Half, r0: seq<Half>)
    returns (a: Half, r: seq<Half>)
    requires i < |r0| && t % |r0| == i && Regs(a0, r0) == Steps(c, key, start, t)
    ensures |r| == |r0| && Regs(a, r) == Steps(c, key, start, t + 1)
  {
    NextStep(c, key, start, t);
    var b := c.encrypt(key, a0 + r0[i]);
    a, r := Xor(b[..8], BigEndian(t + 1)), r0[i := b[8..]];
    assert Regs(a, r) == Forward(c, key, Regs(a0, r0), t);
  }

  lemma NextStep(c: Cipher, key: bytes, start: Regs, t: nat)
    ensures Steps(c, key, start, t + 1) == Forward(c, key, Steps(c, key, start, t), t)
  {
  }
}
